# MyReact hook engine in Dafny

A model of the hook bookkeeping engine of `MyReact.js`. The engine lets a component function,
rendered again and again, keep per-call-site state and schedule effects. Its state is one
module-level slot array `hooks` and one cursor `currentHook`. Three operations work on it:

- `useState(initialValue)` fills the slot under the cursor if it is falsy. It returns the stored
  value and a setter bound to that slot index.
- `useEffect(callback, deps)` compares the new dependency array with the stored one, position by
  position. When it re-runs, it calls the stored cleanup first, then the callback, and stores
  `{deps, cleanUp}`.
- `MyReact.render(Component)` runs the component (and so each of its hooks, in order). Then it
  runs the component's `render` step, resets the cursor to 0 and returns the component object.

Files:

- `js_values.dfy` (module `JsValues`): the JavaScript values the engine handles. It defines
  truthiness, and `===` with identity for composite values.
- `hook_engine.dfy` (module `HookEngine`): the engine as pure functions over
  `Engine(store, cursor, trace)`. The trace records, in order, each callback, cleanup and output
  step that ran. The module also holds the lemmas about one hook call and one render pass.
- `my_react.dfy` (module `MyReact`): class `Runtime`, whose fields `hooks`, `currentHook` and
  `trace` are updated in place by `UseState`, `SetState`, `UseEffect` and `Render`. Each method
  is proved to produce exactly the state the `HookEngine` function computes.
- `hook_properties.dfy` (module `HookProperties`): properties over many renders. In any component,
  an effect with a fixed dependency array (`[]` included) runs on the first render, and its stored
  record is never replaced afterwards. In any component, an effect with no array runs on every
  render. For a component whose only hook is that effect, the exact trace is proved: the
  fixed-array effect runs once, and the array-less effect runs on every render, cleanup first.
  A falsy state value is re-initialised.
- `demo.dfy` (module `Demo`): the example component of `index.js`, and its five-render script
  replayed on a `Runtime` with the exact event log proved.

A component is a list of hook sites (`HookEngine.Site`). The kind of each site is fixed by its
position, and so is whether an effect site passes a dependency array. This is the call-order
rule. A site's arguments are total functions of the values returned by the earlier hooks of the
same pass, which is how `index.js` builds `[count, text]`. Effect callbacks and cleanups are
opaque `Closure(code, env)` tokens. A setter is its captured slot index, `Setter(hookIndex)`.
Calling it is `Runtime.SetState` with a `Plain` value or a `Functional` update. These two cases
are the `typeof newState === "function"` test.

Two behaviours of `MyReact.js` are narrower than its comments suggest. The model follows the code:

- `useState` initialises a slot when its value is *falsy*, not only when it was never written
  (`hooks[currentHook] || initialValue`). So a stored `0`, `""`, `false`, `null` or `undefined`
  is replaced by `initialValue` on the next render (`HookProperties.FalsyStateIsReinitialised`).
- The dependency comparison walks only the new array and never compares lengths. A shorter
  array that matches the old one counts as unchanged. So does a longer one padded with
  `undefined` (`HookEngine.SameDepsIff`, `HookProperties.LengthIsNotCompared`).

## Model

| member | source | states |
|---|---|---|
| JsValues.FalsyValues | MyReact.js:7 | the values the JavaScript or-operator treats as absent are exactly `undefined`, `null`, `false`, `0` and `""` |
| JsValues.StrictEquals | MyReact.js:43 | `===` holds exactly for equal primitives and for the same composite object; two distinct arrays differ even with the same contents |
| HookEngine.StateHook | MyReact.js:4-26 | a truthy stored value is kept and returned; an absent or falsy one is replaced by `initialValue`, which is returned; the setter captures the cursor's index; the cursor advances by exactly one; no other slot and no event changes |
| HookEngine.SetState | MyReact.js:13-21 | a plain value is stored in the captured slot; a function is applied to the slot's current stored value; every other slot, the store length, the cursor and the trace are unchanged |
| HookEngine.FunctionalUpdatesCompose | MyReact.js:15-17 | two functional updates `f` then `g` leave `g(f(v))` for the live value `v` |
| HookEngine.SameDeps | MyReact.js:43 | the `every` test: each position of the new array is `===` to the old array's element at that position, or to `undefined` past its end; lengths are not compared |
| HookEngine.SameDepsIff | MyReact.js:42-44 | `every` accepts a new array exactly when it is a prefix of the old one, or the old one followed by `undefined`s only; length is not compared |
| HookEngine.Reruns | MyReact.js:30-46 | the effect re-runs when no array is given or none is stored; it does not re-run when the stored array is the one given |
| HookEngine.EffectHook | MyReact.js:28-55 | on a re-run, the stored cleanup (if any) then the callback are appended to the trace, and the slot becomes `{deps, cleanUp}`; otherwise the store and trace are untouched; the cursor advances by exactly one either way |
| HookEngine.FirstRunAlwaysRuns | MyReact.js:33-44 | with no prior record or no prior dependency array, the effect runs |
| HookEngine.ChangedIff | MyReact.js:42-44 | with a prior array, the deps count as changed exactly when some position of the new array differs from the old one at that position |
| HookEngine.CleanupBeforeCallback | MyReact.js:46-51 | a re-run adds exactly the stored cleanup and then the callback to the trace, the cleanup strictly first |
| HookEngine.UnchangedDepsSkip | MyReact.js:42-54 | with a matching array (a shorter one included), neither callback nor cleanup runs, the store is unchanged and only the cursor moves |
| HookEngine.CallSite | MyReact.js:4-55 | one hook call touches only the slot under the cursor and leaves it in the shape its site expects; a state call returns a setter for that slot and the value stored in it |
| HookEngine.CallSiteAddsNoOutput | MyReact.js:46-51 | a hook call adds only cleanups and callbacks to the trace, never an output step |
| HookEngine.Pass | MyReact.js:59 | running the remaining sites advances the cursor by their number, returns one result per site and keeps the earlier results |
| HookEngine.PassFrame | MyReact.js:4-55 | a pass changes no slot before its first index or after its last one |
| HookEngine.PassExtendsTrace | MyReact.js:46-51 | a pass only appends events, and none of them is an output step |
| HookEngine.PassKeepsAligned | MyReact.js:4-55 | after a pass, every slot it visited has the shape its site expects |
| HookEngine.PassStateResults | MyReact.js:7-25 | each state hook of a pass returns a setter for its own slot and leaves the returned value there; a truthy value found in that slot is the value returned; an absent or falsy one gives the initial value computed from what the earlier hooks returned |
| HookEngine.PassUntil | MyReact.js:59 | the hook calls of a pass up to a given site advance the cursor by one per call, keep the earlier results, only append to the trace, and leave every slot they have not reached as it was and fit for its site |
| HookEngine.PassSplit | MyReact.js:59 | a pass is its hook calls up to any site followed by the pass over the remaining sites |
| HookEngine.PassUntilNext | MyReact.js:59 | the hook calls up to site `j + 1` are the calls up to site `j` followed by the one call of site `j` |
| HookEngine.PassEffectCall | MyReact.js:28-55 | effect hook `j` of a pass, judged against the record its slot held when the pass began: with a matching array the call only moves the cursor, so neither cleanup nor callback runs; otherwise it appends exactly the stored cleanup (if any) and then the callback, and writes the new `{deps, cleanUp}` |
| HookEngine.RenderPass | MyReact.js:58-63 | a render visits every site once, resets the cursor to 0 whatever it was, and ends the trace with the output step over what the hooks returned |
| HookEngine.RenderKeepsAligned | MyReact.js:58-63 | a render leaves the store fit for the same component again |
| HookEngine.RenderExtendsTrace | MyReact.js:58-63 | a render only appends to the trace, and its one output step is the last event it adds |
| HookEngine.RenderStateSlot | MyReact.js:4-26 | each state hook of a render hands back a callable setter for slot `cursor + j` holding the returned value; a truthy stored value survives the render, and an absent or falsy one is replaced by the initial value |
| HookEngine.RenderEffectSlot | MyReact.js:28-63 | each effect hook of a render, in any component, sits between the earlier hooks' events and the later ones: with an array matching its slot's record it adds no event and leaves the slot alone; otherwise it adds exactly the stored cleanup (if any) then the callback, and the slot ends the render holding the new `{deps, cleanUp}` |
| HookEngine.RenderAfterHook | MyReact.js:58-63 | the hook calls of a render after hook `j` keep hook `j`'s result, the events logged so far and hook `j`'s slot |
| HookEngine.RenderEffectSkipped | MyReact.js:42-54 | an effect hook of a render whose array matches its slot's record adds no event to the trace, and its slot ends the render unchanged |
| HookEngine.RenderEffectRan | MyReact.js:46-51 | an effect hook of a render whose array does not match (or that has no record, or passes no array) adds exactly the stored cleanup (if any) and then the callback, and its slot ends the render holding the new `{deps, cleanUp}` |
| HookEngine.SetStateKeepsAligned | MyReact.js:13-21 | calling a setter keeps the store fit for the component |
| MyReact.Runtime.constructor | MyReact.js:1-2 | the store starts empty and the cursor at 0 |
| MyReact.Runtime.UseState | MyReact.js:4-26 | updates `hooks` and `currentHook` in place to exactly the state `StateHook` computes, and returns its value and setter |
| MyReact.Runtime.SetState | MyReact.js:14-21 | updates `hooks` in place to exactly the state `SetState` computes; the cursor and the length are unchanged, so the runtime stays valid |
| MyReact.Runtime.UseEffect | MyReact.js:28-55 | updates `hooks`, `currentHook` and the log in place to exactly the state `EffectHook` computes |
| MyReact.Runtime.CallHook | MyReact.js:4-55 | the one hook call a component makes at a site updates the fields in place to exactly the state `CallSite` computes and returns its result |
| MyReact.Runtime.Render | MyReact.js:58-63 | runs the component's hooks in a loop, then the output step, then sets the cursor to 0; the new state and the returned results are exactly `RenderPass`'s |
| HookProperties.FixedDepsRecordKept | MyReact.js:42-54 | in any component, once a fixed-array effect's record is stored, no number of later renders replaces it, and in each of them the effect hook adds no event: neither its cleanup nor its callback runs |
| HookProperties.FixedDepsRunOnceAnywhere | MyReact.js:28-55 | in any component, a fixed-array effect (`[]` included) adds exactly its callback on the first render, with no cleanup before it, and stores `{deps, cleanUp}`; in each of the next `n` renders it adds no event and the record stays |
| HookProperties.NoDepsRunsEveryRender | MyReact.js:28-55 | in any component, an effect without a dependency array adds, on every render, exactly the cleanup its slot held (if any) and then its callback, and stores the cleanup that run returned |
| HookProperties.FixedDepsFirstRender | MyReact.js:33-51 | for a component whose only hook is that effect: the first render of an effect with a dependency array runs the callback with no cleanup before it |
| HookProperties.FixedDepsLaterRender | MyReact.js:42-54 | for a component whose only hook is that effect: a later render with the same array runs nothing but the output step |
| HookProperties.FixedDepsQuiet | MyReact.js:42-54 | for a component whose only hook is that effect: any number of further renders with the same array add only output steps |
| HookProperties.FixedDepsRunOnce | MyReact.js:28-55 | for a component whose only hook is that effect: with the same array (`[]` included) on every render, `n + 1` renders run the callback exactly once and never a cleanup |
| HookProperties.NoDepsRender | MyReact.js:28-55 | for a component whose only hook is that effect: without a dependency array, every later render runs the stored cleanup, then the callback, then the output step |
| HookProperties.NoDepsRepeats | MyReact.js:28-55 | for a component whose only hook is that effect: that cleanup-callback-output block repeats on every further render |
| HookProperties.NoDepsAlwaysRuns | MyReact.js:28-55 | for a component whose only hook is that effect: the effect runs on every one of `n + 1` renders, on the first with nothing to clean up |
| HookProperties.FalsyStateIsReinitialised | MyReact.js:7 | `useState(5)` over a stored `0` returns `5`: a falsy stored value does not survive a render |
| HookProperties.LengthIsNotCompared | MyReact.js:43 | `[1]` after `[1, 2]` and `[1, undefined]` after `[1]` count as unchanged; `[1, 2]` after `[1]` as changed |
| Demo.ExampleComponent | index.js:3-25 | the component has two state hooks and then one effect hook with a dependency array |
| Demo.ExampleComponentHooks | index.js:4-16 | the state hooks start at `0` and `"foo"`; the effect's array, callback and cleanup all see `[count, text]` |
| Demo.FirstRender | index.js:28 | the first render stores `0` and `"foo"` and logs "effect 0 foo" then the output step |
| Demo.LaterRender | index.js:3-25 | any later render re-runs the effect, cleanup first, exactly when the `[count, text]` it sees differs from the pair it last ran with |
| Demo.LaterPass | index.js:4-16 | the three hook calls of a later render return the stored `count`, the stored `text` (or `"foo"` for a falsy one), and re-run the effect with its cleanup first exactly when that pair differs from the pair the effect last ran with |
| Demo.SetCount | index.js:20-22 | `click` and `noop` store a plain number in slot 0 and change nothing else |
| Demo.SetText | index.js:21 | `type` stores a plain string in slot 1 and changes nothing else |
| Demo.RenderExample | index.js:31 | one render of the example on a runtime in a known state returns the new `count`, `text` and setters; it logs only the output step when `[count, text]` is unchanged, and otherwise the old pair's cleanup, the new pair's effect, then the output step |
| Demo.RunExample | index.js:27-40 | the script logs, in order: effect 0 foo; cleanup 0 foo, effect 1 foo; cleanup 1 foo, effect 1 bar; nothing after the no-op; cleanup 1 bar, effect 2 bar. Each render is followed by its output step |

## Left out

- Console output and the bodies of effect callbacks and cleanups. They are arbitrary external side effects, so they are opaque `Closure` tokens whose running is recorded as an event in the trace.
- JavaScript closures over component scope (`count` captured by `click`). A site's arguments are functions of the values returned earlier in the same pass. The interaction object is the list of hook results, and `Demo` plays the role of `click`, `type` and `noop`.
- The `TypeError` raised when an effect that had a dependency array is called without one (`depArray.every` on `undefined`). This is excluded by the precondition `EffectFits`.
- A truthy non-function value returned by a callback, which would crash when called as a cleanup. The cleanup is an `Option<Closure>`, and every falsy non-function result is `None`.
- Callbacks that throw, which abort a render part-way. Every callback here returns.
- Cross-kind misreads, where a state hook meets an effect record or the reverse. These break the call-order rule, so they are excluded by the preconditions `StateFits`, `EffectFits`, `SetterFits` and `Aligned`.
- Components whose number, kind or order of hook calls changes between renders, and effects that call hooks. Both break the call-order rule.
- Function values stored as state. `Value` has no function case, so a setter's argument is either a plain value or a `Functional` update.
- For a general component, the events of each effect hook are proved exactly for each render, and its record over any number of renders. The whole trace of many renders is proved only for a component whose only hook is that effect, because otherwise it also holds the other hooks' events.
- Aliasing of the dependency array. `MyReact.js` stores the caller's own array object (MyReact.js:51) and later reads its elements (MyReact.js:43). A caller that mutates that array and passes it again compares it with itself, so the effect does not re-run. The model stores the array's elements as an immutable `seq<Value>`, so there the mutated array differs from the stored one and the effect re-runs.
- Setters called during a render, from a callback, a cleanup or `Comp.render()`. `MyReact.js` writes the slot at once (MyReact.js:17, 19), in the middle of the pass. In the model callbacks, cleanups and the output step are opaque tokens that cannot call a setter, and `Render` runs without interruption, so setters are called only between renders.
- Floating-point numbers, `NaN !== NaN` and `+0 === -0`. Numbers are integers.
- The module export wiring (MyReact.js:66-70).
