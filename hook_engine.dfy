/** The hook bookkeeping engine of MyReact.js as pure functions over its state: the slot
    store `hooks`, the cursor `currentHook`, and a trace of the externally visible events
    (effect callbacks, cleanups and the component's output step) in the order they happen.
    The class `MyReact.Runtime` updates the same state in place and is proved against
    these functions. */
module HookEngine {
  import opened JsValues

  datatype Option<T> = None | Some(value: T)

  /** An opaque closure: the code it runs, named by `code`, and the values it captured. */
  datatype Closure = Closure(code: string, env: seq<Value>)

  /** An effect callback, and what it returns when it is called: a cleanup function,
      or `None` for any falsy non-function result (`undefined` included). */
  datatype Effect = Effect(callback: Closure, cleanUp: Option<Closure>)

  /** One entry of the slot store: a state hook's value, or an effect hook's
      `{deps, cleanUp}` record (`deps` is `None` when no dependency array was given). */
  datatype Slot =
    | StateSlot(value: Value)
    | EffectSlot(deps: Option<seq<Value>>, cleanUp: Option<Closure>)

  /** An externally visible event: an effect callback ran, a cleanup ran, or the
      component's output step ran with the values its hooks returned. */
  datatype Event =
    | CallbackRan(callback: Closure)
    | CleanupRan(cleanUp: Closure)
    | Output(values: seq<Value>)

  /** The module state: the slot store, the cursor, and the events so far. */
  datatype Engine = Engine(store: seq<Slot>, cursor: nat, trace: seq<Event>)

  /** The cursor never points past the end of the store, so every write is an
      update in place or an append (the JavaScript array never has holes). */
  predicate Valid(e: Engine) {
    e.cursor <= |e.store|
  }

  /** A state setter: the closure of MyReact.js, reduced to the slot index it captured. */
  datatype Setter = Setter(hookIndex: nat)

  /** The argument of a setter: a plain value, or a function of the current value. */
  datatype Update = Plain(next: Value) | Functional(f: Value -> Value)

  /** JavaScript `hooks[i] = slot` with `i <= hooks.length`. */
  function Write(store: seq<Slot>, i: nat, slot: Slot): (r: seq<Slot>)
    requires i <= |store|
    ensures |r| == if i < |store| then |store| else |store| + 1
    ensures r[i] == slot
    ensures forall j :: 0 <= j < |store| && j != i ==> r[j] == store[j]
  {
    if i < |store| then store[i := slot] else store + [slot]
  }

  /** JavaScript `hooks[i]` read as a state value: `undefined` past the end. */
  function Current(store: seq<Slot>, i: nat): Value
    requires i < |store| ==> store[i].StateSlot?
  {
    if i < |store| then store[i].value else Undefined
  }

  // ---------------------------------------------------------------------------
  // useState

  /** The slot under the cursor can be used by a state hook. */
  predicate StateFits(e: Engine) {
    e.cursor < |e.store| ==> e.store[e.cursor].StateSlot?
  }

  /** `useState(initialValue)`: keep a truthy stored value, otherwise store
      `initialValue`; return the stored value and a setter for this slot; advance
      the cursor by one. */
  function StateHook(e: Engine, initialValue: Value): (r: (Engine, Value, Setter))
    requires Valid(e) && StateFits(e)
    ensures Valid(r.0)
    ensures r.0.cursor == e.cursor + 1
    ensures r.2 == Setter(e.cursor)
    ensures e.cursor < |e.store| && Truthy(e.store[e.cursor].value) ==> r.1 == e.store[e.cursor].value
    ensures e.cursor == |e.store| || !Truthy(e.store[e.cursor].value) ==> r.1 == initialValue
    ensures r.0.store[e.cursor] == StateSlot(r.1)
    ensures |r.0.store| == if e.cursor < |e.store| then |e.store| else |e.store| + 1
    ensures forall j :: 0 <= j < |e.store| && j != e.cursor ==> r.0.store[j] == e.store[j]
    ensures r.0.trace == e.trace
  {
    var stored := Current(e.store, e.cursor);
    var kept := if Truthy(stored) then stored else initialValue;   // `hooks[currentHook] || initialValue`
    (Engine(Write(e.store, e.cursor, StateSlot(kept)), e.cursor + 1, e.trace), kept, Setter(e.cursor))
  }

  /** A setter may be called: its slot exists and holds a state value. */
  predicate SetterFits(e: Engine, s: Setter) {
    s.hookIndex < |e.store| && e.store[s.hookIndex].StateSlot?
  }

  /** Calling a setter: a function is applied to the slot's current value, any other
      value is stored as it is. Only the captured slot changes; the cursor does not move. */
  function SetState(e: Engine, s: Setter, u: Update): (r: Engine)
    requires SetterFits(e, s)
    ensures r.cursor == e.cursor && r.trace == e.trace
    ensures |r.store| == |e.store|
    ensures u.Plain? ==> r.store[s.hookIndex] == StateSlot(u.next)
    ensures u.Functional? ==> r.store[s.hookIndex] == StateSlot(u.f(e.store[s.hookIndex].value))
    ensures forall j :: 0 <= j < |e.store| && j != s.hookIndex ==> r.store[j] == e.store[j]
  {
    var next := match u
      case Functional(f) => f(e.store[s.hookIndex].value)
      case Plain(v) => v;
    e.(store := e.store[s.hookIndex := StateSlot(next)])
  }

  /** Two functional updates in a row compose against the live value, not a value
      seen at render time: `f` then `g` leaves `g(f(v))`. */
  lemma FunctionalUpdatesCompose(e: Engine, s: Setter, f: Value -> Value, g: Value -> Value)
    requires SetterFits(e, s)
    ensures SetterFits(SetState(e, s, Functional(f)), s)
    ensures SetState(SetState(e, s, Functional(f)), s, Functional(g)).store[s.hookIndex]
         == StateSlot(g(f(e.store[s.hookIndex].value)))
  {
  }

  // ---------------------------------------------------------------------------
  // useEffect

  /** JavaScript `prev[i]`: `undefined` past the end. */
  function At(prev: seq<Value>, i: nat): Value {
    if i < |prev| then prev[i] else Undefined
  }

  /** `next.every((el, i) => el === prev[i])`: only the positions of the new array
      are compared, and the lengths are not. */
  predicate SameDeps(next: seq<Value>, prev: seq<Value>)
  {
    forall i :: 0 <= i < |next| ==> StrictEquals(next[i], At(prev, i))
  }

  /** What `every` accepts: a new array no longer than the old one must be a prefix of
      it; a longer one must extend the old one with `undefined` only. */
  lemma SameDepsIff(next: seq<Value>, prev: seq<Value>)
    ensures SameDeps(next, prev) <==>
      if |next| <= |prev| then next == prev[..|next|]
      else next[..|prev|] == prev && forall i :: |prev| <= i < |next| ==> next[i] == Undefined
  {
  }

  /** The slot under the cursor, if any, is an effect record. */
  predicate EffectAt(e: Engine) {
    e.cursor < |e.store| ==> e.store[e.cursor].EffectSlot?
  }

  /** The slot under the cursor can be used by an effect hook called with `deps`:
      it is an effect record, and it has no dependency array when `deps` has none
      (otherwise MyReact.js calls `every` on `undefined`). */
  predicate EffectFits(e: Engine, deps: Option<seq<Value>>) {
    EffectAt(e) && (deps.None? && e.cursor < |e.store| ==> e.store[e.cursor].deps.None?)
  }

  /** The previous dependency array at the cursor, if any. */
  function PrevDeps(e: Engine): Option<seq<Value>>
    requires EffectAt(e)
  {
    if e.cursor < |e.store| then e.store[e.cursor].deps else None
  }

  /** The previous cleanup at the cursor, if any. */
  function PrevCleanUp(e: Engine): Option<Closure>
    requires EffectAt(e)
  {
    if e.cursor < |e.store| then e.store[e.cursor].cleanUp else None
  }

  /** The effect re-runs: no dependency array was given, there is no previous one,
      or some position of the new array differs from the old one. */
  predicate Reruns(e: Engine, deps: Option<seq<Value>>)
    requires EffectFits(e, deps)
    ensures deps.None? || PrevDeps(e).None? ==> Reruns(e, deps)
    ensures deps.Some? && PrevDeps(e) == deps ==> !Reruns(e, deps)
  {
    var prevDeps := PrevDeps(e);
    var hasNoDeps := deps.None?;
    var hasChangedDeps := if prevDeps.Some? then !SameDeps(deps.value, prevDeps.value) else true;
    hasNoDeps || hasChangedDeps
  }

  /** The events of a re-run: the previous cleanup (if any), then the callback. */
  function RerunEvents(prevCleanUp: Option<Closure>, callback: Closure): seq<Event> {
    (if prevCleanUp.Some? then [CleanupRan(prevCleanUp.value)] else []) + [CallbackRan(callback)]
  }

  /** `useEffect(callback, deps)`: on a re-run, run the previous cleanup, then the
      callback, and store `{deps, cleanUp}`; otherwise leave the slot and the trace alone.
      Either way the cursor advances by one. */
  function EffectHook(e: Engine, effect: Effect, deps: Option<seq<Value>>): (r: Engine)
    requires Valid(e) && EffectFits(e, deps)
    ensures Valid(r)
    ensures r.cursor == e.cursor + 1
    ensures Reruns(e, deps) ==>
      && r.store[e.cursor] == EffectSlot(deps, effect.cleanUp)
      && |r.store| == (if e.cursor < |e.store| then |e.store| else |e.store| + 1)
      && (forall j :: 0 <= j < |e.store| && j != e.cursor ==> r.store[j] == e.store[j])
      && r.trace == e.trace + RerunEvents(PrevCleanUp(e), effect.callback)
    ensures !Reruns(e, deps) ==> r.store == e.store && r.trace == e.trace
  {
    if Reruns(e, deps) then
      var ran := RerunEvents(PrevCleanUp(e), effect.callback);
      Engine(Write(e.store, e.cursor, EffectSlot(deps, effect.cleanUp)), e.cursor + 1, e.trace + ran)
    else
      e.(cursor := e.cursor + 1)
  }

  /** When there is no prior record, or no prior dependency array, the effect runs. */
  lemma FirstRunAlwaysRuns(e: Engine, deps: Option<seq<Value>>)
    requires EffectFits(e, deps)
    requires e.cursor < |e.store| ==> e.store[e.cursor].deps.None?
    ensures Reruns(e, deps)
  {
  }

  /** Dependencies are judged changed exactly when some position of the new array
      differs from the same position of the old one (`undefined` past its end). */
  lemma ChangedIff(e: Engine, next: seq<Value>, prev: seq<Value>)
    requires EffectFits(e, Some(next)) && e.cursor < |e.store| && e.store[e.cursor].deps == Some(prev)
    ensures Reruns(e, Some(next)) <==> exists i :: 0 <= i < |next| && next[i] != At(prev, i)
  {
  }

  /** A re-run with a stored cleanup runs that cleanup strictly before the callback,
      and nothing else. */
  lemma CleanupBeforeCallback(e: Engine, effect: Effect, deps: Option<seq<Value>>)
    requires Valid(e) && EffectFits(e, deps) && Reruns(e, deps)
    requires e.cursor < |e.store| && e.store[e.cursor].cleanUp.Some?
    ensures EffectHook(e, effect, deps).trace
         == e.trace + [CleanupRan(e.store[e.cursor].cleanUp.value), CallbackRan(effect.callback)]
  {
  }

  /** With a new dependency array that matches the old one position by position
      (a shorter matching array included), neither the callback nor the cleanup runs
      and the store is untouched; only the cursor moves. */
  lemma UnchangedDepsSkip(e: Engine, effect: Effect, next: seq<Value>, prev: seq<Value>)
    requires Valid(e) && EffectFits(e, Some(next))
    requires e.cursor < |e.store| && e.store[e.cursor].deps == Some(prev)
    requires |next| <= |prev| && next == prev[..|next|]
    ensures EffectHook(e, effect, Some(next)) == e.(cursor := e.cursor + 1)
  {
    SameDepsIff(next, prev);
  }

  // ---------------------------------------------------------------------------
  // A component and one render pass

  /** One hook call site of a component. The kind of hook and whether it passes a
      dependency array are fixed per position, which is MyReact.js's call-order rule;
      the arguments are computed from the values the earlier hooks of the same pass
      returned. */
  datatype Site =
    | StateSite(initialValue: seq<Value> -> Value)
    | EffectSite(effect: seq<Value> -> Effect, deps: Option<seq<Value> -> seq<Value>>)

  /** A component: its hook call sites in call order. */
  datatype Component = Component(sites: seq<Site>)

  /** What one hook call returned: the value and setter of `useState`, or nothing. */
  datatype HookResult = StateResult(value: Value, setter: Setter) | EffectResult

  /** The values the hooks returned (`useEffect` returns `undefined`). */
  function Values(rs: seq<HookResult>): (vs: seq<Value>)
    ensures |vs| == |rs|
    ensures forall i :: 0 <= i < |rs| ==> vs[i] == if rs[i].StateResult? then rs[i].value else Undefined
  {
    seq(|rs|, i requires 0 <= i < |rs| => if rs[i].StateResult? then rs[i].value else Undefined)
  }

  /** The dependency array a site passes, given the values seen so far. */
  function DepsOf(deps: Option<seq<Value> -> seq<Value>>, seen: seq<Value>): Option<seq<Value>> {
    if deps.Some? then Some(deps.value(seen)) else None
  }

  /** A slot written by a site's own earlier calls has the shape that site expects. */
  predicate SiteFits(slot: Slot, site: Site) {
    match site
    case StateSite(_) => slot.StateSlot?
    case EffectSite(_, deps) => slot.EffectSlot? && (deps.None? ==> slot.deps.None?)
  }

  /** Call-order stability: the sites, called from slot `c` on, meet slots of their own kind. */
  predicate Aligned(store: seq<Slot>, c: nat, sites: seq<Site>) {
    forall i :: c <= i < |store| && i - c < |sites| ==> SiteFits(store[i], sites[i - c])
  }

  /** One hook call: the site's hook applied at the cursor. */
  function CallSite(e: Engine, site: Site, seen: seq<Value>): (r: (Engine, HookResult))
    requires Valid(e) && (e.cursor < |e.store| ==> SiteFits(e.store[e.cursor], site))
    ensures Valid(r.0) && r.0.cursor == e.cursor + 1
    ensures |r.0.store| == if e.cursor < |e.store| then |e.store| else |e.store| + 1
    ensures forall j :: 0 <= j < |e.store| && j != e.cursor ==> r.0.store[j] == e.store[j]
    ensures SiteFits(r.0.store[e.cursor], site)
    ensures site.StateSite? <==> r.1.StateResult?
    ensures r.1.StateResult? ==> r.1.setter == Setter(e.cursor) && r.0.store[e.cursor] == StateSlot(r.1.value)
    ensures site.StateSite? && e.cursor < |e.store| && Truthy(e.store[e.cursor].value) ==> r.1.value == e.store[e.cursor].value
    ensures e.trace <= r.0.trace
  {
    match site
    case StateSite(initialValue) =>
      var (e', v, setter) := StateHook(e, initialValue(seen));
      (e', StateResult(v, setter))
    case EffectSite(effect, deps) =>
      (EffectHook(e, effect(seen), DepsOf(deps, seen)), EffectResult)
  }

  /** A hook call adds no output step to the trace, only cleanups and callbacks. */
  lemma CallSiteAddsNoOutput(e: Engine, site: Site, seen: seq<Value>)
    requires Valid(e) && (e.cursor < |e.store| ==> SiteFits(e.store[e.cursor], site))
    ensures forall ev :: ev in CallSite(e, site, seen).0.trace[|e.trace|..] ==> !ev.Output?
  {
  }

  /** The sites after the `k`-th stay aligned once the `k`-th has run. */
  lemma AlignedAfterCall(e: Engine, e': Engine, sites: seq<Site>, k: nat)
    requires Valid(e) && k < |sites| && Aligned(e.store, e.cursor, sites[k..])
    requires e'.cursor == e.cursor + 1
    requires |e'.store| == if e.cursor < |e.store| then |e.store| else |e.store| + 1
    requires forall j :: 0 <= j < |e.store| && j != e.cursor ==> e'.store[j] == e.store[j]
    ensures Aligned(e'.store, e'.cursor, sites[k + 1..])
  {
  }

  /** The hook calls of one pass, from site `|got|` on (`got` holds what the earlier
      sites returned): each site uses the next slot. */
  function Pass(e: Engine, sites: seq<Site>, got: seq<HookResult>): (r: (Engine, seq<HookResult>))
    requires Valid(e) && |got| <= |sites| && Aligned(e.store, e.cursor, sites[|got|..])
    decreases |sites| - |got|
    ensures Valid(r.0)
    ensures r.0.cursor == e.cursor + (|sites| - |got|)
    ensures |r.1| == |sites| && r.1[..|got|] == got
    ensures |r.0.store| >= |e.store|
  {
    if |got| == |sites| then
      (e, got)
    else
      var (e', res) := CallSite(e, sites[|got|], Values(got));
      AlignedAfterCall(e, e', sites, |got|);
      Pass(e', sites, got + [res])
  }

  /** One step of a pass: when the next site's hook call yields `(e', res)`, the pass
      continues from `e'` with `res` added to the results. */
  lemma PassStep(e: Engine, sites: seq<Site>, got: seq<HookResult>, e': Engine, res: HookResult)
    requires Valid(e) && |got| < |sites| && Aligned(e.store, e.cursor, sites[|got|..])
    requires CallSite(e, sites[|got|], Values(got)) == (e', res)
    ensures Valid(e') && Aligned(e'.store, e'.cursor, sites[|got| + 1..])
    ensures Pass(e, sites, got) == Pass(e', sites, got + [res])
  {
    AlignedAfterCall(e, e', sites, |got|);
  }

  /** A pass changes only the slots it visits: those before its first slot and
      those after its last one are untouched. */
  lemma {:induction false} PassFrame(e: Engine, sites: seq<Site>, got: seq<HookResult>)
    requires Valid(e) && |got| <= |sites| && Aligned(e.store, e.cursor, sites[|got|..])
    decreases |sites| - |got|
    ensures forall j :: 0 <= j < e.cursor ==> Pass(e, sites, got).0.store[j] == e.store[j]
    ensures forall j :: Pass(e, sites, got).0.cursor <= j < |e.store| ==> Pass(e, sites, got).0.store[j] == e.store[j]
  {
    if |got| < |sites| {
      var (e', res) := CallSite(e, sites[|got|], Values(got));
      AlignedAfterCall(e, e', sites, |got|);
      PassFrame(e', sites, got + [res]);
    }
  }

  /** A pass only appends to the trace. */
  lemma {:induction false} PassExtendsTrace(e: Engine, sites: seq<Site>, got: seq<HookResult>)
    requires Valid(e) && |got| <= |sites| && Aligned(e.store, e.cursor, sites[|got|..])
    decreases |sites| - |got|
    ensures e.trace <= Pass(e, sites, got).0.trace
    ensures forall ev :: ev in Pass(e, sites, got).0.trace[|e.trace|..] ==> !ev.Output?
  {
    if |got| < |sites| {
      var step := CallSite(e, sites[|got|], Values(got));
      PassStep(e, sites, got, step.0, step.1);
      PassExtendsTrace(step.0, sites, got + [step.1]);
      CallSiteAddsNoOutput(e, sites[|got|], Values(got));
      var t := Pass(e, sites, got).0.trace;
      assert t[|e.trace|..] == step.0.trace[|e.trace|..] + t[|step.0.trace|..];
    }
  }

  /** After a pass, every slot it visited has the shape its site expects, so the
      same component can be rendered again. */
  lemma {:induction false} PassKeepsAligned(e: Engine, sites: seq<Site>, got: seq<HookResult>)
    requires Valid(e) && |got| <= |sites| && Aligned(e.store, e.cursor, sites[|got|..])
    decreases |sites| - |got|
    ensures Aligned(Pass(e, sites, got).0.store, e.cursor, sites[|got|..])
  {
    if |got| < |sites| {
      var (e', res) := CallSite(e, sites[|got|], Values(got));
      AlignedAfterCall(e, e', sites, |got|);
      PassKeepsAligned(e', sites, got + [res]);
      PassFrame(e', sites, got + [res]);
      var r := Pass(e', sites, got + [res]).0;
      assert r == Pass(e, sites, got).0;
      forall i | e.cursor <= i < |r.store| && i - e.cursor < |sites[|got|..]|
        ensures SiteFits(r.store[i], sites[|got|..][i - e.cursor])
      {
        if i == e.cursor {
          assert r.store[i] == e'.store[i];
        } else {
          assert sites[|got|..][i - e.cursor] == sites[|got| + 1..][i - e'.cursor];
        }
      }
    }
  }

  /** Each state hook of a pass returns a setter for its own slot and leaves in that
      slot the value it returned; a truthy value found there is the value returned. */
  lemma {:induction false} PassStateResults(e: Engine, sites: seq<Site>, got: seq<HookResult>, j: nat)
    requires Valid(e) && |got| <= |sites| && Aligned(e.store, e.cursor, sites[|got|..])
    requires |got| <= j < |sites| && sites[j].StateSite?
    decreases |sites| - |got|
    ensures var (r, rs) := Pass(e, sites, got);
      var slot := e.cursor + (j - |got|);
      && rs[j].StateResult?
      && rs[j].setter == Setter(slot)
      && r.store[slot] == StateSlot(rs[j].value)
      && (slot < |e.store| && Truthy(e.store[slot].value) ==> rs[j].value == e.store[slot].value)
      && (slot < |e.store| ==> e.store[slot].StateSlot?)
      && (slot >= |e.store| || !Truthy(e.store[slot].value) ==> rs[j].value == sites[j].initialValue(Values(rs[..j])))
  {
    var (e', res) := CallSite(e, sites[|got|], Values(got));
    PassStep(e, sites, got, e', res);
    var rest := Pass(e', sites, got + [res]);
    if j == |got| {
      PassFrame(e', sites, got + [res]);
      assert rest.1[..|got| + 1] == got + [res];
      assert rest.1[j] == res;
      assert rest.1[..j] == got;
    } else {
      PassStateResults(e', sites, got + [res], j);
      assert e.cursor + (j - |got|) > e.cursor;
    }
  }

  /** The events hook `j` adds to the trace when `c` is rendered from `e`: what its call
      appends after the events of the hooks before it. */
  function HookEvents(e: Engine, c: Component, j: nat): (r: seq<Event>)
    requires Valid(e) && Aligned(e.store, e.cursor, c.sites) && j < |c.sites|
    ensures PassUntil(e, c.sites, [], j).0.trace + r == PassUntil(e, c.sites, [], j + 1).0.trace
  {
    assert c.sites[0..] == c.sites;
    PassUntilNext(e, c.sites, [], j);
    var mid := PassUntil(e, c.sites, [], j);
    var next := PassUntil(e, c.sites, [], j + 1);
    assert mid.0.trace <= next.0.trace;
    next.0.trace[|mid.0.trace|..]
  }

  /** The record an effect site finds in its slot keeps the effect from re-running:
      the slot exists, holds a dependency array, and the array the site passes
      matches it position by position. */
  predicate Matches(store: seq<Slot>, slot: nat, deps: Option<seq<Value>>) {
    && slot < |store| && store[slot].EffectSlot? && store[slot].deps.Some?
    && deps.Some? && SameDeps(deps.value, store[slot].deps.value)
  }

  /** The cleanup stored in slot `slot`, if any. */
  function CleanUpAt(store: seq<Slot>, slot: nat): Option<Closure> {
    if slot < |store| && store[slot].EffectSlot? then store[slot].cleanUp else None
  }

  /** The hook calls of a pass from site `|got|` up to (not including) site `j`: the
      state just before site `j` is called, and the results so far. */
  function PassUntil(e: Engine, sites: seq<Site>, got: seq<HookResult>, j: nat): (r: (Engine, seq<HookResult>))
    requires Valid(e) && |got| <= j <= |sites| && Aligned(e.store, e.cursor, sites[|got|..])
    decreases j - |got|
    ensures Valid(r.0) && r.0.cursor == e.cursor + (j - |got|)
    ensures |r.1| == j && r.1[..|got|] == got
    ensures Aligned(r.0.store, r.0.cursor, sites[j..])
    ensures j < |sites| && r.0.cursor < |r.0.store| ==> SiteFits(r.0.store[r.0.cursor], sites[j])
    ensures |r.0.store| == if r.0.cursor <= |e.store| then |e.store| else r.0.cursor
    ensures forall i :: r.0.cursor <= i < |e.store| ==> r.0.store[i] == e.store[i]
    ensures e.trace <= r.0.trace
  {
    if |got| == j then
      (e, got)
    else
      var (e', res) := CallSite(e, sites[|got|], Values(got));
      AlignedAfterCall(e, e', sites, |got|);
      assert sites[|got|..][1..] == sites[|got| + 1..];
      PassUntil(e', sites, got + [res], j)
  }

  /** A pass is its hook calls up to site `j`, then the pass over the rest. */
  lemma {:induction false} PassSplit(e: Engine, sites: seq<Site>, got: seq<HookResult>, j: nat)
    requires Valid(e) && |got| <= j <= |sites| && Aligned(e.store, e.cursor, sites[|got|..])
    decreases j - |got|
    ensures Pass(e, sites, got) == Pass(PassUntil(e, sites, got, j).0, sites, PassUntil(e, sites, got, j).1)
  {
    if |got| < j {
      var step := CallSite(e, sites[|got|], Values(got));
      PassStep(e, sites, got, step.0, step.1);
      assert PassUntil(e, sites, got, j) == PassUntil(step.0, sites, got + [step.1], j);
      PassSplit(step.0, sites, got + [step.1], j);
    }
  }

  /** Calling site `j` on the state `PassUntil` leaves before it extends the pass to `j + 1`. */
  lemma {:induction false} PassUntilNext(e: Engine, sites: seq<Site>, got: seq<HookResult>, j: nat)
    requires Valid(e) && |got| <= j < |sites| && Aligned(e.store, e.cursor, sites[|got|..])
    decreases j - |got|
    ensures var mid := PassUntil(e, sites, got, j);
      var step := CallSite(mid.0, sites[j], Values(mid.1));
      PassUntil(e, sites, got, j + 1) == (step.0, mid.1 + [step.1])
  {
    if |got| < j {
      var step := CallSite(e, sites[|got|], Values(got));
      AlignedAfterCall(e, step.0, sites, |got|);
      assert PassUntil(e, sites, got, j) == PassUntil(step.0, sites, got + [step.1], j);
      assert PassUntil(e, sites, got, j + 1) == PassUntil(step.0, sites, got + [step.1], j + 1);
      PassUntilNext(step.0, sites, got + [step.1], j);
    } else {
      var step := CallSite(e, sites[j], Values(got));
      AlignedAfterCall(e, step.0, sites, j);
      assert PassUntil(step.0, sites, got + [step.1], j + 1) == (step.0, got + [step.1]);
    }
  }

  /** Effect hook `j` of a pass, called on the state the earlier hooks of the pass left,
      judged against the record its slot held when the pass began (earlier hooks use
      earlier slots): with a matching array the call only moves the cursor, so neither
      the cleanup nor the callback runs; otherwise it adds exactly the stored cleanup (if
      any) and then the callback, and writes the new `{deps, cleanUp}`. */
  lemma PassEffectCall(e: Engine, sites: seq<Site>, got: seq<HookResult>, j: nat)
    requires Valid(e) && |got| <= j < |sites| && Aligned(e.store, e.cursor, sites[|got|..])
    requires sites[j].EffectSite?
    ensures var mid := PassUntil(e, sites, got, j);
      var seen := Values(mid.1);
      var slot := e.cursor + (j - |got|);
      var deps := DepsOf(sites[j].deps, seen);
      var effect := sites[j].effect(seen);
      var step := CallSite(mid.0, sites[j], seen);
      && step.1 == EffectResult
      && (Matches(e.store, slot, deps) ==> step.0 == mid.0.(cursor := slot + 1))
      && (!Matches(e.store, slot, deps) ==>
            && step.0.store[slot] == EffectSlot(deps, effect.cleanUp)
            && step.0.trace == mid.0.trace + RerunEvents(CleanUpAt(e.store, slot), effect.callback))
  {
    var mid := PassUntil(e, sites, got, j);
    var seen := Values(mid.1);
    var slot := e.cursor + (j - |got|);
    var deps := DepsOf(sites[j].deps, seen);
    var effect := sites[j].effect(seen);
    assert CallSite(mid.0, sites[j], seen).0 == EffectHook(mid.0, effect, deps);
    assert Matches(mid.0.store, slot, deps) == Matches(e.store, slot, deps);
    assert PrevCleanUp(mid.0) == CleanUpAt(e.store, slot);
    assert Reruns(mid.0, deps) == !Matches(mid.0.store, slot, deps);
  }

  /** `MyReact.render(Component)`: run every hook of the component once, then its
      output step, then reset the cursor to 0; the hook results are the interaction
      object handed back to the caller. */
  function RenderPass(e: Engine, c: Component): (r: (Engine, seq<HookResult>))
    requires Valid(e) && Aligned(e.store, e.cursor, c.sites)
    ensures Valid(r.0) && r.0.cursor == 0
    ensures |r.1| == |c.sites|
    ensures |r.0.store| >= e.cursor + |c.sites| && |r.0.store| >= |e.store|
    ensures r.0.trace != [] && r.0.trace[|r.0.trace| - 1] == Output(Values(r.1))
  {
    assert c.sites[0..] == c.sites;
    var (e', got) := Pass(e, c.sites, []);
    (Engine(e'.store, 0, e'.trace + [Output(Values(got))]), got)
  }

  /** A render leaves the store aligned with the component it rendered, so that
      (from cursor 0, as after every render) it can be rendered again. */
  lemma RenderKeepsAligned(e: Engine, c: Component)
    requires Valid(e) && Aligned(e.store, e.cursor, c.sites)
    ensures Aligned(RenderPass(e, c).0.store, e.cursor, c.sites)
  {
    assert c.sites[0..] == c.sites;
    PassKeepsAligned(e, c.sites, []);
  }

  /** A render appends to the trace: the pass's events, then its output step. */
  lemma RenderExtendsTrace(e: Engine, c: Component)
    requires Valid(e) && Aligned(e.store, e.cursor, c.sites)
    ensures |RenderPass(e, c).0.trace| > |e.trace|
    ensures RenderPass(e, c).0.trace[..|e.trace|] == e.trace
    ensures forall i :: |e.trace| <= i < |RenderPass(e, c).0.trace| - 1 ==> !RenderPass(e, c).0.trace[i].Output?
  {
    assert c.sites[0..] == c.sites;
    PassExtendsTrace(e, c.sites, []);
  }

  /** Each state hook of a render hands back a setter for slot `cursor + j` that can be
      called, and the value it returned is the one stored there. A truthy stored value
      survives the render; a falsy one is replaced by the initial value. */
  lemma RenderStateSlot(e: Engine, c: Component, j: nat)
    requires Valid(e) && Aligned(e.store, e.cursor, c.sites)
    requires j < |c.sites| && c.sites[j].StateSite?
    ensures var (r, rs) := RenderPass(e, c);
      && rs[j].StateResult?
      && rs[j].setter == Setter(e.cursor + j)
      && SetterFits(r, rs[j].setter)
      && r.store[e.cursor + j] == StateSlot(rs[j].value)
      && (e.cursor + j < |e.store| && Truthy(e.store[e.cursor + j].value) ==> rs[j].value == e.store[e.cursor + j].value)
      && (e.cursor + j < |e.store| ==> e.store[e.cursor + j].StateSlot?)
      && (e.cursor + j >= |e.store| || !Truthy(e.store[e.cursor + j].value) ==>
            rs[j].value == c.sites[j].initialValue(Values(rs[..j])))
  {
    assert c.sites[0..] == c.sites;
    PassStateResults(e, c.sites, [], j);
  }

  /** Each effect hook `j` of a render, in any component. The render is the hook calls
      before it (`mid`), its own call (`next`), then the rest: its events sit between the
      earlier hooks' and the later hooks' and the output step. With an array matching
      the record its slot held, it adds no event and writes nothing; otherwise it adds
      exactly the stored cleanup (if any) and then the callback, and the slot ends the
      render holding the new `{deps, cleanUp}`. */
  lemma RenderEffectSlot(e: Engine, c: Component, j: nat)
    requires Valid(e) && Aligned(e.store, e.cursor, c.sites)
    requires j < |c.sites| && c.sites[j].EffectSite?
    ensures var mid := PassUntil(e, c.sites, [], j);
      var next := PassUntil(e, c.sites, [], j + 1);
      var r := RenderPass(e, c);
      var seen := Values(mid.1);
      var slot := e.cursor + j;
      var deps := DepsOf(c.sites[j].deps, seen);
      var effect := c.sites[j].effect(seen);
      && r.1[..j] == mid.1 && r.1[j] == EffectResult
      && e.trace <= mid.0.trace && next.0.trace <= r.0.trace
      && slot < |next.0.store| && slot < |r.0.store| && r.0.store[slot] == next.0.store[slot]
      && (Matches(e.store, slot, deps) ==> next.0.trace == mid.0.trace && next.0.store == mid.0.store)
      && (!Matches(e.store, slot, deps) ==>
            && next.0.store[slot] == EffectSlot(deps, effect.cleanUp)
            && next.0.trace == mid.0.trace + RerunEvents(CleanUpAt(e.store, slot), effect.callback))
  {
    assert c.sites[0..] == c.sites;
    var mid := PassUntil(e, c.sites, [], j);
    var next := PassUntil(e, c.sites, [], j + 1);
    var step := CallSite(mid.0, c.sites[j], Values(mid.1));
    assert next == (step.0, mid.1 + [step.1]) by {
      PassUntilNext(e, c.sites, [], j);
    }
    PassEffectCall(e, c.sites, [], j);
    RenderAfterHook(e, c, j);
    assert RenderPass(e, c).1[..j] == (mid.1 + [step.1])[..j] == mid.1;
  }

  /** The hook calls of a render after hook `j` keep what hook `j` left: the results so
      far, the trace so far, and slot `cursor + j`. */
  lemma RenderAfterHook(e: Engine, c: Component, j: nat)
    requires Valid(e) && Aligned(e.store, e.cursor, c.sites) && j < |c.sites|
    ensures var next := PassUntil(e, c.sites, [], j + 1);
      var r := RenderPass(e, c);
      && r.1[..j + 1] == next.1 && next.0.trace <= r.0.trace
      && e.cursor + j < |next.0.store| && e.cursor + j < |r.0.store|
      && r.0.store[e.cursor + j] == next.0.store[e.cursor + j]
  {
    assert c.sites[0..] == c.sites;
    var next := PassUntil(e, c.sites, [], j + 1);
    var p := Pass(next.0, c.sites, next.1);
    assert RenderPass(e, c) == (Engine(p.0.store, 0, p.0.trace + [Output(Values(p.1))]), p.1) by {
      PassSplit(e, c.sites, [], j + 1);
    }
    assert p.1[..j + 1] == next.1 && next.0.trace <= p.0.trace && p.0.store[e.cursor + j] == next.0.store[e.cursor + j] by {
      PassFrame(next.0, c.sites, next.1);
      PassExtendsTrace(next.0, c.sites, next.1);
    }
  }

  /** Effect hook `j` of a render whose array matches the record its slot held: it adds
      no event to the trace and the slot ends the render unchanged. */
  lemma RenderEffectSkipped(e: Engine, c: Component, j: nat)
    requires Valid(e) && Aligned(e.store, e.cursor, c.sites)
    requires j < |c.sites| && c.sites[j].EffectSite?
    requires Matches(e.store, e.cursor + j, DepsOf(c.sites[j].deps, Values(RenderPass(e, c).1[..j])))
    ensures HookEvents(e, c, j) == []
    ensures e.cursor + j < |RenderPass(e, c).0.store|
    ensures RenderPass(e, c).0.store[e.cursor + j] == e.store[e.cursor + j]
  {
    RenderEffectSlot(e, c, j);
  }

  /** Effect hook `j` of a render whose array does not match the record its slot held (or
      that has no record yet, or passes no array): it adds exactly the stored cleanup (if
      any) and then the callback, and the slot ends the render holding the new
      `{deps, cleanUp}`. */
  lemma RenderEffectRan(e: Engine, c: Component, j: nat)
    requires Valid(e) && Aligned(e.store, e.cursor, c.sites)
    requires j < |c.sites| && c.sites[j].EffectSite?
    requires !Matches(e.store, e.cursor + j, DepsOf(c.sites[j].deps, Values(RenderPass(e, c).1[..j])))
    ensures var seen := Values(RenderPass(e, c).1[..j]);
      var effect := c.sites[j].effect(seen);
      && HookEvents(e, c, j) == RerunEvents(CleanUpAt(e.store, e.cursor + j), effect.callback)
      && e.cursor + j < |RenderPass(e, c).0.store|
      && RenderPass(e, c).0.store[e.cursor + j] == EffectSlot(DepsOf(c.sites[j].deps, seen), effect.cleanUp)
  {
    RenderEffectSlot(e, c, j);
  }

  /** Calling a setter keeps the store aligned with the component. */
  lemma SetStateKeepsAligned(e: Engine, s: Setter, u: Update, c: Component)
    requires SetterFits(e, s) && Aligned(e.store, e.cursor, c.sites)
    ensures Aligned(SetState(e, s, u).store, e.cursor, c.sites)
  {
  }
}
