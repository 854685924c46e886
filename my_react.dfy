/** MyReact.js as it runs: the module-level array `hooks` and counter `currentHook`
    become the fields of one `Runtime` object, and `useState`, the setter closure,
    `useEffect` and `MyReact.render` become methods that update them in place. Each
    method is proved to leave the state that the matching `HookEngine` function computes. */
module MyReact {
  import opened JsValues
  import opened HookEngine

  class Runtime {
    var hooks: seq<Slot>
    var currentHook: nat
    var trace: seq<Event>   // the effect callbacks, cleanups and output steps run so far, in order

    /** The state as the pure engine sees it. */
    function State(): Engine
      reads this
    {
      Engine(hooks, currentHook, trace)
    }

    ghost predicate Valid()
      reads this
    {
      HookEngine.Valid(State())
    }

    /** Module load: an empty store and the cursor at 0. */
    constructor ()
      ensures Valid()
      ensures hooks == [] && currentHook == 0 && trace == []
    {
      hooks := [];
      currentHook := 0;
      trace := [];
    }

    /** `useState(initialValue)`. */
    method UseState(initialValue: Value) returns (value: Value, setter: Setter)
      requires Valid() && StateFits(State())
      modifies this
      ensures Valid()
      ensures (State(), value, setter) == StateHook(old(State()), initialValue)
      ensures currentHook == old(currentHook) + 1 && setter == Setter(old(currentHook))
    {
      var stored := if currentHook < |hooks| then hooks[currentHook].value else Undefined;
      var kept := if Truthy(stored) then stored else initialValue;
      if currentHook < |hooks| {
        hooks := hooks[currentHook := StateSlot(kept)];
      } else {
        hooks := hooks + [StateSlot(kept)];
      }
      setter := Setter(currentHook);
      value := kept;
      currentHook := currentHook + 1;
    }

    /** Calling the setter returned by `useState` with `u`. */
    method SetState(setter: Setter, u: Update)
      requires SetterFits(State(), setter)
      modifies this
      ensures State() == HookEngine.SetState(old(State()), setter, u)
      ensures currentHook == old(currentHook) && |hooks| == |old(hooks)|
      ensures Valid() <==> old(Valid())
    {
      var i := setter.hookIndex;
      match u
      case Functional(f) =>
        hooks := hooks[i := StateSlot(f(hooks[i].value))];
      case Plain(next) =>
        hooks := hooks[i := StateSlot(next)];
    }

    /** `useEffect(callback, deps)`; `effect` names the callback and what it returns. */
    method UseEffect(effect: Effect, deps: Option<seq<Value>>)
      requires Valid() && EffectFits(State(), deps)
      modifies this
      ensures Valid()
      ensures State() == EffectHook(old(State()), effect, deps)
      ensures currentHook == old(currentHook) + 1
    {
      var hasNoDeps := deps.None?;
      var prevDeps := if currentHook < |hooks| then hooks[currentHook].deps else None;
      var prevCleanUp := if currentHook < |hooks| then hooks[currentHook].cleanUp else None;
      var hasChangedDeps := if prevDeps.Some? then !SameDeps(deps.value, prevDeps.value) else true;
      if hasNoDeps || hasChangedDeps {
        if prevCleanUp.Some? {
          trace := trace + [CleanupRan(prevCleanUp.value)];
        }
        trace := trace + [CallbackRan(effect.callback)];
        if currentHook < |hooks| {
          hooks := hooks[currentHook := EffectSlot(deps, effect.cleanUp)];
        } else {
          hooks := hooks + [EffectSlot(deps, effect.cleanUp)];
        }
      }
      currentHook := currentHook + 1;
    }

    /** The hook call a component makes at one site, with the values the earlier hooks
        of the render returned. */
    method CallHook(site: Site, seen: seq<Value>) returns (res: HookResult)
      requires Valid() && (currentHook < |hooks| ==> SiteFits(hooks[currentHook], site))
      modifies this
      ensures Valid()
      ensures (State(), res) == CallSite(old(State()), site, seen)
    {
      match site {
        case StateSite(initialValue) =>
          var value, setter := UseState(initialValue(seen));
          res := StateResult(value, setter);
        case EffectSite(effect, deps) =>
          UseEffect(effect(seen), DepsOf(deps, seen));
          res := EffectResult;
      }
    }

    /** `MyReact.render(Component)`: one call of every hook site in order, the output
        step, then the cursor back to 0; returns what the hooks returned. */
    method Render(c: Component) returns (results: seq<HookResult>)
      requires Valid() && Aligned(hooks, currentHook, c.sites)
      modifies this
      ensures Valid() && currentHook == 0
      ensures (State(), results) == RenderPass(old(State()), c)
    {
      assert c.sites[0..] == c.sites;
      results := [];
      while |results| < |c.sites|
        invariant Valid() && |results| <= |c.sites|
        invariant Aligned(hooks, currentHook, c.sites[|results|..])
        invariant Pass(State(), c.sites, results) == Pass(old(State()), c.sites, [])
        decreases |c.sites| - |results|
      {
        ghost var before := State();
        ghost var got := results;
        var res := CallHook(c.sites[|results|], Values(results));
        results := results + [res];
        assert Valid() && Aligned(hooks, currentHook, c.sites[|results|..])
            && Pass(State(), c.sites, results) == Pass(before, c.sites, got) by {
          PassStep(before, c.sites, got, State(), res);
        }
      }
      trace := trace + [Output(Values(results))];
      currentHook := 0;
    }
  }
}
