/** Properties of the engine over many renders. In any component, an effect with a
    fixed dependency array (the empty one included) runs on the first render and its
    record is never replaced afterwards, and an effect without a dependency array runs
    on every render. For a component whose only hook is that effect, the exact trace:
    the first runs once, the second runs on every render, cleanup first. A state slot
    holding a falsy value is re-initialised by the next render. */
module HookProperties {
  import opened JsValues
  import opened HookEngine

  /** `n` renders of `c` in a row, from cursor 0. */
  function Renders(e: Engine, c: Component, n: nat): (r: Engine)
    requires Valid(e) && e.cursor == 0 && Aligned(e.store, 0, c.sites)
    ensures Valid(r) && r.cursor == 0 && Aligned(r.store, 0, c.sites)
    ensures |r.trace| >= |e.trace| + n
    ensures |r.store| >= |e.store| && (n > 0 ==> |r.store| >= |c.sites|)
    decreases n
  {
    if n == 0 then e
    else
      RenderKeepsAligned(e, c);
      RenderExtendsTrace(e, c);
      Renders(RenderPass(e, c).0, c, n - 1)
  }

  /** `block` repeated `n` times. */
  function Repeat(block: seq<Event>, n: nat): (r: seq<Event>)
    ensures |r| == n * |block|
  {
    if n == 0 then [] else block + Repeat(block, n - 1)
  }

  /** The output step of a component whose only hook is an effect. */
  const OutputOfEffect: Event := Output([Undefined])

  // ---------------------------------------------------------------------------
  // `useEffect(callback, deps)` with the same `deps` on every render

  /** A component whose only hook is `useEffect(callback, deps)` with a fixed array. */
  function FixedDepsComponent(effect: Effect, deps: seq<Value>): Component {
    Component([EffectSite(seen => effect, Some(seen => deps))])
  }

  /** The first render runs the callback, with nothing to clean up. */
  lemma FixedDepsFirstRender(effect: Effect, deps: seq<Value>, trace: seq<Event>)
    ensures Aligned([], 0, FixedDepsComponent(effect, deps).sites)
    ensures RenderPass(Engine([], 0, trace), FixedDepsComponent(effect, deps))
         == (Engine([EffectSlot(Some(deps), effect.cleanUp)], 0, trace + [CallbackRan(effect.callback), OutputOfEffect]),
             [EffectResult])
  {
    var c := FixedDepsComponent(effect, deps);
    var e := Engine([], 0, trace);
    assert c.sites[0..] == c.sites;
    var step := CallSite(e, c.sites[0], Values([]));
    AlignedAfterCall(e, step.0, c.sites, 0);
    assert step.0 == Engine([EffectSlot(Some(deps), effect.cleanUp)], 1, trace + [CallbackRan(effect.callback)]);
    assert Pass(e, c.sites, []) == Pass(step.0, c.sites, [] + [step.1]);
    assert [] + [step.1] == [EffectResult];
    assert Pass(step.0, c.sites, [EffectResult]) == (step.0, [EffectResult]);
    assert Values([EffectResult]) == [Undefined];
    assert trace + [CallbackRan(effect.callback)] + [OutputOfEffect] == trace + [CallbackRan(effect.callback), OutputOfEffect];
  }

  /** A later render finds the same dependencies and only runs the output step. */
  lemma FixedDepsLaterRender(effect: Effect, deps: seq<Value>, trace: seq<Event>)
    ensures Aligned([EffectSlot(Some(deps), effect.cleanUp)], 0, FixedDepsComponent(effect, deps).sites)
    ensures RenderPass(Engine([EffectSlot(Some(deps), effect.cleanUp)], 0, trace), FixedDepsComponent(effect, deps))
         == (Engine([EffectSlot(Some(deps), effect.cleanUp)], 0, trace + [OutputOfEffect]), [EffectResult])
  {
    var c := FixedDepsComponent(effect, deps);
    var e := Engine([EffectSlot(Some(deps), effect.cleanUp)], 0, trace);
    assert c.sites[0..] == c.sites;
    var step := CallSite(e, c.sites[0], Values([]));
    AlignedAfterCall(e, step.0, c.sites, 0);
    assert SameDeps(deps, deps);
    assert step.0 == e.(cursor := 1);
    assert Pass(e, c.sites, []) == Pass(step.0, c.sites, [] + [step.1]);
    assert [] + [step.1] == [EffectResult];
    assert Values([EffectResult]) == [Undefined];
  }

  lemma {:induction false} FixedDepsQuiet(effect: Effect, deps: seq<Value>, trace: seq<Event>, n: nat)
    ensures Aligned([EffectSlot(Some(deps), effect.cleanUp)], 0, FixedDepsComponent(effect, deps).sites)
    ensures Renders(Engine([EffectSlot(Some(deps), effect.cleanUp)], 0, trace), FixedDepsComponent(effect, deps), n)
         == Engine([EffectSlot(Some(deps), effect.cleanUp)], 0, trace + Repeat([OutputOfEffect], n))
    decreases n
  {
    FixedDepsLaterRender(effect, deps, trace);
    if n > 0 {
      FixedDepsQuiet(effect, deps, trace + [OutputOfEffect], n - 1);
      assert trace + [OutputOfEffect] + Repeat([OutputOfEffect], n - 1) == trace + Repeat([OutputOfEffect], n);
    }
  }

  /** With the same dependency array on every render (`[]` included), `n + 1` renders
      run the callback exactly once, on the first render, and never a cleanup. */
  lemma FixedDepsRunOnce(effect: Effect, deps: seq<Value>, n: nat)
    ensures Aligned([], 0, FixedDepsComponent(effect, deps).sites)
    ensures Renders(Engine([], 0, []), FixedDepsComponent(effect, deps), n + 1).trace
         == [CallbackRan(effect.callback)] + Repeat([OutputOfEffect], n + 1)
  {
    var c := FixedDepsComponent(effect, deps);
    FixedDepsFirstRender(effect, deps, []);
    RenderKeepsAligned(Engine([], 0, []), c);
    assert [] + [CallbackRan(effect.callback), OutputOfEffect] == [CallbackRan(effect.callback), OutputOfEffect];
    assert RenderPass(Engine([], 0, []), c).0
        == Engine([EffectSlot(Some(deps), effect.cleanUp)], 0, [CallbackRan(effect.callback), OutputOfEffect]);
    assert Renders(Engine([], 0, []), c, n + 1) == Renders(RenderPass(Engine([], 0, []), c).0, c, n);
    assert Renders(Engine([], 0, []), c, n + 1)
        == Renders(Engine([EffectSlot(Some(deps), effect.cleanUp)], 0, [CallbackRan(effect.callback), OutputOfEffect]), c, n);
    FixedDepsQuiet(effect, deps, [CallbackRan(effect.callback), OutputOfEffect], n);
    assert Repeat([OutputOfEffect], n + 1) == [OutputOfEffect] + Repeat([OutputOfEffect], n);
    assert [CallbackRan(effect.callback), OutputOfEffect] + Repeat([OutputOfEffect], n)
        == [CallbackRan(effect.callback)] + Repeat([OutputOfEffect], n + 1);
  }

  // ---------------------------------------------------------------------------
  // `useEffect(callback)` without a dependency array

  /** A component whose only hook is `useEffect(callback)`. */
  function NoDepsComponent(effect: Effect): Component {
    Component([EffectSite(seen => effect, None)])
  }

  /** A render from the store left by an earlier one: the stored cleanup, then the
      callback, then the output step. */
  lemma NoDepsRender(effect: Effect, stored: Option<Closure>, trace: seq<Event>)
    ensures Aligned([EffectSlot(None, stored)], 0, NoDepsComponent(effect).sites)
    ensures RenderPass(Engine([EffectSlot(None, stored)], 0, trace), NoDepsComponent(effect))
         == (Engine([EffectSlot(None, effect.cleanUp)], 0,
                    trace + RerunEvents(stored, effect.callback) + [OutputOfEffect]),
             [EffectResult])
  {
    var c := NoDepsComponent(effect);
    var e := Engine([EffectSlot(None, stored)], 0, trace);
    assert c.sites[0..] == c.sites;
    var step := CallSite(e, c.sites[0], Values([]));
    AlignedAfterCall(e, step.0, c.sites, 0);
    assert step.0 == Engine([EffectSlot(None, effect.cleanUp)], 1, trace + RerunEvents(stored, effect.callback));
    assert Pass(e, c.sites, []) == Pass(step.0, c.sites, [] + [step.1]);
    assert [] + [step.1] == [EffectResult];
    assert Values([EffectResult]) == [Undefined];
  }

  lemma {:induction false} NoDepsRepeats(effect: Effect, trace: seq<Event>, n: nat)
    ensures Aligned([EffectSlot(None, effect.cleanUp)], 0, NoDepsComponent(effect).sites)
    ensures Renders(Engine([EffectSlot(None, effect.cleanUp)], 0, trace), NoDepsComponent(effect), n)
         == Engine([EffectSlot(None, effect.cleanUp)], 0,
                   trace + Repeat(RerunEvents(effect.cleanUp, effect.callback) + [OutputOfEffect], n))
    decreases n
  {
    var block := RerunEvents(effect.cleanUp, effect.callback) + [OutputOfEffect];
    NoDepsRender(effect, effect.cleanUp, trace);
    if n > 0 {
      assert trace + RerunEvents(effect.cleanUp, effect.callback) + [OutputOfEffect] == trace + block;
      assert Renders(Engine([EffectSlot(None, effect.cleanUp)], 0, trace), NoDepsComponent(effect), n)
          == Renders(Engine([EffectSlot(None, effect.cleanUp)], 0, trace + block), NoDepsComponent(effect), n - 1);
      NoDepsRepeats(effect, trace + block, n - 1);
      assert trace + block + Repeat(block, n - 1) == trace + Repeat(block, n);
    }
  }

  /** Without a dependency array the effect runs on every one of `n + 1` renders: on the
      first with nothing to clean up, on each later one right after the cleanup the
      previous run returned (if it returned one). */
  lemma NoDepsAlwaysRuns(effect: Effect, n: nat)
    ensures Aligned([], 0, NoDepsComponent(effect).sites)
    ensures Renders(Engine([], 0, []), NoDepsComponent(effect), n + 1).trace
         == [CallbackRan(effect.callback), OutputOfEffect]
          + Repeat(RerunEvents(effect.cleanUp, effect.callback) + [OutputOfEffect], n)
  {
    NoDepsRender(effect, None, []);
    assert RerunEvents(None, effect.callback) == [CallbackRan(effect.callback)];
    assert [] + RerunEvents(None, effect.callback) + [OutputOfEffect] == [CallbackRan(effect.callback), OutputOfEffect];
    var start := Engine([], 0, []);
    assert Aligned(start.store, 0, NoDepsComponent(effect).sites);
    RenderKeepsAligned(start, NoDepsComponent(effect));
    assert RenderPass(start, NoDepsComponent(effect)).0
        == Engine([EffectSlot(None, effect.cleanUp)], 0, [CallbackRan(effect.callback), OutputOfEffect]);
    assert Renders(start, NoDepsComponent(effect), n + 1) == Renders(RenderPass(start, NoDepsComponent(effect)).0, NoDepsComponent(effect), n);
    assert Renders(start, NoDepsComponent(effect), n + 1)
        == Renders(Engine([EffectSlot(None, effect.cleanUp)], 0, [CallbackRan(effect.callback), OutputOfEffect]), NoDepsComponent(effect), n);
    NoDepsRepeats(effect, [CallbackRan(effect.callback), OutputOfEffect], n);
  }

  // ---------------------------------------------------------------------------
  // An effect hook among the other hooks of any component

  /** An effect site that passes the same dependency array `deps` whatever the
      hooks before it returned. */
  ghost predicate FixedDepsSite(site: Site, deps: seq<Value>) {
    site.EffectSite? && site.deps.Some? && forall seen :: site.deps.value(seen) == deps
  }

  /** Once slot `j` holds the record of a fixed-array effect site, no later render
      replaces it, and in each of them hook `j` adds no event: neither the cleanup
      nor the callback runs. */
  lemma {:induction false} FixedDepsRecordKept(e: Engine, c: Component, j: nat, deps: seq<Value>, n: nat)
    requires Valid(e) && e.cursor == 0 && Aligned(e.store, 0, c.sites)
    requires j < |c.sites| && FixedDepsSite(c.sites[j], deps)
    requires j < |e.store| && e.store[j].EffectSlot? && e.store[j].deps == Some(deps)
    ensures Renders(e, c, n).store[j] == e.store[j]
    ensures forall k :: 0 <= k < n ==> HookEvents(Renders(e, c, k), c, j) == []
    decreases n
  {
    if n > 0 {
      assert SameDeps(deps, deps);
      assert DepsOf(c.sites[j].deps, Values(RenderPass(e, c).1[..j])) == Some(deps);
      RenderEffectSkipped(e, c, j);
      var e1 := RenderPass(e, c).0;
      RenderKeepsAligned(e, c);
      FixedDepsRecordKept(e1, c, j, deps, n - 1);
      forall k | 0 < k < n
        ensures HookEvents(Renders(e, c, k), c, j) == []
      {
        assert Renders(e, c, k) == Renders(e1, c, k - 1);
      }
    }
  }

  /** An effect site with a fixed array (`[]` included), in any component, adds exactly
      its callback to the trace on the first render (no cleanup is stored yet) and
      stores `{deps, cleanUp}`; in each of the next `n` renders it adds no event, and
      the record stays. */
  lemma FixedDepsRunOnceAnywhere(e: Engine, c: Component, j: nat, deps: seq<Value>, n: nat)
    requires Valid(e) && e.cursor == 0 && Aligned(e.store, 0, c.sites)
    requires j < |c.sites| && FixedDepsSite(c.sites[j], deps) && |e.store| <= j
    ensures var effect := c.sites[j].effect(Values(RenderPass(e, c).1[..j]));
      && HookEvents(e, c, j) == [CallbackRan(effect.callback)]
      && Renders(e, c, 1).store[j] == EffectSlot(Some(deps), effect.cleanUp)
    ensures Renders(e, c, n + 1).store[j] == Renders(e, c, 1).store[j]
    ensures forall k :: 1 <= k <= n ==> HookEvents(Renders(e, c, k), c, j) == []
  {
    RenderEffectRan(e, c, j);
    RenderKeepsAligned(e, c);
    var e1 := RenderPass(e, c).0;
    assert CleanUpAt(e.store, j) == None;
    assert Renders(e, c, 1) == e1;
    assert Renders(e, c, n + 1) == Renders(e1, c, n);
    FixedDepsRecordKept(e1, c, j, deps, n);
    forall k | 1 <= k <= n
      ensures HookEvents(Renders(e, c, k), c, j) == []
    {
      assert Renders(e, c, k) == Renders(e1, c, k - 1);
    }
  }

  /** An effect site without a dependency array, in any component, re-runs on every
      render: its call adds exactly the cleanup its slot held (if any) and then the
      callback, and the slot keeps the cleanup that run returned. */
  lemma NoDepsRunsEveryRender(e: Engine, c: Component, j: nat)
    requires Valid(e) && Aligned(e.store, e.cursor, c.sites)
    requires j < |c.sites| && c.sites[j].EffectSite? && c.sites[j].deps.None?
    ensures var r := RenderPass(e, c);
      var effect := c.sites[j].effect(Values(r.1[..j]));
      && HookEvents(e, c, j) == RerunEvents(CleanUpAt(e.store, e.cursor + j), effect.callback)
      && e.cursor + j < |r.0.store|
      && r.0.store[e.cursor + j] == EffectSlot(None, effect.cleanUp)
  {
    RenderEffectRan(e, c, j);
  }

  // ---------------------------------------------------------------------------
  // `useState` and falsy values

  /** A component whose only hook is `useState(initialValue)`. */
  function CounterComponent(initialValue: Value): Component {
    Component([StateSite(seen => initialValue)])
  }

  /** `useState(5)` whose setter stored 0: the next render returns 5, not 0, because
      `hooks[i] || initialValue` treats the stored 0 as absent. */
  lemma FalsyStateIsReinitialised()
    ensures Aligned([StateSlot(Num(0))], 0, CounterComponent(Num(5)).sites)
    ensures RenderPass(Engine([StateSlot(Num(0))], 0, []), CounterComponent(Num(5))).1[0].value == Num(5)
  {
  }

  /** The dependency comparison ignores length: a matching shorter array and a longer
      array padded with `undefined` count as unchanged, a longer array with a real new
      element as changed. */
  lemma LengthIsNotCompared()
    ensures SameDeps([Num(1)], [Num(1), Num(2)])
    ensures SameDeps([], [Num(1), Num(2)])
    ensures SameDeps([Num(1), Undefined], [Num(1)])
    ensures !SameDeps([Num(1), Num(2)], [Num(1)])
  {
    assert At([Num(1)], 1) == Undefined;
    assert !StrictEquals(Num(2), At([Num(1)], 1));
  }
}
