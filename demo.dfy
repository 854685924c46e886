/** The example of index.js: a component with a `count` (initially 0), a `text`
    (initially "foo"), and an effect on `[count, text]` that logs "effect" when it runs
    and returns a cleanup that logs "cleanup"; then the script of five renders with a
    click, a typed text, a no-op set and another click between them. */
module Demo {
  import opened JsValues
  import opened HookEngine
  import MyReact

  /** The `count, text` pair the effect captures, from the values returned so far. */
  function CountAndText(seen: seq<Value>): seq<Value> {
    [At(seen, 0), At(seen, 1)]
  }

  /** `ExampleComponent`: `useState(0)`, `useState("foo")`, and the effect on `[count, text]`. */
  function ExampleComponent(): (c: Component)
    ensures |c.sites| == 3 && c.sites[0].StateSite? && c.sites[1].StateSite?
    ensures c.sites[2].EffectSite? && c.sites[2].deps.Some?
  {
    Component([
      StateSite(seen => Num(0)),
      StateSite(seen => Str("foo")),
      EffectSite(
        seen => Effect(Closure("effect", CountAndText(seen)), Some(Closure("cleanup", CountAndText(seen)))),
        Some(CountAndText))
    ])
  }

  /** What each hook of `ExampleComponent` is called with: the initial values 0 and
      "foo", and an effect whose array, callback and cleanup all see `[count, text]`. */
  lemma ExampleComponentHooks(seen: seq<Value>)
    ensures ExampleComponent().sites[0].initialValue(seen) == Num(0)
    ensures ExampleComponent().sites[1].initialValue(seen) == Str("foo")
    ensures |seen| >= 2 ==> ExampleComponent().sites[2].deps.value(seen) == seen[..2]
    ensures |seen| >= 2 ==>
      ExampleComponent().sites[2].effect(seen) == Effect(Closure("effect", seen[..2]), Some(Closure("cleanup", seen[..2])))
  {
    if |seen| >= 2 {
      assert CountAndText(seen) == seen[..2];
    }
  }

  /** "effect count text", "cleanup count text" and "render {count, text}". */
  function EffectLine(count: int, text: string): Event {
    CallbackRan(Closure("effect", [Num(count), Str(text)]))
  }

  function CleanupLine(count: int, text: string): Event {
    CleanupRan(Closure("cleanup", [Num(count), Str(text)]))
  }

  function RenderLine(count: int, text: string): Event {
    Output([Num(count), Str(text), Undefined])
  }

  /** The store after a render that saw `count` and `text` and whose effect last ran
      with `ranCount` and `ranText`. */
  function StoreAfter(count: int, text: string, ranCount: int, ranText: string): seq<Slot> {
    [ StateSlot(Num(count)),
      StateSlot(Str(text)),
      EffectSlot(Some([Num(ranCount), Str(ranText)]), Some(Closure("cleanup", [Num(ranCount), Str(ranText)]))) ]
  }

  /** The interaction object of a render that saw `count` and `text`. */
  function AppAfter(count: int, text: string): seq<HookResult> {
    [StateResult(Num(count), Setter(0)), StateResult(Str(text), Setter(1)), EffectResult]
  }

  /** The count and text a render returns: `useState` keeps the stored count (a
      falsy 0 is replaced by the initial 0, which is the same value) and keeps the
      stored text unless it is "", which is replaced by the initial "foo". */
  function SeenText(text: string): string {
    if text == "" then "foo" else text
  }

  /** The three hook calls of `ExampleComponent`, on the empty store of the first
      render or on the store `StoreAfter(count, text, ranCount, ranText)` of a later one. */
  lemma CountCall(store: seq<Slot>, trace: seq<Event>, count: int)
    requires (store == [] && count == 0) || (|store| == 3 && store[0] == StateSlot(Num(count)))
    ensures CallSite(Engine(store, 0, trace), ExampleComponent().sites[0], Values([]))
         == (Engine(if store == [] then [StateSlot(Num(0))] else store, 1, trace),
             StateResult(Num(count), Setter(0)))
  {
    var e := Engine(store, 0, trace);
    var site := ExampleComponent().sites[0];
    assert site.initialValue(Values([])) == Num(0);
    var h := StateHook(e, Num(0));
    assert h.1 == Num(count);
    if store != [] {
      assert store[0 := StateSlot(Num(count))] == store;
    }
    assert h.0 == Engine(if store == [] then [StateSlot(Num(0))] else store, 1, trace);
  }

  lemma TextCall(store: seq<Slot>, trace: seq<Event>, r1: HookResult, text: string)
    requires (|store| == 1 && text == "") || (|store| == 3 && store[1] == StateSlot(Str(text)))
    ensures CallSite(Engine(store, 1, trace), ExampleComponent().sites[1], Values([r1]))
         == (Engine(if |store| == 1 then store + [StateSlot(Str("foo"))]
                    else store[1 := StateSlot(Str(SeenText(text)))], 2, trace),
             StateResult(Str(SeenText(text)), Setter(1)))
  {
    var site := ExampleComponent().sites[1];
    assert site.initialValue(Values([r1])) == Str("foo");
    var h := StateHook(Engine(store, 1, trace), Str("foo"));
    assert h.1 == Str(SeenText(text));
  }

  lemma FirstEffectCall(trace: seq<Event>)
    ensures CallSite(Engine([StateSlot(Num(0)), StateSlot(Str("foo"))], 2, trace), ExampleComponent().sites[2],
                     Values([StateResult(Num(0), Setter(0)), StateResult(Str("foo"), Setter(1))]))
         == (Engine(StoreAfter(0, "foo", 0, "foo"), 3, trace + [EffectLine(0, "foo")]), EffectResult)
  {
    var seen := Values([StateResult(Num(0), Setter(0)), StateResult(Str("foo"), Setter(1))]);
    assert seen == [Num(0), Str("foo")];
    var site := ExampleComponent().sites[2];
    var e := Engine([StateSlot(Num(0)), StateSlot(Str("foo"))], 2, trace);
    assert site.effect(seen) == Effect(Closure("effect", [Num(0), Str("foo")]), Some(Closure("cleanup", [Num(0), Str("foo")])));
    assert DepsOf(site.deps, seen) == Some([Num(0), Str("foo")]);
    assert Reruns(e, Some([Num(0), Str("foo")]));
    assert RerunEvents(PrevCleanUp(e), Closure("effect", [Num(0), Str("foo")])) == [EffectLine(0, "foo")];
    assert EffectHook(e, site.effect(seen), DepsOf(site.deps, seen))
        == Engine(StoreAfter(0, "foo", 0, "foo"), 3, trace + [EffectLine(0, "foo")]);
  }

  lemma LaterEffectCall(count: int, text: string, ranCount: int, ranText: string, trace: seq<Event>)
    ensures CallSite(Engine(StoreAfter(count, text, ranCount, ranText), 2, trace), ExampleComponent().sites[2],
                     Values([StateResult(Num(count), Setter(0)), StateResult(Str(text), Setter(1))]))
         == (if count == ranCount && text == ranText
             then Engine(StoreAfter(count, text, ranCount, ranText), 3, trace)
             else Engine(StoreAfter(count, text, count, text), 3,
                         trace + [CleanupLine(ranCount, ranText), EffectLine(count, text)]),
             EffectResult)
  {
    var seen := Values([StateResult(Num(count), Setter(0)), StateResult(Str(text), Setter(1))]);
    assert seen == [Num(count), Str(text)];
    var site := ExampleComponent().sites[2];
    assert site.effect(seen) == Effect(Closure("effect", [Num(count), Str(text)]), Some(Closure("cleanup", [Num(count), Str(text)])));
    assert DepsOf(site.deps, seen) == Some([Num(count), Str(text)]);
    var e := Engine(StoreAfter(count, text, ranCount, ranText), 2, trace);
    if count == ranCount && text == ranText {
      assert SameDeps([Num(count), Str(text)], [Num(ranCount), Str(ranText)]);
    } else {
      assert !StrictEquals(Num(count), Num(ranCount)) || !StrictEquals(Str(text), Str(ranText));
      assert Reruns(e, Some([Num(count), Str(text)]));
      assert RerunEvents(PrevCleanUp(e), Closure("effect", [Num(count), Str(text)]))
          == [CleanupLine(ranCount, ranText), EffectLine(count, text)];
      assert Write(e.store, 2, EffectSlot(Some([Num(count), Str(text)]), Some(Closure("cleanup", [Num(count), Str(text)]))))
          == StoreAfter(count, text, count, text);
    }
  }

  /** The first render, from module load: both states take their initial values and
      the effect runs, with no cleanup before it. */
  lemma FirstRender(trace: seq<Event>)
    ensures Aligned([], 0, ExampleComponent().sites)
    ensures RenderPass(Engine([], 0, trace), ExampleComponent())
         == (Engine(StoreAfter(0, "foo", 0, "foo"), 0, trace + [EffectLine(0, "foo"), RenderLine(0, "foo")]),
             AppAfter(0, "foo"))
  {
    var sites := ExampleComponent().sites;
    assert sites[0..] == sites;
    var e0 := Engine([], 0, trace);
    var r1, r2 := StateResult(Num(0), Setter(0)), StateResult(Str("foo"), Setter(1));
    var e1 := Engine([StateSlot(Num(0))], 1, trace);
    var e2 := Engine([StateSlot(Num(0)), StateSlot(Str("foo"))], 2, trace);
    var e3 := Engine(StoreAfter(0, "foo", 0, "foo"), 3, trace + [EffectLine(0, "foo")]);
    CountCall([], trace, 0);
    PassStep(e0, sites, [], e1, r1);
    TextCall(e1.store, trace, r1, "");
    assert [] + [r1] == [r1] && e1.store + [StateSlot(Str("foo"))] == e2.store;
    PassStep(e1, sites, [] + [r1], e2, r2);
    FirstEffectCall(trace);
    PassStep(e2, sites, [] + [r1] + [r2], e3, EffectResult);
    assert [] + [r1] + [r2] + [EffectResult] == AppAfter(0, "foo");
    assert Values(AppAfter(0, "foo")) == [Num(0), Str("foo"), Undefined];
    assert Pass(e0, sites, []) == (e3, AppAfter(0, "foo"));
    assert e3.trace + [RenderLine(0, "foo")] == trace + [EffectLine(0, "foo"), RenderLine(0, "foo")];
  }

  /** The two state hooks of a later render. */
  lemma LaterStates(count: int, text: string, ranCount: int, ranText: string, trace: seq<Event>)
    ensures Aligned(StoreAfter(count, text, ranCount, ranText), 0, ExampleComponent().sites)
    ensures Aligned(StoreAfter(count, SeenText(text), ranCount, ranText), 2, ExampleComponent().sites[2..])
    ensures Pass(Engine(StoreAfter(count, text, ranCount, ranText), 0, trace), ExampleComponent().sites, [])
         == Pass(Engine(StoreAfter(count, SeenText(text), ranCount, ranText), 2, trace), ExampleComponent().sites,
                 [StateResult(Num(count), Setter(0)), StateResult(Str(SeenText(text)), Setter(1))])
  {
    var shown := SeenText(text);
    var sites := ExampleComponent().sites;
    assert sites[0..] == sites;
    var r1, r2 := StateResult(Num(count), Setter(0)), StateResult(Str(shown), Setter(1));
    var e0 := Engine(StoreAfter(count, text, ranCount, ranText), 0, trace);
    var e1 := e0.(cursor := 1);
    var e2 := e0.(store := StoreAfter(count, shown, ranCount, ranText), cursor := 2);
    CountCall(e0.store, trace, count);
    PassStep(e0, sites, [], e1, r1);
    TextCall(e1.store, trace, r1, text);
    assert [] + [r1] == [r1] && e1.store[1 := StateSlot(Str(shown))] == e2.store;
    PassStep(e1, sites, [] + [r1], e2, r2);
    assert [] + [r1] + [r2] == [r1, r2];
  }

  /** The hook calls of a later render, before its output step. */
  lemma LaterPass(count: int, text: string, ranCount: int, ranText: string, trace: seq<Event>)
    ensures Aligned(StoreAfter(count, text, ranCount, ranText), 0, ExampleComponent().sites)
    ensures var shown := SeenText(text);
      Pass(Engine(StoreAfter(count, text, ranCount, ranText), 0, trace), ExampleComponent().sites, [])
      == (if count == ranCount && shown == ranText then Engine(StoreAfter(count, shown, ranCount, ranText), 3, trace)
          else Engine(StoreAfter(count, shown, count, shown), 3,
                      trace + [CleanupLine(ranCount, ranText), EffectLine(count, shown)]),
          AppAfter(count, shown))
  {
    var shown := SeenText(text);
    var sites := ExampleComponent().sites;
    var r1, r2 := StateResult(Num(count), Setter(0)), StateResult(Str(shown), Setter(1));
    var e2 := Engine(StoreAfter(count, shown, ranCount, ranText), 2, trace);
    LaterStates(count, text, ranCount, ranText, trace);
    LaterEffectCall(count, shown, ranCount, ranText, trace);
    var e3 := if count == ranCount && shown == ranText then e2.(cursor := 3)
              else Engine(StoreAfter(count, shown, count, shown), 3,
                          trace + [CleanupLine(ranCount, ranText), EffectLine(count, shown)]);
    PassStep(e2, sites, [r1, r2], e3, EffectResult);
    assert [r1, r2] + [EffectResult] == AppAfter(count, shown);
  }

  /** Any later render: the effect re-runs, cleanup first, exactly when the
      `[count, text]` it sees differs from the pair it last ran with. */
  lemma LaterRender(count: int, text: string, ranCount: int, ranText: string, trace: seq<Event>)
    ensures Aligned(StoreAfter(count, text, ranCount, ranText), 0, ExampleComponent().sites)
    ensures var shown := SeenText(text);
      RenderPass(Engine(StoreAfter(count, text, ranCount, ranText), 0, trace), ExampleComponent())
      == if count == ranCount && shown == ranText then
           (Engine(StoreAfter(count, shown, ranCount, ranText), 0, trace + [RenderLine(count, shown)]),
            AppAfter(count, shown))
         else
           (Engine(StoreAfter(count, shown, count, shown), 0,
                   trace + [CleanupLine(ranCount, ranText), EffectLine(count, shown), RenderLine(count, shown)]),
            AppAfter(count, shown))
  {
    var shown := SeenText(text);
    assert ExampleComponent().sites[0..] == ExampleComponent().sites;
    LaterPass(count, text, ranCount, ranText, trace);
    assert Values(AppAfter(count, shown)) == [Num(count), Str(shown), Undefined];
    if !(count == ranCount && shown == ranText) {
      assert trace + [CleanupLine(ranCount, ranText), EffectLine(count, shown)] + [RenderLine(count, shown)]
          == trace + [CleanupLine(ranCount, ranText), EffectLine(count, shown), RenderLine(count, shown)];
    }
  }

  /** `click`: `setCount(count + 1)` with the count the render returned. */
  function Click(count: Value): Update
    requires count.Num?
  {
    Plain(Num(count.n + 1))
  }

  /** `MyReact.render(ExampleComponent)` on a runtime whose store was left by an
      earlier render and then updated by setters. */
  method RenderExample(rt: MyReact.Runtime, count: int, text: string, ranCount: int, ranText: string)
    returns (app: seq<HookResult>)
    requires rt.hooks == StoreAfter(count, text, ranCount, ranText) && rt.currentHook == 0 && text != ""
    modifies rt
    ensures app == AppAfter(count, text) && rt.currentHook == 0
    ensures count == ranCount && text == ranText ==>
      rt.hooks == StoreAfter(count, text, count, text) && rt.trace == old(rt.trace) + [RenderLine(count, text)]
    ensures count != ranCount || text != ranText ==>
      && rt.hooks == StoreAfter(count, text, count, text)
      && rt.trace == old(rt.trace) + [CleanupLine(ranCount, ranText), EffectLine(count, text), RenderLine(count, text)]
  {
    LaterRender(count, text, ranCount, ranText, rt.trace);
    assert rt.Valid();
    app := rt.Render(ExampleComponent());
  }

  /** Calling the `count` setter (slot 0) with the plain value `next`. */
  method SetCount(rt: MyReact.Runtime, count: int, text: string, ranCount: int, ranText: string, next: int)
    requires rt.hooks == StoreAfter(count, text, ranCount, ranText)
    modifies rt
    ensures rt.hooks == StoreAfter(next, text, ranCount, ranText)
    ensures rt.currentHook == old(rt.currentHook) && rt.trace == old(rt.trace)
  {
    rt.SetState(Setter(0), Plain(Num(next)));
  }

  /** Calling the `text` setter (slot 1) with the plain value `next`. */
  method SetText(rt: MyReact.Runtime, count: int, text: string, ranCount: int, ranText: string, next: string)
    requires rt.hooks == StoreAfter(count, text, ranCount, ranText)
    modifies rt
    ensures rt.hooks == StoreAfter(count, next, ranCount, ranText)
    ensures rt.currentHook == old(rt.currentHook) && rt.trace == old(rt.trace)
  {
    rt.SetState(Setter(1), Plain(Str(next)));
  }

  /** index.js lines 27-40 run on a fresh runtime: render, click, render, type "bar",
      render, no-op set, render, click, render. Returns everything that was logged. */
  method RunExample() returns (log: seq<Event>)
    ensures log == [
      EffectLine(0, "foo"), RenderLine(0, "foo"),
      CleanupLine(0, "foo"), EffectLine(1, "foo"), RenderLine(1, "foo"),
      CleanupLine(1, "foo"), EffectLine(1, "bar"), RenderLine(1, "bar"),
      RenderLine(1, "bar"),
      CleanupLine(1, "bar"), EffectLine(2, "bar"), RenderLine(2, "bar")]
  {
    var rt := new MyReact.Runtime();
    FirstRender([]);
    var app := rt.Render(ExampleComponent());
    assert rt.hooks == StoreAfter(0, "foo", 0, "foo") && app == AppAfter(0, "foo");

    assert app[0].setter == Setter(0) && Click(app[0].value) == Plain(Num(1));
    SetCount(rt, 0, "foo", 0, "foo", 1);
    app := RenderExample(rt, 1, "foo", 0, "foo");

    assert app[1].setter == Setter(1);
    SetText(rt, 1, "foo", 1, "foo", "bar");
    app := RenderExample(rt, 1, "bar", 1, "foo");

    assert app[0].setter == Setter(0) && Plain(app[0].value) == Plain(Num(1));
    SetCount(rt, 1, "bar", 1, "bar", 1);
    app := RenderExample(rt, 1, "bar", 1, "bar");

    assert app[0].setter == Setter(0) && Click(app[0].value) == Plain(Num(2));
    SetCount(rt, 1, "bar", 1, "bar", 2);
    app := RenderExample(rt, 2, "bar", 1, "bar");

    log := rt.trace;
  }
}
