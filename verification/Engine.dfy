/** The engine of crates/airpulse_dsl-evaluator/src/engine.rs over its store: each call does
    to the store and the counters what EngineModel says. */
module EngineRuntime {
  import opened Options
  import opened EventTime
  import opened Ring
  import opened Waiting
  import opened RuleImage
  import opened EngineModel
  import opened EngineSafety
  import opened Store
  import opened Correlation

  datatype Mode = Offline | Live

  datatype SourceWm = SourceWm(localWm: Time, lastSeen: Time)

  datatype Diagnostic =
    | RingSpill(event: Event)
    | QueueSpill(match_: Pending)
    | MissingAnchor(match_: Pending)
    | RuleNotInImage(match_: Pending)
    | RuleFiringsExceeded(scope: Scope)
    | LateEventDropped(event: Event)

  // ----- live watermarks -----

  predicate Idle(src: SourceWm, wall: Time, timeout: Duration) { Clamp(wall - src.lastSeen) >= timeout }

  /** The least local watermark of the sources that are not idle; the old watermark if all are. */
  ghost predicate IsLiveTarget(sources: map<Scope, SourceWm>, wall: Time, timeout: Duration, wm: Time, target: Time)
  {
    if exists s :: s in sources && !Idle(sources[s], wall, timeout) then
      && (exists s :: s in sources && !Idle(sources[s], wall, timeout) && sources[s].localWm == target)
      && (forall s :: s in sources && !Idle(sources[s], wall, timeout) ==> target <= sources[s].localWm)
    else target == wm
  }

  function Heard(sources: map<Scope, SourceWm>, s: Scope, candidate: Time, wall: Time): map<Scope, SourceWm>
  {
    sources[s := SourceWm(if s in sources then Latest(sources[s].localWm, candidate) else candidate, wall)]
  }

  /** The minimum over the sources, in any order. */
  method LiveTarget(sources: map<Scope, SourceWm>, wall: Time, timeout: Duration, wm: Time) returns (target: Time)
    ensures IsLiveTarget(sources, wall, timeout, wm, target)
  {
    var global: Option<Time> := None;
    var todo := sources.Keys;
    while todo != {}
      invariant todo <= sources.Keys
      invariant global.None? ==> forall s :: s in sources && s !in todo ==> Idle(sources[s], wall, timeout)
      invariant global.Some? ==>
        && (exists s :: s in sources && !Idle(sources[s], wall, timeout) && sources[s].localWm == global.value)
        && (forall s :: s in sources && s !in todo && !Idle(sources[s], wall, timeout) ==> global.value <= sources[s].localWm)
      decreases |todo|
    {
      var s :| s in todo;
      todo := todo - {s};
      var idle := Clamp(wall - sources[s].lastSeen);
      if idle < timeout {
        if global.None? || sources[s].localWm < global.value { global := Some(sources[s].localWm); }
      }
    }
    target := if global.Some? then global.value else wm;
  }

  /** When a live engine drops an event instead of accepting it. */
  predicate TooLate(mode: Mode, lim: Limits, wm: Time, time: Time)
  {
    mode == Live && wm != TIME_MIN && time <= wm && time <= Sub(wm, lim.allowedLateness)
  }

  /** What the watermark policy of `mode` makes of an event: drop it, or accept it at a
      target, having heard from its source. */
  ghost predicate Policy(mode: Mode, lim: Limits, e: Event, wm: Time, sources: map<Scope, SourceWm>, wall: Time,
                         sources': map<Scope, SourceWm>, wall': Time, op: Op)
  {
    if TooLate(mode, lim, wm, e.time) then op == Discard(e) && sources' == sources && wall' == wall
    else
      && op.Accept? && op.event == e
      && if mode == Offline then op.target == e.time && sources' == sources && wall' == wall
         else
           && wall' == Latest(wall, e.time)
           && sources' == Heard(sources, e.scope, Sub(e.time, lim.maxDisorder), wall')
           && IsLiveTarget(sources', wall', lim.idleTimeout, wm, op.target)
  }

  // ----- diagnostics -----

  /** The diagnostics are the account: one for every spill and every failed resume. */
  ghost predicate Explained(ds: seq<Diagnostic>, ledger: Ledger, lost: seq<Event>)
  {
    && (forall p :: MatchExplained(ds, ledger, p))
    && (forall e :: multiset(ds)[RingSpill(e)] == multiset(lost)[e])
  }

  ghost predicate MatchExplained(ds: seq<Diagnostic>, ledger: Ledger, p: Pending)
  {
    && multiset(ds)[QueueSpill(p)] == ledger.spilled[p]
    && multiset(ds)[MissingAnchor(p)] == ledger.missing[p]
    && multiset(ds)[RuleNotInImage(p)] == ledger.unlisted[p]
  }

  /** The account a diagnostic belongs to. */
  function Entered(ledger: Ledger, d: Diagnostic): Ledger
  {
    match d
    case QueueSpill(p) => ledger.(spilled := ledger.spilled + multiset{p})
    case MissingAnchor(p) => ledger.(missing := ledger.missing + multiset{p})
    case RuleNotInImage(p) => ledger.(unlisted := ledger.unlisted + multiset{p})
    case RingSpill(_) => ledger
    case RuleFiringsExceeded(_) => ledger
    case LateEventDropped(_) => ledger
  }

  lemma OneMore(ds: seq<Diagnostic>, ledger: Ledger, lost: seq<Event>, d: Diagnostic)
    requires Explained(ds, ledger, lost)
    ensures Explained(ds + [d], Entered(ledger, d), lost + (if d.RingSpill? then [d.event] else []))
  {
    hide Entered;
    forall p ensures MatchExplained(ds + [d], Entered(ledger, d), p) { MatchStaysExplained(ds, ledger, d, p); }
    forall e ensures multiset(ds + [d])[RingSpill(e)] == multiset(lost + (if d.RingSpill? then [d.event] else []))[e] {
      CountOne(ds, d, RingSpill(e));
      if d.RingSpill? { CountEvent(lost, d.event, e); } else { assert lost + [] == lost; }
    }
  }

  lemma MatchStaysExplained(ds: seq<Diagnostic>, ledger: Ledger, d: Diagnostic, p: Pending)
    requires MatchExplained(ds, ledger, p)
    ensures MatchExplained(ds + [d], Entered(ledger, d), p)
  {
    CountOne(ds, d, QueueSpill(p));
    CountOne(ds, d, MissingAnchor(p));
    CountOne(ds, d, RuleNotInImage(p));
  }

  lemma CountEvent(lost: seq<Event>, x: Event, e: Event)
    ensures multiset(lost + [x])[e] == multiset(lost)[e] + (if e == x then 1 else 0)
  {
  }

  lemma CountOne(ds: seq<Diagnostic>, d: Diagnostic, x: Diagnostic)
    ensures multiset(ds + [d])[x] == multiset(ds)[x] + (if x == d then 1 else 0)
  {
  }

  /** Suspensions and resumes leave no diagnostic. */
  lemma NoDiagnostic(ds: seq<Diagnostic>, ledger: Ledger, lost: seq<Event>, ledger': Ledger)
    requires Explained(ds, ledger, lost)
    requires ledger'.spilled == ledger.spilled && ledger'.missing == ledger.missing && ledger'.unlisted == ledger.unlisted
    ensures Explained(ds, ledger', lost)
  {
    forall p ensures MatchExplained(ds, ledger', p) { assert MatchExplained(ds, ledger, p); }
  }

  lemma RunSnoc(img: Image, lim: Limits, ops: seq<Op>, op: Op)
    ensures Run(img, lim, ops + [op]) == Do(img, lim, Run(img, lim, ops), op)
    ensures LegalRun(img, lim, ops + [op]) <==> LegalRun(img, lim, ops) && Legal(img, Run(img, lim, ops), op)
  {
    assert (ops + [op])[..|ops + [op]| - 1] == ops;
  }

  // ----- the engine -----

  class Engine {
    const image: Image
    const limits: Limits
    const mode: Mode
    const store: GraphStore
    var lastEventTime: Option<Time>
    var finished: bool
    var suspended: nat
    var resumed: nat
    var steps: seq<Step>
    var diagnostics: seq<Diagnostic>
    var sources: map<Scope, SourceWm>
    var wallClock: Time
    var lateSideOutput: seq<Event>
    ghost var ledger: Ledger
    ghost var history: seq<Event>
    ghost var lost: seq<Event>
    ghost var calls: seq<Op>

    ghost function Model(): State
      reads this, store, store.rings.Values, store.pending.Values
    {
      State(store.RingSeqs(), store.QueueSeqs(), store.watermark, lastEventTime, finished, steps, ledger, history, lost)
    }

    ghost predicate Counted()
      reads this
    {
      suspended == |ledger.suspended| && resumed == |ledger.resumed| && Explained(diagnostics, ledger, lost)
    }

    ghost predicate Valid()
      reads this, store, store.rings.Values, store.pending.Values
    {
      store.Valid() && store.limits == limits && store.hash == image.hash && Counted()
    }

    ghost function Footprint(): set<object>
      reads this, store
    {
      {this, store} + store.rings.Values + store.pending.Values
    }

    /** The state is that of the model after the calls made so far. */
    ghost predicate Reached()
      reads this, store, store.rings.Values, store.pending.Values
    {
      LegalRun(image, limits, calls) && Model() == Run(image, limits, calls)
    }

    constructor (image: Image, limits: Limits, mode: Mode)
      ensures Valid() && Reached() && calls == [] && Model() == Start() && fresh(Footprint())
      ensures this.image == image && this.limits == limits && this.mode == mode
      ensures sources == map[] && lateSideOutput == []
    {
      this.image, this.limits, this.mode := image, limits, mode;
      store := new GraphStore(limits, image.hash);
      lastEventTime, finished, suspended, resumed, steps, diagnostics := None, false, 0, 0, [], [];
      sources, wallClock, lateSideOutput := map[], TIME_MIN, [];
      ledger := Ledger(multiset{}, multiset{}, multiset{}, multiset{}, multiset{});
      history, lost, calls := [], [], [];
    }

    method RunRule(rule: Rule, anchor: Event, origin: Option<Pending>, budget: nat) returns (left: nat)
      requires Valid()
      modifies this`steps, this`diagnostics
      ensures Valid() && (Model(), left) == EngineModel.RunRule(image, old(Model()), rule, anchor, origin, budget)
    {
      hide GraphStore.RingsValid, GraphStore.QueuesValid, GraphStore.RingSeqs, GraphStore.QueueSeqs;
      hide Bindings, Explained, AreBindings;
      if budget == 0 {
        OneMore(diagnostics, ledger, lost, RuleFiringsExceeded(anchor.scope));
        assert lost + [] == lost;
        diagnostics := diagnostics + [RuleFiringsExceeded(anchor.scope)];
        steps := steps + [Exceeded(rule, anchor, origin)];
        return 0;
      }
      left := RunBody(rule, anchor, origin, budget);
    }

    method RunBody(rule: Rule, anchor: Event, origin: Option<Pending>, budget: nat) returns (left: nat)
      requires Valid() && budget >= 1
      modifies this`steps
      ensures Valid() && (Model(), left) == EngineModel.RunRule(image, old(Model()), rule, anchor, origin, budget)
    {
      hide Bindings, Explained, AreBindings;
      var ring := if anchor.scope in store.rings then Some(store.rings[anchor.scope]) else None;
      var bindings := ResolveBindings(image, rule, anchor, ring, steps);
      steps := steps + [Ran(rule, anchor, origin, store.watermark, bindings)];
      var used := image.cascade(steps);
      left := if used >= budget - 1 then 0 else budget - 1 - used;
    }

    /** One iteration of `resume_expired`. */
    method ResumeMatch(m: Pending)
      requires Valid()
      modifies this`steps, this`diagnostics, this`resumed, this`ledger
      ensures Valid() && Model() == ResumeOne(image, limits, old(Model()), m)
    {
      hide EngineModel.RunRule, Explained, Lookup, FindRule;
      var found: Option<Event> := None;
      if m.scope in store.rings { found := store.rings[m.scope].Get(m.anchor); }
      NothingThere(m.anchor);
      if found.None? {
        Diagnose(MissingAnchor(m));
        return;
      }
      var rule := FindRule(image.rules, m.rule);
      if rule.None? {
        Diagnose(RuleNotInImage(m));
        return;
      }
      Count(m);
      var _ := RunRule(rule.value, found.value, Some(m), limits.maxFirings);
    }

    method Diagnose(d: Diagnostic)
      requires Valid() && !d.RingSpill?
      modifies this`diagnostics, this`ledger
      ensures Valid() && Model() == old(Model()).(ledger := Entered(old(ledger), d))
    {
      hide GraphStore.RingsValid, GraphStore.QueuesValid, GraphStore.RingSeqs, GraphStore.QueueSeqs;
      hide Explained;
      OneMore(diagnostics, ledger, lost, d);
      assert lost + [] == lost;
      diagnostics := diagnostics + [d];
      ledger := Entered(ledger, d);
    }

    method Count(m: Pending)
      requires Valid()
      modifies this`resumed, this`ledger
      ensures Valid() && Model() == old(Model()).(ledger := old(ledger).(resumed := old(ledger).resumed + multiset{m}))
    {
      hide GraphStore.RingsValid, GraphStore.QueuesValid, GraphStore.RingSeqs, GraphStore.QueueSeqs;
      hide Explained;
      resumed := resumed + 1;
      NoDiagnostic(diagnostics, ledger, lost, ledger.(resumed := ledger.resumed + multiset{m}));
      ledger := ledger.(resumed := ledger.resumed + multiset{m});
    }

    lemma NothingThere(id: nat)
      ensures Lookup([], id) == None
    {
    }

    method ResumeExpired(wm: Time) returns (ghost expired: seq<Pending>)
      requires Valid() && wm == store.watermark
      modifies this`steps, this`diagnostics, this`resumed, this`ledger, store.pending.Values
      ensures Valid() && PopOk(image.hash, old(store.QueueSeqs()), wm, expired)
      ensures Model() == ResumeAll(image, limits, Take(old(Model())), expired)
    {
      hide GraphStore.RingsValid, GraphStore.QueuesValid, GraphStore.RingSeqs, GraphStore.QueueSeqs;
      hide ResumeAll, Explained, PopOk, Later;
      var popped := PopExpired(wm);
      expired := popped;
      ResumeEach(popped);
    }

    method PopExpired(wm: Time) returns (popped: seq<Pending>)
      requires Valid() && wm == store.watermark
      modifies store.pending.Values
      ensures Valid() && PopOk(image.hash, old(store.QueueSeqs()), wm, popped)
      ensures Model() == Take(old(Model()))
    {
      hide GraphStore.RingsValid, GraphStore.QueuesValid, GraphStore.RingSeqs, GraphStore.QueueSeqs;
      hide Explained, PopOk, Later;
      popped := store.PopExpired(wm);
      assert store.RingSeqs() == old(store.RingSeqs());
    }

    method ResumeEach(expired: seq<Pending>)
      requires Valid()
      modifies this`steps, this`diagnostics, this`resumed, this`ledger
      ensures Valid() && Model() == ResumeAll(image, limits, old(Model()), expired)
    {
      hide GraphStore.RingsValid, GraphStore.QueuesValid, GraphStore.RingSeqs, GraphStore.QueueSeqs;
      hide ResumeOne, Explained;
      var i := 0;
      while i < |expired|
        invariant 0 <= i <= |expired| && Valid()
        invariant ResumeAll(image, limits, old(Model()), expired) == ResumeAll(image, limits, Model(), expired[i..])
      {
        assert expired[i..][1..] == expired[i + 1..];
        ResumeMatch(expired[i]);
        i := i + 1;
      }
    }

    method GcSweep(wm: Time)
      requires Valid() && wm == store.watermark
      modifies this`steps, store.rings.Values
      ensures Valid() && Model() == Sweep(limits, old(Model()))
    {
      hide GraphStore.RingsValid, GraphStore.QueuesValid, GraphStore.RingSeqs, GraphStore.QueueSeqs;
      hide Explained, From;
      CollectRings(wm);
      steps := steps + [Swept(wm)];
    }

    method CollectRings(wm: Time)
      requires Valid()
      modifies store.rings.Values
      ensures Valid()
      ensures Model() == old(Model()).(rings := map s | s in old(Model()).rings :: From(old(Model()).rings[s], Sub(wm, limits.maxLookback)))
    {
      hide GraphStore.RingsValid, GraphStore.QueuesValid, GraphStore.RingSeqs, GraphStore.QueueSeqs;
      hide Explained, From;
      var _ := store.Gc(wm);
      assert store.QueueSeqs() == old(store.QueueSeqs());
    }

    method Suspend(p: Pending)
      requires Valid()
      modifies this`suspended, this`diagnostics, this`ledger, store`pending, store.pending.Values
      ensures Valid() && fresh(store.pending.Values - old(store.pending.Values))
      ensures Model() == EngineModel.Suspend(image, limits, old(Model()), p)
    {
      hide GraphStore.RingsValid, GraphStore.QueuesValid, GraphStore.RingSeqs, GraphStore.QueueSeqs;
      hide Explained, Bounded;
      var spill := EnqueueMatch(p);
      CountSuspended(p);
      if spill.Some? { Diagnose(QueueSpill(spill.value)); }
    }

    method CountSuspended(p: Pending)
      requires Valid()
      modifies this`suspended, this`ledger
      ensures Valid() && Model() == old(Model()).(ledger := old(ledger).(suspended := old(ledger).suspended + multiset{p}))
    {
      hide GraphStore.RingsValid, GraphStore.QueuesValid, GraphStore.RingSeqs, GraphStore.QueueSeqs;
      hide Explained;
      suspended := suspended + 1;
      NoDiagnostic(diagnostics, ledger, lost, ledger.(suspended := ledger.suspended + multiset{p}));
      ledger := ledger.(suspended := ledger.suspended + multiset{p});
    }

    method EnqueueMatch(p: Pending) returns (spill: Option<Pending>)
      requires Valid()
      modifies store`pending, store.pending.Values
      ensures Valid() && fresh(store.pending.Values - old(store.pending.Values))
      ensures var (queue, dropped) := Bounded(image.hash, QueueOf(old(Model()).queues, p.scope), AtLeastOne(limits.queueCapacity), p);
              Model() == old(Model()).(queues := old(Model()).queues[p.scope := queue]) && spill == dropped
    {
      hide GraphStore.QueuesValid, GraphStore.QueueSeqs;
      hide Explained, Bounded;
      spill := store.SuspendMatch(p);
      assert store.RingSeqs() == old(store.RingSeqs());
    }

    /** One rule of `match_anchors`. */
    method MatchRule(event: Event, rule: Rule, budget: nat) returns (left: nat)
      requires Valid()
      modifies this`suspended, this`diagnostics, this`ledger, this`steps, store`pending, store.pending.Values
      ensures Valid() && fresh(store.pending.Values - old(store.pending.Values))
      ensures (Model(), left) == MatchOne(image, limits, old(Model()), budget, event, rule)
    {
      hide GraphStore.RingsValid, GraphStore.QueuesValid, GraphStore.RingSeqs, GraphStore.QueueSeqs;
      hide Explained, EngineModel.Suspend, EngineModel.RunRule;
      left := budget;
      if rule.evidence && rule.anchorKind == event.kind && rule.scopeType == image.scopeType(event.scope) && image.matches(rule, event) {
        var upper := Add(event.time, MaxForward(rule.correlates));
        if upper > store.watermark {
          Suspend(Pending(rule.id, event.id, upper, event.scope));
        } else {
          left := RunRule(rule, event, None, budget);
        }
      }
    }

    method MatchAnchors(event: Event)
      requires Valid()
      modifies this`suspended, this`diagnostics, this`ledger, this`steps, store`pending, store.pending.Values
      ensures Valid() && fresh(store.pending.Values - old(store.pending.Values))
      ensures Model() == MatchAll(image, limits, old(Model()), limits.maxFirings, event, image.rules)
    {
      hide GraphStore.RingsValid, GraphStore.QueuesValid, GraphStore.RingSeqs, GraphStore.QueueSeqs;
      hide Explained, MatchOne;
      var budget := limits.maxFirings;
      var i := 0;
      while i < |image.rules|
        invariant 0 <= i <= |image.rules| && Valid() && fresh(store.pending.Values - old(store.pending.Values))
        invariant MatchAll(image, limits, old(Model()), limits.maxFirings, event, image.rules)
               == MatchAll(image, limits, Model(), budget, event, image.rules[i..])
      {
        assert image.rules[i..][1..] == image.rules[i + 1..];
        budget := MatchRule(event, image.rules[i], budget);
        i := i + 1;
      }
    }

    method AdvanceStore(t: Time) returns (wm: Time)
      requires Valid()
      modifies store`watermark
      ensures Valid() && Model() == Ahead(old(Model()), t) && wm == store.watermark
    {
      hide Explained;
      wm := store.AdvanceWatermark(t);
      assert store.RingSeqs() == old(store.RingSeqs()) && store.QueueSeqs() == old(store.QueueSeqs());
    }

    /** `advance_live_watermark`. */
    method AdvanceLive(scope: Scope, time: Time) returns (wm: Time, target: Time)
      requires Valid()
      modifies this`sources, this`wallClock, store`watermark
      ensures Valid() && Model() == Ahead(old(Model()), target) && wm == store.watermark
      ensures wallClock == Latest(old(wallClock), time)
      ensures sources == Heard(old(sources), scope, Sub(time, limits.maxDisorder), wallClock)
      ensures IsLiveTarget(sources, wallClock, limits.idleTimeout, old(store.watermark), target)
    {
      hide GraphStore.RingsValid, GraphStore.QueuesValid, GraphStore.RingSeqs, GraphStore.QueueSeqs;
      hide Explained, IsLiveTarget;
      target := HearSource(scope, time);
      wm := AdvanceStore(target);
    }

    method HearSource(scope: Scope, time: Time) returns (least: Time)
      requires Valid()
      modifies this`sources, this`wallClock
      ensures Valid() && Model() == old(Model())
      ensures wallClock == Latest(old(wallClock), time)
      ensures sources == Heard(old(sources), scope, Sub(time, limits.maxDisorder), wallClock)
      ensures IsLiveTarget(sources, wallClock, limits.idleTimeout, store.watermark, least)
    {
      hide GraphStore.RingsValid, GraphStore.QueuesValid, GraphStore.RingSeqs, GraphStore.QueueSeqs;
      hide Explained, IsLiveTarget;
      if wallClock == TIME_MIN || time > wallClock { wallClock := time; }
      var localWm := Sub(time, limits.maxDisorder);
      if scope in sources && sources[scope].localWm > localWm { localWm := sources[scope].localWm; }
      sources := sources[scope := SourceWm(localWm, wallClock)];
      least := LiveTarget(sources, wallClock, limits.idleTimeout, store.watermark);
    }

    method PushToRing(event: Event)
      requires Valid()
      modifies this`diagnostics, this`history, this`lost, store`rings, store.rings.Values
      ensures Valid() && fresh(store.rings.Values - old(store.rings.Values))
      ensures Model() == PushEvent(limits, old(Model()), event)
    {
      hide GraphStore.RingsValid, GraphStore.QueuesValid, GraphStore.RingSeqs, GraphStore.QueueSeqs;
      hide Explained, Push;
      var spill := StoreEvent(event);
      history := history + [event];
      if spill.Some? {
        DiagnoseRing(spill.value);
      } else {
        assert lost + [] == lost;
      }
    }

    method DiagnoseRing(e: Event)
      requires Valid()
      modifies this`diagnostics, this`lost
      ensures Valid() && Model() == old(Model()).(lost := old(lost) + [e])
    {
      hide GraphStore.RingsValid, GraphStore.QueuesValid, GraphStore.RingSeqs, GraphStore.QueueSeqs;
      hide Explained;
      OneMore(diagnostics, ledger, lost, RingSpill(e));
      diagnostics := diagnostics + [RingSpill(e)];
      lost := lost + [e];
    }

    method StoreEvent(event: Event) returns (spill: Option<Event>)
      requires Valid()
      modifies store`rings, store.rings.Values
      ensures Valid() && fresh(store.rings.Values - old(store.rings.Values))
      ensures var (ring, dropped) := Push(RingOf(old(Model()).rings, event.scope), AtLeastOne(limits.ringCapacity), event);
              Model() == old(Model()).(rings := old(Model()).rings[event.scope := ring]) && spill == dropped
    {
      hide GraphStore.RingsValid, GraphStore.RingSeqs;
      hide Explained, Push;
      spill := store.PushEvent(event);
      assert store.QueueSeqs() == old(store.QueueSeqs());
    }

    /** Resume sweep, then collection, at the store's watermark. */
    method SettleAt(wm: Time) returns (ghost expired: seq<Pending>)
      requires Valid() && wm == store.watermark
      modifies this`steps, this`diagnostics, this`resumed, this`ledger, store.pending.Values, store.rings.Values
      ensures Valid() && PopOk(image.hash, old(Model()).queues, wm, expired)
      ensures Model() == Settle(image, limits, old(Model()), expired)
    {
      hide GraphStore.RingsValid, GraphStore.QueuesValid, GraphStore.RingSeqs, GraphStore.QueueSeqs;
      hide Explained, PopOk, ResumeAll, Sweep, Take;
      expired := ResumeExpired(wm);
      GcSweep(wm);
    }

    method Note(event: Event)
      requires Valid()
      modifies this`lastEventTime
      ensures Valid() && Model() == Noted(old(Model()), event)
    {
      hide GraphStore.RingsValid, GraphStore.QueuesValid, GraphStore.RingSeqs, GraphStore.QueueSeqs;
      hide Explained;
      lastEventTime := Some(Latest(if lastEventTime.Some? then lastEventTime.value else event.time, event.time));
    }

    /** Push, resume, collect, then match: the order collection safety rests on. */
    method TakeIn(event: Event, wm: Time) returns (ghost expired: seq<Pending>)
      requires Valid() && wm == store.watermark
      modifies this`diagnostics, this`history, this`lost, this`steps, this`resumed, this`suspended, this`ledger
      modifies store`rings, store`pending, store.rings.Values, store.pending.Values
      ensures Valid() && fresh(Footprint() - old(Footprint()))
      ensures PopOk(image.hash, old(Model()).queues, wm, expired)
      ensures Model() == MatchAll(image, limits, Settle(image, limits, PushEvent(limits, old(Model()), event), expired), limits.maxFirings, event, image.rules)
    {
      hide GraphStore.RingsValid, GraphStore.QueuesValid, GraphStore.RingSeqs, GraphStore.QueueSeqs;
      hide Explained, PopOk, Settle, MatchAll, Push;
      PushToRing(event);
      expired := SettleAt(wm);
      MatchAnchors(event);
    }

    ghost method Record(op: Op)
      requires Valid() && LegalRun(image, limits, calls) && Legal(image, Run(image, limits, calls), op)
      requires Model() == Do(image, limits, Run(image, limits, calls), op)
      modifies this`calls
      ensures Valid() && Reached() && calls == old(calls) + [op] && Model() == old(Model())
    {
      hide Explained, Legal, Do, GraphStore.RingsValid, GraphStore.QueuesValid, GraphStore.RingSeqs, GraphStore.QueueSeqs;
      RunSnoc(image, limits, calls, op);
      calls := calls + [op];
    }

    /** An event is discarded only if it is too late for a live engine; otherwise the call is
        the model's, at the watermark the mode asks for. */
    method Ingest(event: Event) returns (ghost op: Op)
      requires Valid() && Reached()
      modifies Footprint()
      ensures Valid() && Reached() && calls == old(calls) + [op] && fresh(Footprint() - old(Footprint()))
      ensures Legal(image, old(Model()), op) && Model() == Do(image, limits, old(Model()), op)
      ensures Policy(mode, limits, event, old(store.watermark), old(sources), old(wallClock), sources, wallClock, op)
      ensures op.Discard? <==> && mode == Live && old(store.watermark) > TIME_MIN
                               && (event.time + limits.allowedLateness <= old(store.watermark) || event.time == TIME_MIN)
      ensures lateSideOutput == if op.Discard? then old(lateSideOutput) + [event] else old(lateSideOutput)
    {
      hide GraphStore.RingsValid, GraphStore.QueuesValid, GraphStore.RingSeqs, GraphStore.QueueSeqs;
      hide Explained, Do, Legal, Policy, LegalRun, Run;
      var prevWm := store.watermark;
      var isLate := prevWm != TIME_MIN && event.time <= prevWm;
      if mode == Live && isLate && event.time <= Sub(prevWm, limits.allowedLateness) {
        op := Drop(event);
      } else {
        op := Admit(event);
      }
    }

    /** The branch of `ingest` for an event that is too late: noted, diagnosed, set aside. */
    method Drop(event: Event) returns (ghost op: Op)
      requires Valid() && Reached() && TooLate(mode, limits, store.watermark, event.time)
      modifies this`lastEventTime, this`diagnostics, this`ledger, this`lateSideOutput, this`calls
      ensures Valid() && Reached() && calls == old(calls) + [op]
      ensures Legal(image, old(Model()), op) && Model() == Do(image, limits, old(Model()), op)
      ensures op == Discard(event) && Policy(mode, limits, event, store.watermark, sources, wallClock, sources, wallClock, op)
      ensures lateSideOutput == old(lateSideOutput) + [event]
    {
      hide GraphStore.RingsValid, GraphStore.QueuesValid, GraphStore.RingSeqs, GraphStore.QueueSeqs;
      hide Explained, LegalRun, Run;
      Note(event);
      Diagnose(LateEventDropped(event));
      lateSideOutput := lateSideOutput + [event];
      op := Discard(event);
      Record(op);
    }

    /** The other branch. */
    method Admit(event: Event) returns (ghost op: Op)
      requires Valid() && Reached() && !TooLate(mode, limits, store.watermark, event.time)
      modifies Footprint()
      ensures Valid() && Reached() && calls == old(calls) + [op] && fresh(Footprint() - old(Footprint()))
      ensures Legal(image, old(Model()), op) && Model() == Do(image, limits, old(Model()), op)
      ensures op.Accept? && lateSideOutput == old(lateSideOutput)
      ensures Policy(mode, limits, event, old(store.watermark), old(sources), old(wallClock), sources, wallClock, op)
    {
      hide GraphStore.RingsValid, GraphStore.QueuesValid, GraphStore.RingSeqs, GraphStore.QueueSeqs;
      hide Explained, PopOk, Settle, MatchAll, PushEvent, Policy, TooLate, LegalRun, Run;
      Note(event);
      op := AcceptEvent(event);
      Record(op);
    }

    method MoveWatermark(event: Event) returns (wm: Time, target: Time)
      requires Valid()
      modifies this`sources, this`wallClock, store`watermark
      ensures Valid() && Model() == Ahead(old(Model()), target) && wm == store.watermark
      ensures !TooLate(mode, limits, old(store.watermark), event.time) ==>
                forall expired :: Policy(mode, limits, event, old(store.watermark), old(sources), old(wallClock),
                                         sources, wallClock, Accept(event, target, expired))
    {
      hide GraphStore.RingsValid, GraphStore.QueuesValid, GraphStore.RingSeqs, GraphStore.QueueSeqs;
      hide Explained, IsLiveTarget, Heard, TooLate;
      if mode == Offline {
        target := event.time;
        wm := AdvanceStore(event.time);
      } else {
        wm, target := AdvanceLive(event.scope, event.time);
      }
    }

    /** The rest of `ingest`, once the event is noted and not too late. */
    method AcceptEvent(event: Event) returns (ghost op: Op)
      requires Valid() && !TooLate(mode, limits, store.watermark, event.time)
      modifies Footprint()
      ensures Valid() && fresh(Footprint() - old(Footprint()))
      ensures op.Accept? && op.event == event && PopOk(image.hash, old(Model()).queues, Latest(old(store.watermark), op.target), op.expired)
      ensures Model() == MatchAll(image, limits, Settle(image, limits, PushEvent(limits, Ahead(old(Model()), op.target), event), op.expired),
                                  limits.maxFirings, event, image.rules)
      ensures calls == old(calls) && lateSideOutput == old(lateSideOutput)
      ensures Policy(mode, limits, event, old(store.watermark), old(sources), old(wallClock), sources, wallClock, op)
    {
      hide GraphStore.RingsValid, GraphStore.QueuesValid, GraphStore.RingSeqs, GraphStore.QueueSeqs;
      hide Engine.Valid, Explained, PopOk, Settle, MatchAll, PushEvent, Policy, TooLate;
      var wm, target := MoveWatermark(event);
      ghost var expired := TakeIn(event, wm);
      op := Accept(event, target, expired);
    }

    method AdvanceWatermark(t: Time) returns (ghost op: Op)
      requires Valid() && Reached()
      modifies Footprint()
      ensures Valid() && Reached() && calls == old(calls) + [op] && fresh(Footprint() - old(Footprint()))
      ensures op.Advance? && op.to == t && Legal(image, old(Model()), op) && Model() == Do(image, limits, old(Model()), op)
    {
      hide GraphStore.RingsValid, GraphStore.QueuesValid, GraphStore.RingSeqs, GraphStore.QueueSeqs;
      hide Explained, PopOk, Settle, LegalRun, Run;
      var wm := AdvanceStore(t);
      ghost var expired := SettleAt(wm);
      op := Advance(t, expired);
      Record(op);
    }

    method MarkFinished()
      requires Valid()
      modifies this`finished
      ensures Valid() && Model() == old(Model()).(finished := true)
    {
      hide GraphStore.RingsValid, GraphStore.QueuesValid, GraphStore.RingSeqs, GraphStore.QueueSeqs;
      hide Explained;
      finished := true;
    }

    /** Idempotent flush at the end of the stream. */
    method Finish() returns (ghost op: Op)
      requires Valid() && Reached()
      modifies Footprint()
      ensures Valid() && Reached() && calls == old(calls) + [op] && fresh(Footprint() - old(Footprint()))
      ensures op.Finish? && Legal(image, old(Model()), op) && Model() == Do(image, limits, old(Model()), op)
    {
      hide GraphStore.RingsValid, GraphStore.QueuesValid, GraphStore.RingSeqs, GraphStore.QueueSeqs;
      hide Explained, PopOk, Settle, LegalRun, Run;
      op := Op.Finish([]);
      if finished {
        Record(op);
        return;
      }
      MarkFinished();
      if lastEventTime.None? {
        Record(op);
        return;
      }
      var flush := Add(Add(lastEventTime.value, ImageMaxForward(image.rules)), 1);
      var wm := AdvanceStore(flush);
      ghost var expired := SettleAt(wm);
      op := Op.Finish(expired);
      Record(op);
    }
  }
}
