/** Whole streams through an engine: determinism, and streaming equals batch from the caller's
    side. */
module Replay {
  import opened Options
  import opened EventTime
  import opened Ring
  import opened Waiting
  import opened RuleImage
  import opened EngineModel
  import opened EngineSafety
  import opened EngineMatches
  import opened EngineStreaming
  import opened EngineRuntime

  // ----- determinism -----

  ghost predicate SameCall(a: Op, b: Op)
  {
    match a
    case Accept(e, target, _) => b.Accept? && b.event == e && b.target == target
    case Discard(e) => b == a
    case Advance(to, _) => b.Advance? && b.to == to
    case Finish(_) => b.Finish?
  }

  lemma {:induction false} SameStep(img: Image, lim: Limits, st: State, a: Op, b: Op)
    requires Legal(img, st, a) && Legal(img, st, b) && SameCall(a, b)
    requires forall s, t :: s in st.queues && t in st.queues && img.hash(s) == img.hash(t) ==> s == t
    ensures Do(img, lim, st, a) == Do(img, lim, st, b)
  {
    hide Settle, MatchAll, PushEvent, PopOk, NoTies;
    var wm := if a.Accept? then Latest(st.wm, a.target) else if a.Advance? then Latest(st.wm, a.to)
              else if st.last.Some? then Latest(st.wm, FlushTime(img, st.last.value)) else st.wm;
    DistinctHashesDoNotTie(img.hash, st.queues, wm);
    if !a.Discard? && PopOk(img.hash, st.queues, wm, a.expired) && PopOk(img.hash, st.queues, wm, b.expired) {
      SweepOrderIsUnique(img.hash, st.queues, wm, a.expired, b.expired);
    }
  }

  /** The scopes that occur in the calls. */
  function ScopesOf(ops: seq<Op>): set<Scope>
  {
    if ops == [] then {}
    else ScopesOf(ops[..|ops| - 1]) + (if ops[|ops| - 1].Accept? then {ops[|ops| - 1].event.scope} else {})
  }

  lemma {:induction false} MatchAllKeys(img: Image, lim: Limits, st: State, budget: nat, e: Event, rules: seq<Rule>)
    ensures MatchAll(img, lim, st, budget, e, rules).queues.Keys <= st.queues.Keys + {e.scope}
    decreases |rules|
  {
    hide RunRule, Fires, Bounded;
    if rules != [] {
      var (next, left) := MatchOne(img, lim, st, budget, e, rules[0]);
      RunKeepsQueues(img, st, rules[0], e, budget);
      assert next.queues.Keys <= st.queues.Keys + {e.scope};
      MatchAllKeys(img, lim, next, left, e, rules[1..]);
    }
  }

  lemma RunKeepsQueues(img: Image, st: State, r: Rule, e: Event, budget: nat)
    ensures EngineModel.RunRule(img, st, r, e, None, budget).0.queues == st.queues
  {
    hide Bindings;
  }

  lemma SettleKeys(img: Image, lim: Limits, st: State, expired: seq<Pending>)
    ensures Settle(img, lim, st, expired).queues.Keys == st.queues.Keys
  {
    hide ResumeAll, Later;
    ResumeAllOnlyRuns(img, lim, Take(st), expired);
  }

  lemma DoKeys(img: Image, lim: Limits, st: State, op: Op)
    ensures Do(img, lim, st, op).queues.Keys <= st.queues.Keys + (if op.Accept? then {op.event.scope} else {})
  {
    hide Settle, MatchAll, Push;
    if op.Accept? {
      var arrived := PushEvent(lim, Ahead(Noted(st, op.event), op.target), op.event);
      SettleKeys(img, lim, arrived, op.expired);
      MatchAllKeys(img, lim, Settle(img, lim, arrived, op.expired), lim.maxFirings, op.event, img.rules);
    } else if op.Advance? {
      SettleKeys(img, lim, Ahead(st, op.to), op.expired);
    } else if op.Finish? && !st.finished && st.last.Some? {
      SettleKeys(img, lim, Ahead(st.(finished := true), FlushTime(img, st.last.value)), op.expired);
    }
  }

  /** Queues exist for scopes of accepted events only. */
  lemma {:induction false} QueuesAreKnown(img: Image, lim: Limits, ops: seq<Op>)
    ensures Run(img, lim, ops).queues.Keys <= ScopesOf(ops)
  {
    hide Do;
    if ops != [] {
      QueuesAreKnown(img, lim, ops[..|ops| - 1]);
      DoKeys(img, lim, Run(img, lim, ops[..|ops| - 1]), ops[|ops| - 1]);
    }
  }

  /** The same calls give the same state, bodies run and diagnostics account, in whatever
      order the shards of the store iterate, when no two of the scopes that occur in the calls
      share a hash. */
  lemma {:induction false} RunIsDeterministic(img: Image, lim: Limits, a: seq<Op>, b: seq<Op>)
    requires LegalRun(img, lim, a) && LegalRun(img, lim, b)
    requires |a| == |b| && forall i :: 0 <= i < |a| ==> SameCall(a[i], b[i])
    requires forall s, t :: s in ScopesOf(a) && t in ScopesOf(a) && img.hash(s) == img.hash(t) ==> s == t
    ensures Run(img, lim, a) == Run(img, lim, b)
  {
    hide Do, Legal, SameCall;
    if a != [] {
      var n := |a| - 1;
      RunIsDeterministic(img, lim, a[..n], b[..n]);
      QueuesAreKnown(img, lim, a[..n]);
      SameStep(img, lim, Run(img, lim, a[..n]), a[n], b[n]);
    }
  }

  // ----- streams -----

  /** The latest time seen. */
  function LastOf(events: seq<Event>): Option<Time>
  {
    if events == [] then None
    else
      var before, e := LastOf(events[..|events| - 1]), events[|events| - 1];
      Some(Latest(if before.Some? then before.value else e.time, e.time))
  }

  /** How far behind the latest time a mode lets its watermark stay. */
  function Disorder(mode: Mode, lim: Limits): Duration { if mode == Offline then 0 else lim.maxDisorder }

  /** No watermark over these events, of whatever sources, is higher. */
  function Ceiling(events: seq<Event>, disorder: Duration): Time
  {
    var last := LastOf(events);
    if last.None? then TIME_MIN else Sub(last.value, disorder)
  }

  /** Each event is at most `disorder` behind the latest time over all sources; with `strict`,
      less than that. */
  ghost predicate InBound(events: seq<Event>, disorder: Duration, strict: bool)
  {
    events == [] ||
    (var init, e := events[..|events| - 1], events[|events| - 1];
     InBound(init, disorder, strict) && Ceiling(init, disorder) <= e.time && (strict ==> Ceiling(init, disorder) < e.time))
  }

  ghost predicate InOrder(events: seq<Event>)
  {
    forall i, j :: 0 <= i < j < |events| ==> events[i].time <= events[j].time
  }

  lemma {:induction false} LastIsLatest(events: seq<Event>)
    ensures LastOf(events).Some? <==> events != []
    ensures forall e :: e in events ==> e.time <= LastOf(events).value
    ensures events != [] ==> exists e :: e in events && e.time == LastOf(events).value
  {
    if events != [] {
      var init, e := events[..|events| - 1], events[|events| - 1];
      LastIsLatest(init);
      assert events == init + [e];
    }
  }

  lemma InOrderSnoc(init: seq<Event>, e: Event)
    ensures InOrder(init + [e]) <==> InOrder(init) && forall x :: x in init ==> x.time <= e.time
  {
    var events := init + [e];
    if InOrder(events) {
      forall x | x in init ensures x.time <= e.time {
        var i :| 0 <= i < |init| && init[i] == x;
        assert events[i].time <= events[|init|].time;
      }
      forall i, j | 0 <= i < j < |init| ensures init[i].time <= init[j].time { assert events[i].time <= events[j].time; }
    }
  }

  /** With no disorder allowed that is time order. */
  lemma {:induction false} InBoundIsInOrder(events: seq<Event>)
    ensures InBound(events, 0, false) <==> InOrder(events)
  {
    hide InOrder, LastOf;
    if events == [] {
      NoEventsInOrder();
    } else {
      var init, e := events[..|events| - 1], events[|events| - 1];
      assert events == init + [e];
      InBoundIsInOrder(init);
      InOrderSnoc(init, e);
      LastIsLatest(init);
    }
  }

  lemma NoEventsInOrder()
    ensures InOrder([])
  {
  }

  lemma SourcesStayLow(sources: map<Scope, SourceWm>, s: Scope, seen: seq<Event>, e: Event, disorder: Duration, wall: Time)
    requires forall x :: x in sources ==> sources[x].localWm <= Ceiling(seen, disorder)
    ensures Ceiling(seen, disorder) <= Ceiling(seen + [e], disorder)
    ensures Sub(e.time, disorder) <= Ceiling(seen + [e], disorder)
    ensures e.time >= Ceiling(seen, disorder) ==> Ceiling(seen + [e], disorder) <= e.time
    ensures forall x :: x in Heard(sources, s, Sub(e.time, disorder), wall) ==>
              Heard(sources, s, Sub(e.time, disorder), wall)[x].localWm <= Ceiling(seen + [e], disorder)
  {
    assert (seen + [e])[..|seen + [e]| - 1] == seen;
  }

  lemma TargetStaysLow(sources: map<Scope, SourceWm>, wall: Time, timeout: Duration, wm: Time, target: Time, ceiling: Time)
    requires IsLiveTarget(sources, wall, timeout, wm, target) && wm <= ceiling
    requires forall x :: x in sources ==> sources[x].localWm <= ceiling
    ensures target <= ceiling
  {
  }

  lemma AcceptFacts(img: Image, lim: Limits, st: State, e: Event, target: Time, expired: seq<Pending>)
    ensures var st' := Do(img, lim, st, Accept(e, target, expired));
            && st'.history == st.history + [e] && st'.wm == Latest(st.wm, target) && st'.finished == st.finished
            && st'.last == Some(Latest(if st.last.Some? then st.last.value else e.time, e.time))
  {
    hide Settle, MatchAll, Push;
    var arrived := PushEvent(lim, Ahead(Noted(st, e), target), e);
    SettleWm(img, lim, arrived, expired);
    MatchAllOnlyMatches(img, lim, Settle(img, lim, arrived, expired), lim.maxFirings, e, img.rules);
  }

  /** What holds of an engine that has been fed `seen`, in order or not. */
  ghost predicate Fed(mode: Mode, lim: Limits, st: State, sources: map<Scope, SourceWm>, seen: seq<Event>)
  {
    && !st.finished && st.last == LastOf(seen) && st.wm <= Ceiling(seen, Disorder(mode, lim))
    && (forall s :: s in sources ==> sources[s].localWm <= Ceiling(seen, Disorder(mode, lim)))
    && (mode == Offline ==> st.history == seen)
  }

  /** One more event, whatever the mode makes of it. */
  lemma {:induction false} FeedNext(img: Image, lim: Limits, mode: Mode, st: State, seen: seq<Event>, e: Event, op: Op,
                                    sources: map<Scope, SourceWm>, wall: Time, sources': map<Scope, SourceWm>, wall': Time)
    requires Fed(mode, lim, st, sources, seen) && Policy(mode, lim, e, st.wm, sources, wall, sources', wall', op)
    ensures Fed(mode, lim, Do(img, lim, st, op), sources', seen + [e])
    ensures forall strict :: InBound(seen + [e], Disorder(mode, lim), strict) ==> TimelyOp(st, op, strict)
    ensures InBound(seen + [e], Disorder(mode, lim), false) && lim.allowedLateness >= 1 ==> op.Accept?
  {
    hide Policy, Fed, Do, Ceiling, InBound, TimelyOp;
    if op.Accept? {
      AcceptNext(img, lim, mode, st, seen, e, op, sources, wall, sources', wall');
    } else {
      DropNext(img, lim, mode, st, seen, e, op, sources, wall, sources', wall');
    }
  }

  lemma {:induction false} AcceptNext(img: Image, lim: Limits, mode: Mode, st: State, seen: seq<Event>, e: Event, op: Op,
                                      sources: map<Scope, SourceWm>, wall: Time, sources': map<Scope, SourceWm>, wall': Time)
    requires Fed(mode, lim, st, sources, seen) && Policy(mode, lim, e, st.wm, sources, wall, sources', wall', op) && op.Accept?
    ensures Fed(mode, lim, Do(img, lim, st, op), sources', seen + [e])
    ensures forall strict :: InBound(seen + [e], Disorder(mode, lim), strict) ==> TimelyOp(st, op, strict)
  {
    hide Heard, Do, Ceiling, LastOf, InBound, IsLiveTarget, TimelyOp;
    LowAfter(lim, mode, st, seen, e, op, sources, wall, sources', wall');
    LastAfter(seen, e);
    AcceptFacts(img, lim, st, op.event, op.target, op.expired);
    forall strict | InBound(seen + [e], Disorder(mode, lim), strict) ensures TimelyOp(st, op, strict) {
      TimelyInBound(st, seen, e, op, Disorder(mode, lim), strict);
    }
  }

  lemma LastAfter(seen: seq<Event>, e: Event)
    ensures LastOf(seen + [e]) == Some(Latest(if LastOf(seen).Some? then LastOf(seen).value else e.time, e.time))
  {
    assert (seen + [e])[..|seen + [e]| - 1] == seen;
  }

  /** Neither the target nor a source rises above the ceiling. */
  lemma {:induction false} LowAfter(lim: Limits, mode: Mode, st: State, seen: seq<Event>, e: Event, op: Op,
                                    sources: map<Scope, SourceWm>, wall: Time, sources': map<Scope, SourceWm>, wall': Time)
    requires Fed(mode, lim, st, sources, seen) && Policy(mode, lim, e, st.wm, sources, wall, sources', wall', op) && op.Accept?
    ensures var ceiling := Ceiling(seen + [e], Disorder(mode, lim));
            st.wm <= ceiling && op.target <= ceiling && forall s :: s in sources' ==> sources'[s].localWm <= ceiling
  {
    hide IsLiveTarget, Heard, Ceiling, LastOf;
    SourcesStayLow(sources, e.scope, seen, e, Disorder(mode, lim), wall');
    if mode == Live { TargetStaysLow(sources', wall', lim.idleTimeout, st.wm, op.target, Ceiling(seen + [e], Disorder(mode, lim))); }
  }

  lemma {:induction false} TimelyInBound(st: State, seen: seq<Event>, e: Event, op: Op, disorder: Duration, strict: bool)
    requires op.Accept? && op.event == e && InBound(seen + [e], disorder, strict)
    requires st.wm <= Ceiling(seen, disorder) && op.target <= Ceiling(seen + [e], disorder)
    ensures TimelyOp(st, op, strict)
  {
    hide LastOf, Ceiling;
    assert (seen + [e])[..|seen + [e]| - 1] == seen;
    SourcesStayLow(map[], 0, seen, e, disorder, 0);
  }

  lemma {:induction false} DropNext(img: Image, lim: Limits, mode: Mode, st: State, seen: seq<Event>, e: Event, op: Op,
                                    sources: map<Scope, SourceWm>, wall: Time, sources': map<Scope, SourceWm>, wall': Time)
    requires Fed(mode, lim, st, sources, seen) && Policy(mode, lim, e, st.wm, sources, wall, sources', wall', op) && !op.Accept?
    ensures Fed(mode, lim, Do(img, lim, st, op), sources', seen + [e]) && forall strict :: TimelyOp(st, op, strict)
    ensures !(InBound(seen + [e], Disorder(mode, lim), false) && lim.allowedLateness >= 1)
  {
    hide IsLiveTarget, Heard, Do, Ceiling;
    assert (seen + [e])[..|seen + [e]| - 1] == seen;
    SourcesStayLow(sources, e.scope, seen, e, Disorder(mode, lim), wall');
    DiscardFacts(img, lim, st, e);
  }

  lemma DiscardFacts(img: Image, lim: Limits, st: State, e: Event)
    ensures Do(img, lim, st, Discard(e)) == Noted(st, e)
  {
  }

  lemma {:induction false} TimelySnoc(img: Image, lim: Limits, ops: seq<Op>, op: Op, strict: bool)
    ensures Timely(img, lim, ops + [op], strict) <==> Timely(img, lim, ops, strict) && TimelyOp(Run(img, lim, ops), op, strict)
  {
    assert (ops + [op])[..|ops + [op]| - 1] == ops;
  }

  // ----- what a finished stream promises -----

  /** No ring or queue overflowed. */
  ghost predicate NothingSpilled(ds: seq<Diagnostic>)
  {
    forall d :: d in ds ==> !d.RingSpill? && !d.QueueSpill?
  }

  lemma FirstIsMember(s: seq<Event>)
    ensures s == [] || s[0] in s
  {
  }

  lemma NothingSpilledMeans(ds: seq<Diagnostic>, ledger: Ledger, lost: seq<Event>)
    requires Explained(ds, ledger, lost) && NothingSpilled(ds)
    ensures lost == [] && ledger.spilled == multiset{}
  {
    forall e ensures e !in lost {
      assert multiset(ds)[RingSpill(e)] == multiset(lost)[e];
      assert RingSpill(e) !in ds;
    }
    FirstIsMember(lost);
    forall p ensures ledger.spilled[p] == 0 {
      assert MatchExplained(ds, ledger, p);
      assert QueueSpill(p) !in ds;
    }
  }

  /** If the diagnostics report no spill, ids are unique and the flush did not saturate, the
      matches taken up and their bindings are those of a batch over the accepted events. */
  ghost predicate BatchPromise(img: Image, lim: Limits, ds: seq<Diagnostic>, st: State, strict: bool)
  {
    && WithinLookback(img.rules, lim.maxLookback) && DistinctRules(img.rules) && lim.maxFirings >= 1
    && NothingSpilled(ds) && DistinctEvents(st.history)
    && st.last.Some? && st.last.value + ImageMaxForward(img.rules) < TIME_MAX
    ==> EqualsBatch(img, st, strict)
  }

  lemma FinishFacts(img: Image, lim: Limits, st: State, op: Op)
    requires op.Finish?
    ensures op == Finish(op.expired) && Do(img, lim, st, op).history == st.history && Do(img, lim, st, op).last == st.last
  {
    hide Settle;
    if !st.finished && st.last.Some? { SettleWm(img, lim, Ahead(st.(finished := true), FlushTime(img, st.last.value)), op.expired); }
  }

  lemma {:induction false} FinishKeepsPromise(img: Image, lim: Limits, ops: seq<Op>, op: Op, ds: seq<Diagnostic>, strict: bool)
    requires LegalRun(img, lim, ops) && op.Finish? && Legal(img, Run(img, lim, ops), op) && !Run(img, lim, ops).finished
    requires Timely(img, lim, ops, strict)
    requires var st := Run(img, lim, ops + [op]); Explained(ds, st.ledger, st.lost)
    ensures BatchPromise(img, lim, ds, Run(img, lim, ops + [op]), strict)
  {
    hide Run, LegalRun, EqualsBatch, DistinctEvents, DistinctRules, WithinLookback, Explained, Timely, Legal, NothingSpilled, Do;
    var st := Run(img, lim, ops + [op]);
    RunSnoc(img, lim, ops, op);
    FinishFacts(img, lim, Run(img, lim, ops), op);
    if && WithinLookback(img.rules, lim.maxLookback) && DistinctRules(img.rules) && lim.maxFirings >= 1
       && NothingSpilled(ds) && DistinctEvents(st.history)
       && st.last.Some? && st.last.value + ImageMaxForward(img.rules) < TIME_MAX
    {
      NothingSpilledMeans(ds, st.ledger, st.lost);
      FinishedStreamIsBatch(img, lim, ops, op.expired, strict);
    }
  }

  // ----- replay -----

  /** What an engine fed `seen` owes them: a timely run if they were in bound, and every one
      of them accepted if the mode does not drop such events. */
  ghost predicate Progress(img: Image, lim: Limits, mode: Mode, calls: seq<Op>, history: seq<Event>, seen: seq<Event>)
  {
    && (forall strict :: InBound(seen, Disorder(mode, lim), strict) ==> Timely(img, lim, calls, strict))
    && (mode == Offline || (InBound(seen, Disorder(mode, lim), false) && lim.allowedLateness >= 1) ==> history == seen)
  }

  lemma {:induction false} ProgressNext(img: Image, lim: Limits, mode: Mode, calls: seq<Op>, seen: seq<Event>, e: Event, op: Op,
                                        sources: map<Scope, SourceWm>, wall: Time, sources': map<Scope, SourceWm>, wall': Time)
    requires var st := Run(img, lim, calls);
             && Fed(mode, lim, st, sources, seen) && Policy(mode, lim, e, st.wm, sources, wall, sources', wall', op)
             && Progress(img, lim, mode, calls, st.history, seen)
    ensures var st' := Run(img, lim, calls + [op]);
            Fed(mode, lim, st', sources', seen + [e]) && Progress(img, lim, mode, calls + [op], st'.history, seen + [e])
  {
    hide Fed, InBound, Do, Policy, Run, Timely, TimelyOp;
    var st := Run(img, lim, calls);
    RunSnoc(img, lim, calls, op);
    FeedNext(img, lim, mode, st, seen, e, op, sources, wall, sources', wall');
    HistoryGrows(img, lim, mode, st, e, op, sources, wall, sources', wall');
    forall strict | InBound(seen + [e], Disorder(mode, lim), strict) ensures Timely(img, lim, calls + [op], strict) {
      InBoundBefore(seen, e, Disorder(mode, lim), strict);
      TimelySnoc(img, lim, calls, op, strict);
    }
    InBoundBefore(seen, e, Disorder(mode, lim), false);
    if mode == Offline { OfflineAccepts(lim, e, st.wm, sources, wall, sources', wall', op); }
  }

  lemma OfflineAccepts(lim: Limits, e: Event, wm: Time, sources: map<Scope, SourceWm>, wall: Time,
                       sources': map<Scope, SourceWm>, wall': Time, op: Op)
    requires Policy(Offline, lim, e, wm, sources, wall, sources', wall', op)
    ensures op.Accept?
  {
  }

  method FeedOne(engine: Engine, ghost seen: seq<Event>, event: Event)
    requires engine.Valid() && engine.Reached() && Fed(engine.mode, engine.limits, engine.Model(), engine.sources, seen)
    requires Progress(engine.image, engine.limits, engine.mode, engine.calls, engine.Model().history, seen)
    modifies engine.Footprint()
    ensures engine.Valid() && engine.Reached() && fresh(engine.Footprint() - old(engine.Footprint()))
    ensures Fed(engine.mode, engine.limits, engine.Model(), engine.sources, seen + [event])
    ensures Progress(engine.image, engine.limits, engine.mode, engine.calls, engine.Model().history, seen + [event])
  {
    hide Fed, Progress, Explained, Do, Legal, Policy, Run, LegalRun;
    ghost var before := engine.calls;
    ghost var sources, wall := engine.sources, engine.wallClock;
    ghost var op := engine.Ingest(event);
    ProgressNext(engine.image, engine.limits, engine.mode, before, seen, event, op, sources, wall, engine.sources, engine.wallClock);
  }

  lemma HistoryGrows(img: Image, lim: Limits, mode: Mode, st: State, e: Event, op: Op,
                     sources: map<Scope, SourceWm>, wall: Time, sources': map<Scope, SourceWm>, wall': Time)
    requires Policy(mode, lim, e, st.wm, sources, wall, sources', wall', op)
    ensures Do(img, lim, st, op).history == st.history + (if op.Accept? then [e] else [])
  {
    hide Do, IsLiveTarget, Heard;
    if op.Accept? { AcceptFacts(img, lim, st, e, op.target, op.expired); } else {
      DiscardFacts(img, lim, st, e);
      assert st.history + [] == st.history;
    }
  }

  /** Feeds a stream to a fresh engine and flushes it.  Whatever the stream, if each event came
      within the disorder bound of the mode, the batch promise holds; offline that bound is
      time order.  Offline no event is dropped, nor live within the bound if the allowed
      lateness is positive. */
  method ReplayStream(image: Image, limits: Limits, mode: Mode, events: seq<Event>) returns (engine: Engine)
    ensures fresh(engine) && engine.Valid() && engine.Reached() && engine.Model().last == LastOf(events)
    ensures mode == Offline || (InBound(events, limits.maxDisorder, false) && limits.allowedLateness >= 1) ==> engine.Model().history == events
    ensures forall strict :: InBound(events, Disorder(mode, limits), strict) ==> BatchPromise(image, limits, engine.diagnostics, engine.Model(), strict)
  {
    hide BatchPromise, Fed, Progress, Engine.Valid, Engine.Reached, Explained, Do, Legal, Run, LegalRun, Timely, LastOf, Ceiling, InBound;
    engine := new Engine(image, limits, mode);
    FedNothing(image, limits, mode);
    var i := 0;
    while i < |events|
      invariant 0 <= i <= |events| && engine.Valid() && engine.Reached() && fresh(engine.Footprint())
      invariant engine.image == image && engine.limits == limits && engine.mode == mode
      invariant Fed(mode, limits, engine.Model(), engine.sources, events[..i])
      invariant Progress(image, limits, mode, engine.calls, engine.Model().history, events[..i])
    {
      assert events[..i + 1] == events[..i] + [events[i]];
      FeedOne(engine, events[..i], events[i]);
      i := i + 1;
    }
    assert events[..i] == events;
    FinishStream(engine, events);
  }

  method FinishStream(engine: Engine, ghost seen: seq<Event>)
    requires engine.Valid() && engine.Reached() && Fed(engine.mode, engine.limits, engine.Model(), engine.sources, seen)
    requires Progress(engine.image, engine.limits, engine.mode, engine.calls, engine.Model().history, seen)
    modifies engine.Footprint()
    ensures engine.Valid() && engine.Reached() && fresh(engine.Footprint() - old(engine.Footprint()))
    ensures engine.Model().last == LastOf(seen)
    ensures engine.mode == Offline || (InBound(seen, engine.limits.maxDisorder, false) && engine.limits.allowedLateness >= 1) ==>
              engine.Model().history == seen
    ensures forall strict :: InBound(seen, Disorder(engine.mode, engine.limits), strict)
              ==> BatchPromise(engine.image, engine.limits, engine.diagnostics, engine.Model(), strict)
  {
    hide BatchPromise, Explained, Do, Legal, Run, LegalRun, Timely, LastOf, Ceiling, InBound;
    ghost var before, st := engine.calls, engine.Model();
    ghost var op := engine.Finish();
    FinishFacts(engine.image, engine.limits, st, op);
    forall strict | InBound(seen, Disorder(engine.mode, engine.limits), strict)
      ensures BatchPromise(engine.image, engine.limits, engine.diagnostics, engine.Model(), strict)
    {
      FinishKeepsPromise(engine.image, engine.limits, before, op, engine.diagnostics, strict);
    }
  }

  lemma FirstTarget(lim: Limits, wm: Time, wall: Time, wall': Time, sources: map<Scope, SourceWm>, op: Op)
    requires lim.maxDisorder == 0 && lim.idleTimeout >= 1 && wm == TIME_MIN
    requires Policy(Live, lim, Event(1, 0, 100, 0), wm, map[], wall, sources, wall', op)
    ensures op.Accept? && op.target == 100
  {
    assert 0 in sources && !Idle(sources[0], wall', lim.idleTimeout);
  }

  /** A bound per source is not enough: each source here sends one event, yet the second
      event is accepted behind the watermark that the first one brought about. */
  method SecondSourceFallsBehind(image: Image, limits: Limits) returns (engine: Engine)
    requires limits.maxDisorder == 0 && limits.allowedLateness == 60 && limits.idleTimeout >= 1
    ensures engine.image == image && engine.limits == limits && engine.mode == Live && engine.Reached()
    ensures var calls := engine.calls;
            && |calls| == 2 && calls[0].Accept? && calls[1].Accept?
            && calls[0].event == Event(1, 0, 100, 0) && calls[1].event == Event(2, 0, 50, 1)
            && !Timely(image, limits, calls, false)
  {
    hide Engine.Valid, Do, Legal;
    engine := new Engine(image, limits, Live);
    ghost var start, before := engine.Model(), engine.wallClock;
    ghost var a := engine.Ingest(Event(1, 0, 100, 0));
    FirstTarget(limits, start.wm, before, engine.wallClock, engine.sources, a);
    AcceptFacts(image, limits, start, a.event, a.target, a.expired);
    assert engine.Model().wm == 100;
    ghost var b := engine.Ingest(Event(2, 0, 50, 1));
    assert engine.calls[..1] == [a];
  }

  lemma InBoundBefore(seen: seq<Event>, e: Event, disorder: Duration, strict: bool)
    ensures InBound(seen + [e], disorder, strict) ==> InBound(seen, disorder, strict)
  {
    assert (seen + [e])[..|seen + [e]| - 1] == seen;
  }

  lemma FedNothing(img: Image, lim: Limits, mode: Mode)
    ensures Fed(mode, lim, Start(), map[], []) && Progress(img, lim, mode, [], [], [])
  {
  }
}
