/** Streaming equals batch: when no event arrives behind the watermark, each run sees the
    bindings that a batch over the whole stream computes. */
module EngineStreaming {
  import opened Options
  import opened EventTime
  import opened Ring
  import opened Waiting
  import opened RuleImage
  import opened EngineModel
  import opened EngineSafety
  import opened EngineMatches

  // ----- the reference: the whole history of a scope, in (time, arrival) order -----

  function Log(history: seq<Event>, s: Scope): seq<Event>
  {
    if history == [] then []
    else
      var before := Log(history[..|history| - 1], s);
      var e := history[|history| - 1];
      if e.scope == s then Insert(before, e) else before
  }

  /** The log is that scope's history, sorted. */
  lemma {:induction false} LogIsSorted(history: seq<Event>, s: Scope)
    ensures Sorted(Log(history, s))
    ensures forall e :: e in Log(history, s) <==> e in history && e.scope == s
  {
    if history != [] {
      var init, e := history[..|history| - 1], history[|history| - 1];
      LogIsSorted(init, s);
      InsertKeepsOrder(Log(init, s), e);
      assert history == init + [e];
    }
  }

  lemma LogSnoc(history: seq<Event>, e: Event, s: Scope)
    ensures Log(history + [e], s) == if e.scope == s then Insert(Log(history, s), e) else Log(history, s)
  {
    assert (history + [e])[..|history + [e]| - 1] == history;
  }

  ghost predicate ExactRing(st: State, s: Scope, horizon: Time)
  {
    From(RingOf(st.rings, s), horizon) == From(Log(st.history, s), horizon)
  }

  /** From `horizon` on, each ring is its scope's log, unless some ring overflowed. */
  ghost predicate Exact(st: State, horizon: Time)
  {
    st.lost == [] ==> forall s :: ExactRing(st, s, horizon)
  }

  lemma PushIsExact(lim: Limits, st: State, e: Event, horizon: Time)
    requires RingsOk(lim, st) && Exact(st, horizon)
    ensures Exact(PushEvent(lim, st, e), horizon)
  {
    hide Log, Between, Insert;
    var st' := PushEvent(lim, st, e);
    if st'.lost == [] {
      assert st.lost == [];
      forall s ensures ExactRing(st', s, horizon) {
        assert ExactRing(st, s, horizon);
        LogSnoc(st.history, e, s);
        LogIsSorted(st.history, s);
        if s == e.scope {
          var ring := RingOf(st.rings, s);
          InsertThenFrom(ring, e, horizon);
          InsertThenFrom(Log(st.history, s), e, horizon);
        }
      }
    }
  }

  lemma LaterHorizon(a: seq<Event>, b: seq<Event>, lo: Time, lo': Time, hi': Time)
    requires From(a, lo) == From(b, lo) && lo <= lo'
    ensures Between(a, lo', hi') == Between(b, lo', hi')
  {
    BetweenNested(a, lo, TIME_MAX, lo', hi');
    BetweenNested(b, lo, TIME_MAX, lo', hi');
  }

  lemma SweepIsExact(lim: Limits, st: State, horizon: Time)
    requires Exact(st, horizon) && horizon <= Sub(st.wm, lim.maxLookback)
    ensures Exact(Sweep(lim, st), Sub(st.wm, lim.maxLookback))
  {
    hide Log, Between;
    var st', cutoff := Sweep(lim, st), Sub(st.wm, lim.maxLookback);
    if st'.lost == [] {
      forall s ensures ExactRing(st', s, cutoff) {
        assert ExactRing(st, s, horizon);
        SweptScope(lim, st, s);
        var ring := RingOf(st.rings, s);
        BetweenNested(ring, cutoff, TIME_MAX, cutoff, TIME_MAX);
        LaterHorizon(ring, Log(st.history, s), horizon, cutoff, TIME_MAX);
      }
    }
  }

  lemma SweptScope(lim: Limits, st: State, s: Scope)
    ensures RingOf(Sweep(lim, st).rings, s) == From(RingOf(st.rings, s), Sub(st.wm, lim.maxLookback))
  {
  }

  // ----- bindings depend on the windows only -----

  ghost predicate SameWindows(rule: Rule, t: Time, a: seq<Event>, b: seq<Event>)
  {
    forall c :: c in rule.correlates && c.window.Calculable? ==>
      Between(a, Sub(t, c.window.back), Add(t, c.window.forward)) == Between(b, Sub(t, c.window.back), Add(t, c.window.forward))
  }

  lemma {:induction false} SameBindings(img: Image, rule: Rule, k: nat, anchor: Event, a: seq<Event>, b: seq<Event>, trace: seq<Step>)
    requires k <= |rule.correlates| && SameWindows(rule, anchor.time, a, b)
    ensures Resolve(img, rule, k, anchor, a, trace) == Resolve(img, rule, k, anchor, b, trace)
  {
    if k > 0 {
      SameBindings(img, rule, k - 1, anchor, a, b, trace);
      SameOne(img, rule, k - 1, Resolve(img, rule, k - 1, anchor, a, trace), anchor, a, b, trace);
    }
  }

  lemma SameOne(img: Image, rule: Rule, k: nat, prev: seq<Binding>, anchor: Event, a: seq<Event>, b: seq<Event>, trace: seq<Step>)
    requires k < |rule.correlates| && SameWindows(rule, anchor.time, a, b)
    ensures ResolveOne(img, rule, k, prev, anchor, a, trace) == ResolveOne(img, rule, k, prev, anchor, b, trace)
  {
    assert rule.correlates[k] in rule.correlates;
  }

  lemma RingWindows(img: Image, lim: Limits, st: State, rule: Rule, anchor: Event, horizon: Time)
    requires ExactRing(st, anchor.scope, horizon)
    requires forall c :: c in rule.correlates && c.window.Calculable? ==> horizon <= Sub(anchor.time, c.window.back)
    ensures SameWindows(rule, anchor.time, RingOf(st.rings, anchor.scope), Log(st.history, anchor.scope))
  {
    hide Between, Log;
    forall c | c in rule.correlates && c.window.Calculable?
      ensures Between(RingOf(st.rings, anchor.scope), Sub(anchor.time, c.window.back), Add(anchor.time, c.window.forward))
           == Between(Log(st.history, anchor.scope), Sub(anchor.time, c.window.back), Add(anchor.time, c.window.forward))
    {
      LaterHorizon(RingOf(st.rings, anchor.scope), Log(st.history, anchor.scope), horizon,
                   Sub(anchor.time, c.window.back), Add(anchor.time, c.window.forward));
    }
  }

  /** An event past a rule's deadline changes none of its windows. */
  lemma ClosedWindows(rule: Rule, anchor: Event, history: seq<Event>, e: Event)
    requires Deadline(rule, anchor) < e.time
    ensures SameWindows(rule, anchor.time, Log(history, anchor.scope), Log(history + [e], anchor.scope))
  {
    hide Between, Insert, Log;
    LogSnoc(history, e, anchor.scope);
    MaxForwardBounds(rule.correlates);
    forall c | c in rule.correlates && c.window.Calculable?
      ensures Between(Log(history, anchor.scope), Sub(anchor.time, c.window.back), Add(anchor.time, c.window.forward))
           == Between(Log(history + [e], anchor.scope), Sub(anchor.time, c.window.back), Add(anchor.time, c.window.forward))
    {
      InsertOutside(Log(history, anchor.scope), e, Sub(anchor.time, c.window.back), Add(anchor.time, c.window.forward));
    }
  }

  // ----- the steps of a run -----

  /** What is known of each step: which match it takes up, and, for runs whose windows are
      closed, that its bindings are those of a batch over `history`. */
  ghost predicate BatchStep(img: Image, history: seq<Event>, wm: Time, trace: seq<Step>, k: nat, strict: bool)
    requires k < |trace|
  {
    !trace[k].Swept? ==>
      var rule, anchor, origin := trace[k].rule, trace[k].anchor, trace[k].origin;
      && anchor in history && (origin.Some? ==> origin.value == PendingOf(rule, anchor))
      && (origin.None? ==> Deadline(rule, anchor) <= anchor.time)
      && (trace[k].Ran? && (strict || origin.Some?) ==>
            && (if origin.Some? then Deadline(rule, anchor) < wm else Deadline(rule, anchor) <= wm)
            && trace[k].bindings == Bindings(img, rule, anchor, Log(history, anchor.scope), trace[..k]))
  }

  ghost predicate BatchRuns(img: Image, history: seq<Event>, wm: Time, trace: seq<Step>, strict: bool)
  {
    forall k :: 0 <= k < |trace| ==> BatchStep(img, history, wm, trace, k, strict)
  }

  lemma BatchSnoc(img: Image, history: seq<Event>, wm: Time, trace: seq<Step>, step: Step, strict: bool)
    requires BatchRuns(img, history, wm, trace, strict)
    requires BatchStep(img, history, wm, trace + [step], |trace|, strict)
    ensures BatchRuns(img, history, wm, trace + [step], strict)
  {
    hide Bindings, Log;
    forall k | 0 <= k < |trace| ensures BatchStep(img, history, wm, trace + [step], k, strict) {
      assert BatchStep(img, history, wm, trace, k, strict);
      assert (trace + [step])[..k] == trace[..k];
    }
  }

  /** The watermark may move on. */
  lemma BatchLater(img: Image, history: seq<Event>, wm: Time, wm': Time, trace: seq<Step>, strict: bool)
    requires BatchRuns(img, history, wm, trace, strict) && wm <= wm'
    ensures BatchRuns(img, history, wm', trace, strict)
  {
    hide Bindings, Log, Deadline;
    forall k | 0 <= k < |trace| ensures BatchStep(img, history, wm', trace, k, strict) {
      assert BatchStep(img, history, wm, trace, k, strict);
    }
  }

  /** An event that is not behind the watermark changes no earlier run's bindings. */
  lemma BatchPush(img: Image, history: seq<Event>, wm: Time, trace: seq<Step>, e: Event, strict: bool)
    requires BatchRuns(img, history, wm, trace, strict) && wm <= e.time && (strict ==> wm < e.time)
    ensures BatchRuns(img, history + [e], wm, trace, strict)
  {
    hide Log, Deadline, Resolve;
    forall k | 0 <= k < |trace| ensures BatchStep(img, history + [e], wm, trace, k, strict) {
      assert BatchStep(img, history, wm, trace, k, strict);
      var step := trace[k];
      if step.Ran? && (strict || step.origin.Some?) {
        var s := step.anchor.scope;
        ClosedWindows(step.rule, step.anchor, history, e);
        SameBindings(img, step.rule, |step.rule.correlates|, step.anchor, Log(history, s), Log(history + [e], s), trace[..k]);
      }
    }
  }

  /** The body of one rule, run with its windows closed and inside the horizon. */
  lemma RunIsBatch(img: Image, lim: Limits, st: State, rule: Rule, anchor: Event, origin: Option<Pending>, budget: nat, horizon: Time, strict: bool)
    requires BatchRuns(img, st.history, st.wm, st.trace, strict)
    requires anchor in st.history
    requires if origin.Some? then origin.value == PendingOf(rule, anchor) else Deadline(rule, anchor) <= anchor.time
    requires (strict || origin.Some?) ==>
      && ExactRing(st, anchor.scope, horizon)
      && (if origin.Some? then Deadline(rule, anchor) < st.wm else Deadline(rule, anchor) <= st.wm)
      && (forall c :: c in rule.correlates && c.window.Calculable? ==> horizon <= Sub(anchor.time, c.window.back))
    ensures BatchRuns(img, st.history, st.wm, RunRule(img, st, rule, anchor, origin, budget).0.trace, strict)
  {
    hide Log, Deadline, Resolve, BatchRuns, ExactRing;
    var ring, log := RingOf(st.rings, anchor.scope), Log(st.history, anchor.scope);
    if strict || origin.Some? {
      RingWindows(img, lim, st, rule, anchor, horizon);
      SameBindings(img, rule, |rule.correlates|, anchor, ring, log, st.trace);
    }
    if budget == 0 {
      BatchSnoc(img, st.history, st.wm, st.trace, Exceeded(rule, anchor, origin), strict);
    } else {
      var step := Ran(rule, anchor, origin, st.wm, Bindings(img, rule, anchor, ring, st.trace));
      assert (st.trace + [step])[..|st.trace|] == st.trace;
      BatchSnoc(img, st.history, st.wm, st.trace, step, strict);
    }
  }

  // ----- resuming and matching -----

  lemma FindRuleIs(rules: seq<Rule>, r: Rule)
    requires DistinctRules(rules) && r in rules
    ensures FindRule(rules, r.id) == Some(r)
  {
    FindRuleFinds(rules, r);
    var i :| 0 <= i < |rules| && rules[i] == r;
    var j :| 0 <= j < |rules| && rules[j] == FindRule(rules, r.id).value;
  }

  lemma SameEvent(history: seq<Event>, a: Event, b: Event)
    requires DistinctEvents(history) && a in history && b in history && a.id == b.id && a.scope == b.scope
    ensures a == b
  {
    var i :| 0 <= i < |history| && history[i] == a;
    var j :| 0 <= j < |history| && history[j] == b;
  }

  /** What the engine looks up for a pending match is the rule and event it came from. */
  lemma ResumesItsOwn(img: Image, lim: Limits, st: State, m: Pending, floor: Time) returns (r: Rule, a: Event)
    requires WithinLookback(img.rules, lim.maxLookback) && DistinctRules(img.rules) && DistinctEvents(st.history)
    requires RingsOk(lim, st) && Covered(st, Sub(floor, lim.maxLookback)) && st.lost == []
    requires Justified(img, st.history, m) && floor <= m.upper
    ensures r in img.rules && a in st.history && Fires(img, r, a) && m == PendingOf(r, a)
    ensures Lookup(RingOf(st.rings, m.scope), m.anchor) == Some(a) && FindRule(img.rules, m.rule) == Some(r)
  {
    hide Sorted;
    r, a :| r in img.rules && a in st.history && Fires(img, r, a) && m == PendingOf(r, a);
    FindRuleIs(img.rules, r);
    AnchorIsThere(img, lim, st, floor, m);
    var found := Lookup(RingOf(st.rings, m.scope), m.anchor).value;
    SameEvent(st.history, a, found);
  }

  lemma ResumeOneIsBatch(img: Image, lim: Limits, st: State, m: Pending, floor: Time, strict: bool)
    requires WithinLookback(img.rules, lim.maxLookback) && DistinctRules(img.rules) && DistinctEvents(st.history)
    requires RingsOk(lim, st) && Covered(st, Sub(floor, lim.maxLookback)) && st.lost == []
    requires Justified(img, st.history, m) && floor <= m.upper < st.wm
    requires Exact(st, Sub(floor, lim.maxLookback)) && BatchRuns(img, st.history, st.wm, st.trace, strict)
    ensures BatchRuns(img, st.history, st.wm, ResumeOne(img, lim, st, m).trace, strict)
  {
    hide RunRule, Justified, Covered, RingsOk, Fires, DistinctEvents, BatchRuns, ExactRing, Lookup, FindRule, WithinLookback;
    var r, a := ResumesItsOwn(img, lim, st, m, floor);
    forall c | c in r.correlates && c.window.Calculable? ensures Sub(floor, lim.maxLookback) <= Sub(a.time, c.window.back) {
      OpenWindows(img.rules, r, r, c, a.time, lim.maxLookback, floor);
    }
    var counted := st.(ledger := st.ledger.(resumed := st.ledger.resumed + multiset{m}));
    SameRing(st, counted, a.scope, Sub(floor, lim.maxLookback));
    RunIsBatch(img, lim, counted, r, a, Some(m), lim.maxFirings, Sub(floor, lim.maxLookback), strict);
  }

  lemma SameRing(st: State, st': State, s: Scope, horizon: Time)
    requires st'.rings == st.rings && st'.history == st.history && ExactRing(st, s, horizon)
    ensures ExactRing(st', s, horizon)
  {
  }

  lemma OnlyRanKeeps(lim: Limits, st: State, st': State, horizon: Time)
    requires OnlyRan(st, st') && RingsOk(lim, st) && Covered(st, horizon) && Exact(st, horizon)
    ensures RingsOk(lim, st') && Covered(st', horizon) && Exact(st', horizon)
  {
    hide Sorted, Between, Log;
    if st'.lost == [] {
      forall s ensures ExactRing(st', s, horizon) { SameRing(st, st', s, horizon); }
    }
  }

  lemma {:induction false} ResumeAllIsBatch(img: Image, lim: Limits, st: State, expired: seq<Pending>, floor: Time, strict: bool)
    requires WithinLookback(img.rules, lim.maxLookback) && DistinctRules(img.rules) && DistinctEvents(st.history)
    requires RingsOk(lim, st) && Covered(st, Sub(floor, lim.maxLookback)) && st.lost == []
    requires forall p :: p in expired ==> floor <= p.upper < st.wm && Justified(img, st.history, p)
    requires Exact(st, Sub(floor, lim.maxLookback)) && BatchRuns(img, st.history, st.wm, st.trace, strict)
    ensures BatchRuns(img, st.history, st.wm, ResumeAll(img, lim, st, expired).trace, strict)
    decreases |expired|
  {
    hide ResumeOne, BatchRuns, Exact, Covered, RingsOk, Justified, DistinctEvents, DistinctRules, WithinLookback;
    if expired != [] {
      var next := ResumeOne(img, lim, st, expired[0]);
      ResumeOneIsBatch(img, lim, st, expired[0], floor, strict);
      ResumeOneOnlyRuns(img, lim, st, expired[0]);
      OnlyRanKeeps(lim, st, next, Sub(floor, lim.maxLookback));
      ResumeAllIsBatch(img, lim, next, expired[1..], floor, strict);
    }
  }

  lemma MatchOneIsBatch(img: Image, lim: Limits, st: State, budget: nat, e: Event, r: Rule, strict: bool)
    requires WithinLookback(img.rules, lim.maxLookback) && r in img.rules && st.wm <= e.time && st.lost == [] && e in st.history
    requires Exact(st, Sub(st.wm, lim.maxLookback)) && BatchRuns(img, st.history, st.wm, st.trace, strict)
    ensures var st' := MatchOne(img, lim, st, budget, e, r).0;
            Exact(st', Sub(st.wm, lim.maxLookback)) && BatchRuns(img, st.history, st.wm, st'.trace, strict)
  {
    hide RunRule, BatchRuns, ExactRing, Fires, Bounded, WithinLookback;
    var horizon := Sub(st.wm, lim.maxLookback);
    var st' := MatchOne(img, lim, st, budget, e, r).0;
    MatchOneOnlyMatches(img, lim, st, budget, e, r);
    forall s ensures ExactRing(st', s, horizon) { SameRing(st, st', s, horizon); }
    if Fires(img, r, e) && Deadline(r, e) <= st.wm {
      forall c | c in r.correlates && c.window.Calculable? ensures horizon <= Sub(e.time, c.window.back) {
        OpenWindows(img.rules, r, r, c, e.time, lim.maxLookback, st.wm);
      }
      RunIsBatch(img, lim, st, r, e, None, budget, horizon, strict);
    }
  }

  lemma {:induction false} MatchAllIsBatch(img: Image, lim: Limits, st: State, budget: nat, e: Event, rules: seq<Rule>, strict: bool)
    requires WithinLookback(img.rules, lim.maxLookback) && st.wm <= e.time && st.lost == [] && e in st.history
    requires forall r :: r in rules ==> r in img.rules
    requires Exact(st, Sub(st.wm, lim.maxLookback)) && BatchRuns(img, st.history, st.wm, st.trace, strict)
    ensures var st' := MatchAll(img, lim, st, budget, e, rules);
            Exact(st', Sub(st.wm, lim.maxLookback)) && BatchRuns(img, st.history, st.wm, st'.trace, strict)
    decreases |rules|
  {
    hide MatchOne, BatchRuns, Exact, WithinLookback;
    if rules != [] {
      var (next, left) := MatchOne(img, lim, st, budget, e, rules[0]);
      MatchOneIsBatch(img, lim, st, budget, e, rules[0], strict);
      MatchOneOnlyMatches(img, lim, st, budget, e, rules[0]);
      MatchAllIsBatch(img, lim, next, left, e, rules[1..], strict);
    }
  }

  ghost predicate Streamed(img: Image, lim: Limits, st: State, floor: Time, strict: bool)
  {
    Exact(st, Sub(floor, lim.maxLookback)) && BatchRuns(img, st.history, st.wm, st.trace, strict)
  }

  lemma SettleIsBatch(img: Image, lim: Limits, st: State, floor: Time, expired: seq<Pending>, strict: bool)
    requires WithinLookback(img.rules, lim.maxLookback) && DistinctRules(img.rules) && DistinctEvents(st.history)
    requires Sound(img, lim, st, floor) && floor <= st.wm && st.lost == [] && PopOk(img.hash, st.queues, st.wm, expired)
    requires Streamed(img, lim, st, floor, strict)
    ensures Streamed(img, lim, Settle(img, lim, st, expired), st.wm, strict)
  {
    hide ResumeAll, BatchRuns, RingsOk, Covered, Justified, DistinctEvents, DistinctRules, WithinLookback, Balanced, LossExplained;
    var taken, horizon := Take(st), Sub(floor, lim.maxLookback);
    TakenAreDue(img, lim, st, floor, expired);
    TakeOnlyPops(lim, st, horizon);
    ResumeAllIsBatch(img, lim, taken, expired, floor, strict);
    ResumeAllOnlyRuns(img, lim, taken, expired);
    var resumed := ResumeAll(img, lim, taken, expired);
    OnlyRanKeeps(lim, taken, resumed, horizon);
    SweepIsExact(lim, resumed, horizon);
    BatchSnoc(img, st.history, st.wm, resumed.trace, Swept(st.wm), strict);
  }

  lemma TakeOnlyPops(lim: Limits, st: State, horizon: Time)
    requires RingsOk(lim, st) && Covered(st, horizon) && Exact(st, horizon)
    ensures var taken := Take(st);
            && RingsOk(lim, taken) && Covered(taken, horizon) && Exact(taken, horizon)
            && taken.history == st.history && taken.wm == st.wm && taken.trace == st.trace && taken.lost == st.lost
  {
    hide Sorted, Between, Log;
    if st.lost == [] {
      forall s ensures ExactRing(Take(st), s, horizon) { SameRing(st, Take(st), s, horizon); }
    }
  }

  // ----- whole runs -----

  /** No event arrives behind the watermark it brings about; with `strict`, each is later
      than every watermark before. */
  ghost predicate TimelyOp(st: State, op: Op, strict: bool)
  {
    op.Accept? ==> Latest(st.wm, op.target) <= op.event.time && (strict ==> st.wm < op.event.time)
  }

  ghost predicate Timely(img: Image, lim: Limits, ops: seq<Op>, strict: bool)
  {
    ops == [] ||
    (Timely(img, lim, ops[..|ops| - 1], strict) && TimelyOp(Run(img, lim, ops[..|ops| - 1]), ops[|ops| - 1], strict))
  }

  lemma MoveIsStreamed(img: Image, lim: Limits, st: State, floor: Time, st': State, strict: bool)
    requires Streamed(img, lim, st, floor, strict) && st.wm <= st'.wm
    requires st' == st.(last := st'.last, wm := st'.wm, finished := st'.finished)
    ensures Streamed(img, lim, st', floor, strict)
  {
    hide ExactRing, BatchRuns;
    BatchLater(img, st.history, st.wm, st'.wm, st.trace, strict);
    if st.lost == [] {
      forall s ensures ExactRing(st', s, Sub(floor, lim.maxLookback)) { SameRing(st, st', s, Sub(floor, lim.maxLookback)); }
    }
  }

  lemma AcceptIsBatch(img: Image, lim: Limits, st: State, e: Event, target: Time, expired: seq<Pending>, strict: bool)
    requires WithinLookback(img.rules, lim.maxLookback) && DistinctRules(img.rules)
    requires Sound(img, lim, st, st.wm) && Streamed(img, lim, st, st.wm, strict)
    requires Legal(img, st, Accept(e, target, expired)) && TimelyOp(st, Accept(e, target, expired), strict)
    requires var st' := Do(img, lim, st, Accept(e, target, expired)); st'.lost == [] && DistinctEvents(st'.history)
    ensures var st' := Do(img, lim, st, Accept(e, target, expired)); Streamed(img, lim, st', st'.wm, strict)
  {
    hide Sound, Settle, MatchAll, Push, PopOk, BatchRuns, Exact, WithinLookback, DistinctEvents, DistinctRules;
    var noted := Ahead(Noted(st, e), target);
    var arrived := PushEvent(lim, noted, e);
    ArrivalIsSound(img, lim, st, e, target);
    var settled := Settle(img, lim, arrived, expired);
    SettleWm(img, lim, arrived, expired);
    MatchAllOnlyMatches(img, lim, settled, lim.maxFirings, e, img.rules);
    ArrivalIsStreamed(img, lim, st, e, target, strict);
    SettleIsBatch(img, lim, arrived, st.wm, expired, strict);
    MatchAllIsBatch(img, lim, settled, lim.maxFirings, e, img.rules, strict);
  }

  lemma {:induction false} ArrivalIsSound(img: Image, lim: Limits, st: State, e: Event, target: Time)
    requires Sound(img, lim, st, st.wm)
    ensures Sound(img, lim, PushEvent(lim, Ahead(Noted(st, e), target), e), st.wm)
  {
    hide RingsOk, Covered, QueuesOk, Balanced, LossExplained, Push;
    MoveIsSound(img, lim, st, st.wm, Ahead(Noted(st, e), target));
    PushIsSound(img, lim, Ahead(Noted(st, e), target), st.wm, e);
  }

  lemma ArrivalIsStreamed(img: Image, lim: Limits, st: State, e: Event, target: Time, strict: bool)
    requires Sound(img, lim, st, st.wm) && Streamed(img, lim, st, st.wm, strict)
    requires st.wm <= e.time && (strict ==> st.wm < e.time)
    ensures Streamed(img, lim, PushEvent(lim, Ahead(Noted(st, e), target), e), st.wm, strict)
  {
    hide BatchRuns, Exact, Push, QueuesOk, Balanced, LossExplained, RingsOk, Covered;
    var noted := Ahead(Noted(st, e), target);
    MoveIsStreamed(img, lim, st, st.wm, noted, strict);
    MoveIsSound(img, lim, st, st.wm, noted);
    PushIsExact(lim, noted, e, Sub(st.wm, lim.maxLookback));
    BatchPush(img, st.history, st.wm, st.trace, e, strict);
    BatchLater(img, st.history + [e], st.wm, noted.wm, st.trace, strict);
  }

  lemma DoIsBatch(img: Image, lim: Limits, st: State, op: Op, strict: bool)
    requires WithinLookback(img.rules, lim.maxLookback) && DistinctRules(img.rules)
    requires Sound(img, lim, st, st.wm) && Streamed(img, lim, st, st.wm, strict)
    requires Legal(img, st, op) && TimelyOp(st, op, strict)
    requires Do(img, lim, st, op).lost == [] && DistinctEvents(Do(img, lim, st, op).history)
    ensures Streamed(img, lim, Do(img, lim, st, op), Do(img, lim, st, op).wm, strict)
  {
    hide Settle, MatchAll, PopOk, RingsOk, Covered, QueuesOk, Balanced, LossExplained, BatchRuns, Exact, WithinLookback, DistinctEvents, DistinctRules;
    if op.Accept? {
      AcceptIsBatch(img, lim, st, op.event, op.target, op.expired, strict);
    } else if op.Advance? || (op.Finish? && !st.finished && st.last.Some?) {
      var ready := if op.Advance? then Ahead(st, op.to) else Ahead(st.(finished := true), FlushTime(img, st.last.value));
      MoveIsStreamed(img, lim, st, st.wm, ready, strict);
      MoveIsSound(img, lim, st, st.wm, ready);
      SettleWm(img, lim, ready, op.expired);
      SettleIsBatch(img, lim, ready, st.wm, op.expired, strict);
    } else {
      MoveIsStreamed(img, lim, st, st.wm, Do(img, lim, st, op), strict);
    }
  }

  /** Histories and losses only grow. */
  lemma DoGrows(img: Image, lim: Limits, st: State, op: Op)
    ensures st.history <= Do(img, lim, st, op).history && st.lost <= Do(img, lim, st, op).lost
  {
    hide Settle, MatchAll, Push;
    match op
    case Accept(e, target, expired) =>
      var arrived := PushEvent(lim, Ahead(Noted(st, e), target), e);
      SettleWm(img, lim, arrived, expired);
      MatchAllOnlyMatches(img, lim, Settle(img, lim, arrived, expired), lim.maxFirings, e, img.rules);
    case Discard(e) =>
    case Advance(to, expired) => SettleWm(img, lim, Ahead(st, to), expired);
    case Finish(expired) =>
      if !st.finished && st.last.Some? { SettleWm(img, lim, Ahead(st.(finished := true), FlushTime(img, st.last.value)), expired); }
  }

  lemma {:induction false} RunIsStreamed(img: Image, lim: Limits, ops: seq<Op>, strict: bool)
    requires WithinLookback(img.rules, lim.maxLookback) && DistinctRules(img.rules)
    requires LegalRun(img, lim, ops) && Timely(img, lim, ops, strict)
    requires Run(img, lim, ops).lost == [] && DistinctEvents(Run(img, lim, ops).history)
    ensures Streamed(img, lim, Run(img, lim, ops), Run(img, lim, ops).wm, strict)
  {
    hide Do, Sound, Legal, TimelyOp, WithinLookback, DistinctRules;
    if ops != [] {
      var init, op := ops[..|ops| - 1], ops[|ops| - 1];
      var st := Run(img, lim, init);
      DoGrows(img, lim, st, op);
      RunIsStreamed(img, lim, init, strict);
      RunIsAlwaysSound(img, lim, init);
      DoIsBatch(img, lim, st, op, strict);
    }
  }

  // ----- the main result -----

  lemma {:induction false} ImmediateStep(trace: seq<Step>, p: Pending) returns (k: nat)
    requires p in Immediate(trace)
    ensures k < |trace| && !trace[k].Swept? && trace[k].origin.None? && PendingOf(trace[k].rule, trace[k].anchor) == p
  {
    k := |trace| - 1;
    if trace[k].Swept? || trace[k].origin.Some? || PendingOf(trace[k].rule, trace[k].anchor) != p {
      k := ImmediateStep(trace[..k], p);
    }
  }

  /** Only matches without a forward window start at once. */
  lemma ImmediateHasNoForward(img: Image, st: State, wm: Time, strict: bool, r: Rule, e: Event)
    requires BatchRuns(img, st.history, wm, st.trace, strict) && DistinctEvents(st.history) && e in st.history
    requires PendingOf(r, e) in Immediate(st.trace)
    ensures Deadline(r, e) <= e.time
  {
    hide Bindings, Log, DistinctEvents, MaxForward;
    var k := ImmediateStep(st.trace, PendingOf(r, e));
    assert BatchStep(img, st.history, wm, st.trace, k, strict);
    SameEvent(st.history, e, st.trace[k].anchor);
  }

  lemma OnceEach(img: Image, st: State, wm: Time, strict: bool, r: Rule, e: Event)
    requires BatchRuns(img, st.history, wm, st.trace, strict) && DistinctEvents(st.history) && DistinctRules(img.rules)
    requires Resumptions(st.trace) + Immediate(st.trace) == AllMatches(img, st.history)
    requires r in img.rules && e in st.history && Fires(img, r, e)
    ensures (Resumptions(st.trace) + Immediate(st.trace))[PendingOf(r, e)] == 1
    ensures Deadline(r, e) > e.time ==> Resumptions(st.trace)[PendingOf(r, e)] == 1
  {
    hide BatchRuns, Fires, DistinctEvents, DistinctRules, Deadline;
    EveryMatchIsThere(img, st.history, r, e);
    AllMatchesOnce(img, st.history, PendingOf(r, e));
    if PendingOf(r, e) in Immediate(st.trace) { ImmediateHasNoForward(img, st, wm, strict, r, e); }
  }

  lemma {:induction false} AllStarted(img: Image, lim: Limits, ops: seq<Op>)
    requires WithinLookback(img.rules, lim.maxLookback) && LegalRun(img, lim, ops) && lim.maxFirings >= 1
    requires var st := Run(img, lim, ops); st.lost == [] && st.ledger.spilled == multiset{} && Drained(st)
    ensures var st := Run(img, lim, ops); Resumptions(st.trace) + Immediate(st.trace) == AllMatches(img, st.history)
  {
    hide Run, LegalRun, WithinLookback, AllMatches, Drained;
    var ledger := Run(img, lim, ops).ledger;
    EveryMatchIsTakenUpOnce(img, lim, ops);
    DrainedAccount(img, lim, ops);
    forall p ensures p !in ledger.missing { MissingNeedsSpill(img, lim, ops, p); }
    assert ledger.missing == multiset{};
  }

  lemma BatchAt(img: Image, st: State, wm: Time, strict: bool, k: nat)
    requires BatchRuns(img, st.history, wm, st.trace, strict) && k < |st.trace| && st.trace[k].Ran?
    requires strict || st.trace[k].origin.Some?
    ensures var rule, anchor := st.trace[k].rule, st.trace[k].anchor;
            && (st.trace[k].origin.Some? ==> st.trace[k].origin.value == PendingOf(rule, anchor))
            && st.trace[k].bindings == Bindings(img, rule, anchor, Log(st.history, anchor.scope), st.trace[..k])
  {
    hide Bindings, Log;
    assert BatchStep(img, st.history, wm, st.trace, k, strict);
  }

  /** Each match of the whole history is taken up exactly once, one with a forward window by
      running its body when resumed (the others can be refused by the firing budget); and the
      bindings of a resumed run are those of a batch over the whole history of its scope (with
      `strict`, also of a run started at once). */
  ghost predicate EqualsBatch(img: Image, st: State, strict: bool)
  {
    && Resumptions(st.trace) + Immediate(st.trace) == AllMatches(img, st.history)
    && (forall r, e :: r in img.rules && e in st.history && Fires(img, r, e) ==>
          && (Resumptions(st.trace) + Immediate(st.trace))[PendingOf(r, e)] == 1
          && (Deadline(r, e) > e.time ==> Resumptions(st.trace)[PendingOf(r, e)] == 1))
    && (forall k :: 0 <= k < |st.trace| && st.trace[k].Ran? && (strict || st.trace[k].origin.Some?) ==>
          var rule, anchor := st.trace[k].rule, st.trace[k].anchor;
          && (st.trace[k].origin.Some? ==> st.trace[k].origin.value == PendingOf(rule, anchor))
          && st.trace[k].bindings == Bindings(img, rule, anchor, Log(st.history, anchor.scope), st.trace[..k]))
  }

  /** Nothing overflowed, and event ids are unique in their scope. */
  ghost predicate Lossless(st: State)
  {
    st.lost == [] && st.ledger.spilled == multiset{} && DistinctEvents(st.history)
  }

  /** Streaming equals batch, when no event came behind the watermark, nothing overflowed and
      the queues have drained. */
  lemma {:induction false} StreamingIsBatch(img: Image, lim: Limits, ops: seq<Op>, strict: bool)
    requires WithinLookback(img.rules, lim.maxLookback) && DistinctRules(img.rules) && lim.maxFirings >= 1
    requires LegalRun(img, lim, ops) && Timely(img, lim, ops, strict)
    ensures var st := Run(img, lim, ops); Lossless(st) && Drained(st) ==> EqualsBatch(img, st, strict)
  {
    hide Run, LegalRun, Timely, WithinLookback, Drained, DistinctRules, EqualsBatch, DistinctEvents;
    if Lossless(Run(img, lim, ops)) && Drained(Run(img, lim, ops)) {
      AllStarted(img, lim, ops);
      RunIsStreamed(img, lim, ops, strict);
      StreamedEqualsBatch(img, lim, Run(img, lim, ops), strict);
    }
  }

  lemma {:induction false} StreamedEqualsBatch(img: Image, lim: Limits, st: State, strict: bool)
    requires DistinctRules(img.rules) && Lossless(st) && Streamed(img, lim, st, st.wm, strict)
    requires Resumptions(st.trace) + Immediate(st.trace) == AllMatches(img, st.history)
    ensures EqualsBatch(img, st, strict)
  {
    hide AllMatches, DistinctEvents, DistinctRules, BatchRuns, Bindings, Log, Fires, Deadline, Exact, Resumptions, Immediate;
    forall r, e | r in img.rules && e in st.history && Fires(img, r, e)
      ensures (Resumptions(st.trace) + Immediate(st.trace))[PendingOf(r, e)] == 1
      ensures Deadline(r, e) > e.time ==> Resumptions(st.trace)[PendingOf(r, e)] == 1
    {
      OnceEach(img, st, st.wm, strict, r, e);
    }
    forall k | 0 <= k < |st.trace| && st.trace[k].Ran? && (strict || st.trace[k].origin.Some?)
      ensures var rule, anchor := st.trace[k].rule, st.trace[k].anchor;
              && (st.trace[k].origin.Some? ==> st.trace[k].origin.value == PendingOf(rule, anchor))
              && st.trace[k].bindings == Bindings(img, rule, anchor, Log(st.history, anchor.scope), st.trace[..k])
    {
      BatchAt(img, st, st.wm, strict, k);
    }
  }

  /** The same at the end of `finish`, when the flush time does not saturate. */
  lemma {:induction false} FinishedStreamIsBatch(img: Image, lim: Limits, ops: seq<Op>, expired: seq<Pending>, strict: bool)
    requires WithinLookback(img.rules, lim.maxLookback) && DistinctRules(img.rules) && lim.maxFirings >= 1
    requires LegalRun(img, lim, ops) && Timely(img, lim, ops, strict)
    ensures var st, st' := Run(img, lim, ops), Run(img, lim, ops + [Finish(expired)]);
            && Legal(img, st, Finish(expired)) && !st.finished && st.last.Some?
            && st.last.value + ImageMaxForward(img.rules) < TIME_MAX && Lossless(st')
            ==> EqualsBatch(img, st', strict)
  {
    hide Run, WithinLookback, Drained, DistinctEvents, DistinctRules, EqualsBatch, Legal, Lossless;
    assert (ops + [Finish(expired)])[..|ops|] == ops;
    var st, st' := Run(img, lim, ops), Run(img, lim, ops + [Finish(expired)]);
    if && Legal(img, st, Finish(expired)) && !st.finished && st.last.Some?
       && st.last.value + ImageMaxForward(img.rules) < TIME_MAX && Lossless(st')
    {
      FinishDrainsIff(img, lim, ops, expired);
      StreamingIsBatch(img, lim, ops + [Finish(expired)], strict);
    }
  }
}
