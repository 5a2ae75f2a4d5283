/** Over every run, each match of an evidence rule is taken up exactly once: suspended or
    started at once; and the trace records exactly the resumed ones. */
module EngineMatches {
  import opened Options
  import opened EventTime
  import opened Ring
  import opened Waiting
  import opened RuleImage
  import opened EngineModel
  import opened EngineSafety

  /** The suspended matches whose bodies `trace` runs. */
  function Resumptions(trace: seq<Step>): multiset<Pending>
  {
    if trace == [] then multiset{}
    else
      var step := trace[|trace| - 1];
      Resumptions(trace[..|trace| - 1])
      + (if step.Ran? && step.origin.Some? then multiset{step.origin.value} else multiset{})
  }

  /** The matches taken up without being suspended: run, or refused by the firing budget. */
  function Immediate(trace: seq<Step>): multiset<Pending>
  {
    if trace == [] then multiset{}
    else
      var step := trace[|trace| - 1];
      Immediate(trace[..|trace| - 1])
      + (if !step.Swept? && step.origin.None? then multiset{PendingOf(step.rule, step.anchor)} else multiset{})
  }

  function MatchesOf(img: Image, e: Event, rules: seq<Rule>): multiset<Pending>
  {
    if rules == [] then multiset{}
    else (if Fires(img, rules[0], e) then multiset{PendingOf(rules[0], e)} else multiset{}) + MatchesOf(img, e, rules[1..])
  }

  /** Every match of a rule and an event, as a batch over the whole history finds them. */
  function AllMatches(img: Image, history: seq<Event>): multiset<Pending>
  {
    if history == [] then multiset{}
    else AllMatches(img, history[..|history| - 1]) + MatchesOf(img, history[|history| - 1], img.rules)
  }

  // ----- what a match is -----

  /** The longest forward window among the correlates that have a calculable one. */
  ghost predicate IsLongest(cs: seq<Correlate>, d: int)
  {
    && (forall c :: c in cs && c.window.Calculable? ==> c.window.forward <= d)
    && (d == 0 || exists c :: c in cs && c.window.Calculable? && c.window.forward == d)
  }

  /** `p` is the match of an evidence rule with an event of its kind and scope type that its
      anchor predicate accepts; it is due when the longest forward window has closed, at the
      end of time at the latest. */
  ghost predicate IsMatch(img: Image, r: Rule, e: Event, p: Pending)
  {
    && r.evidence && r.anchorKind == e.kind && r.scopeType == img.scopeType(e.scope) && img.matches(r, e)
    && p.rule == r.id && p.anchor == e.id && p.scope == e.scope
    && exists d: nat :: IsLongest(r.correlates, d) && p.upper == if e.time + d > TIME_MAX then TIME_MAX else e.time + d
  }

  lemma FiresIsMatch(img: Image, r: Rule, e: Event, p: Pending)
    ensures IsMatch(img, r, e, p) <==> Fires(img, r, e) && p == PendingOf(r, e)
  {
    hide MaxForward;
    MaxForwardBounds(r.correlates);
    assert IsLongest(r.correlates, MaxForward(r.correlates));
    forall d: nat | IsLongest(r.correlates, d) ensures d == MaxForward(r.correlates) { LongestIsUnique(r.correlates, d, MaxForward(r.correlates)); }
  }

  lemma LongestIsUnique(cs: seq<Correlate>, a: nat, b: nat)
    requires IsLongest(cs, a) && IsLongest(cs, b)
    ensures a == b
  {
  }

  /** The rules from the `j`-th on, below the `k`-th, of which `p` is the match with `e`. */
  ghost function MatchedBy(img: Image, e: Event, p: Pending, j: int, k: int): set<int>
  {
    set i | j <= i < k && 0 <= i < |img.rules| && IsMatch(img, img.rules[i], e, p)
  }

  lemma {:induction false} MatchesOfCount(img: Image, e: Event, j: nat, p: Pending)
    requires j <= |img.rules|
    ensures MatchesOf(img, e, img.rules[j..])[p] == |MatchedBy(img, e, p, j, |img.rules|)|
    decreases |img.rules| - j
  {
    hide IsMatch, Fires;
    var n := |img.rules|;
    if j == n {
      assert MatchedBy(img, e, p, n, n) == {};
    } else {
      MatchesOfCount(img, e, j + 1, p);
      FiresIsMatch(img, img.rules[j], e, p);
      assert img.rules[j..][0] == img.rules[j] && img.rules[j..][1..] == img.rules[j + 1..];
      var rest := MatchedBy(img, e, p, j + 1, n);
      assert MatchedBy(img, e, p, j, n) == if IsMatch(img, img.rules[j], e, p) then rest + {j} else rest;
    }
  }

  /** The positions in the history and among the rules whose match is `p`. */
  ghost function MatchedIn(img: Image, history: seq<Event>, p: Pending): set<(int, int)>
  {
    set n, i | 0 <= n < |history| && i in MatchedBy(img, history[n], p, 0, |img.rules|) :: (n, i)
  }

  /** The batch finds a match once for every event of the history and every rule whose match
      it is. */
  lemma {:induction false} AllMatchesCount(img: Image, history: seq<Event>, p: Pending)
    ensures AllMatches(img, history)[p] == |MatchedIn(img, history, p)|
  {
    hide MatchesOf, MatchedBy;
    if history == [] {
      assert MatchedIn(img, history, p) == {};
    } else {
      var m := |history| - 1;
      AllMatchesCount(img, history[..m], p);
      MatchesOfCount(img, history[m], 0, p);
      assert img.rules[0..] == img.rules;
      MatchedSnoc(img, history[..m], history[m], p);
      assert history == history[..m] + [history[m]];
    }
  }

  lemma MatchedSnoc(img: Image, init: seq<Event>, e: Event, p: Pending)
    ensures |MatchedIn(img, init + [e], p)| == |MatchedIn(img, init, p)| + |MatchedBy(img, e, p, 0, |img.rules|)|
  {
    hide MatchedBy;
    var last := MatchedBy(img, e, p, 0, |img.rules|);
    PairKeepsCard(|init|, last);
    assert MatchedIn(img, init + [e], p) == MatchedIn(img, init, p) + Paired(|init|, last);
  }

  ghost function Paired(m: int, s: set<int>): set<(int, int)> { set i | i in s :: (m, i) }

  lemma {:induction false} PairKeepsCard(m: int, s: set<int>)
    ensures |Paired(m, s)| == |s|
    decreases |s|
  {
    if exists x :: x in s {
      var x :| x in s;
      PairKeepsCard(m, s - {x});
      assert Paired(m, s) == Paired(m, s - {x}) + {(m, x)};
    } else {
      assert s == {} && Paired(m, s) == {};
    }
  }

  function TakenUp(st: State): multiset<Pending> { st.ledger.suspended + Immediate(st.trace) }

  ghost predicate TraceIsAccount(lim: Limits, st: State)
  {
    lim.maxFirings >= 1 ==> Resumptions(st.trace) == st.ledger.resumed
  }

  lemma TraceSnoc(trace: seq<Step>, step: Step)
    ensures Resumptions(trace + [step])
         == Resumptions(trace) + (if step.Ran? && step.origin.Some? then multiset{step.origin.value} else multiset{})
    ensures Immediate(trace + [step])
         == Immediate(trace) + (if !step.Swept? && step.origin.None? then multiset{PendingOf(step.rule, step.anchor)} else multiset{})
  {
    assert (trace + [step])[..|trace + [step]| - 1] == trace;
  }

  /** A run adds one step, of the given origin. */
  lemma {:induction false} RunAddsOne(img: Image, st: State, r: Rule, e: Event, origin: Option<Pending>, budget: nat)
    ensures var st' := RunRule(img, st, r, e, origin, budget).0;
            && st'.ledger == st.ledger
            && (budget >= 1 || origin.None? ==>
                  Resumptions(st'.trace) == Resumptions(st.trace) + (if origin.Some? then multiset{origin.value} else multiset{}))
            && Immediate(st'.trace) == Immediate(st.trace) + (if origin.None? then multiset{PendingOf(r, e)} else multiset{})
  {
    hide Bindings, Resumptions, Immediate;
    TraceSnoc(st.trace, Exceeded(r, e, origin));
    TraceSnoc(st.trace, Ran(r, e, origin, st.wm, Bindings(img, r, e, RingOf(st.rings, e.scope), st.trace)));
  }

  lemma {:induction false} ResumeOneCounts(img: Image, lim: Limits, st: State, m: Pending)
    requires TraceIsAccount(lim, st)
    ensures var st' := ResumeOne(img, lim, st, m); TraceIsAccount(lim, st') && TakenUp(st') == TakenUp(st)
  {
    hide RunRule, Resumptions, Immediate, Lookup, FindRule;
    var anchor, rule := Lookup(RingOf(st.rings, m.scope), m.anchor), FindRule(img.rules, m.rule);
    if anchor.Some? && rule.Some? {
      var counted := st.(ledger := st.ledger.(resumed := st.ledger.resumed + multiset{m}));
      RunAddsOne(img, counted, rule.value, anchor.value, Some(m), lim.maxFirings);
    }
  }

  lemma {:induction false} ResumeAllCounts(img: Image, lim: Limits, st: State, expired: seq<Pending>)
    requires TraceIsAccount(lim, st)
    ensures var st' := ResumeAll(img, lim, st, expired); TraceIsAccount(lim, st') && TakenUp(st') == TakenUp(st)
    decreases |expired|
  {
    hide ResumeOne, TraceIsAccount, TakenUp;
    if expired != [] {
      ResumeOneCounts(img, lim, st, expired[0]);
      ResumeAllCounts(img, lim, ResumeOne(img, lim, st, expired[0]), expired[1..]);
    }
  }

  lemma SettleCounts(img: Image, lim: Limits, st: State, expired: seq<Pending>)
    requires TraceIsAccount(lim, st)
    ensures var st' := Settle(img, lim, st, expired); TraceIsAccount(lim, st') && TakenUp(st') == TakenUp(st)
  {
    hide ResumeAll, Resumptions, Immediate;
    ResumeAllCounts(img, lim, Take(st), expired);
    var resumed := ResumeAll(img, lim, Take(st), expired);
    TraceSnoc(resumed.trace, Swept(resumed.wm));
  }

  lemma {:induction false} MatchOneCounts(img: Image, lim: Limits, st: State, budget: nat, e: Event, r: Rule)
    requires TraceIsAccount(lim, st)
    ensures var st' := MatchOne(img, lim, st, budget, e, r).0;
            TraceIsAccount(lim, st') && TakenUp(st') == TakenUp(st) + (if Fires(img, r, e) then multiset{PendingOf(r, e)} else multiset{})
  {
    hide RunRule, Resumptions, Immediate, Fires, Bounded;
    RunAddsOne(img, st, r, e, None, budget);
  }

  lemma {:induction false} MatchAllCounts(img: Image, lim: Limits, st: State, budget: nat, e: Event, rules: seq<Rule>)
    requires TraceIsAccount(lim, st)
    ensures var st' := MatchAll(img, lim, st, budget, e, rules);
            TraceIsAccount(lim, st') && TakenUp(st') == TakenUp(st) + MatchesOf(img, e, rules)
    decreases |rules|
  {
    hide MatchOne, TraceIsAccount, TakenUp, Fires;
    if rules != [] {
      MatchOneCounts(img, lim, st, budget, e, rules[0]);
      var (next, left) := MatchOne(img, lim, st, budget, e, rules[0]);
      MatchAllCounts(img, lim, next, left, e, rules[1..]);
    }
  }

  lemma DoCounts(img: Image, lim: Limits, st: State, op: Op)
    requires TraceIsAccount(lim, st) && TakenUp(st) == AllMatches(img, st.history)
    ensures var st' := Do(img, lim, st, op); TraceIsAccount(lim, st') && TakenUp(st') == AllMatches(img, st'.history)
  {
    hide Settle, MatchAll, MatchesOf, Push;
    match op
    case Accept(e, target, expired) =>
      var arrived := PushEvent(lim, Ahead(Noted(st, e), target), e);
      SettleCounts(img, lim, arrived, expired);
      SettleWm(img, lim, arrived, expired);
      var settled := Settle(img, lim, arrived, expired);
      MatchAllCounts(img, lim, settled, lim.maxFirings, e, img.rules);
      MatchAllOnlyMatches(img, lim, settled, lim.maxFirings, e, img.rules);
      assert arrived.history[..|arrived.history| - 1] == st.history;
    case Discard(e) =>
    case Advance(to, expired) =>
      SettleCounts(img, lim, Ahead(st, to), expired);
      SettleWm(img, lim, Ahead(st, to), expired);
    case Finish(expired) =>
      if !st.finished && st.last.Some? {
        var ready := Ahead(st.(finished := true), FlushTime(img, st.last.value));
        SettleCounts(img, lim, ready, expired);
        SettleWm(img, lim, ready, expired);
      }
  }

  /** For every run, in any order of times: what was suspended or started at once is exactly
      what a batch over the history matches, and the bodies run for suspended matches are
      exactly those of the matches counted as resumed. */
  lemma {:induction false} EveryMatchIsTakenUpOnce(img: Image, lim: Limits, ops: seq<Op>)
    ensures var st := Run(img, lim, ops);
            && (lim.maxFirings >= 1 ==> Resumptions(st.trace) == st.ledger.resumed)
            && st.ledger.suspended + Immediate(st.trace) == AllMatches(img, st.history)
  {
    hide Do;
    if ops != [] {
      var init := ops[..|ops| - 1];
      EveryMatchIsTakenUpOnce(img, lim, init);
      DoCounts(img, lim, Run(img, lim, init), ops[|ops| - 1]);
    }
  }

  // ----- the firing budget -----

  /** How many bodies a trace runs. */
  function Bodies(trace: seq<Step>): nat
  {
    if trace == [] then 0 else Bodies(trace[..|trace| - 1]) + (if trace[|trace| - 1].Ran? then 1 else 0)
  }

  lemma BodiesSnoc(trace: seq<Step>, step: Step)
    ensures Bodies(trace + [step]) == Bodies(trace) + (if step.Ran? then 1 else 0)
  {
    assert (trace + [step])[..|trace + [step]| - 1] == trace;
  }

  lemma {:induction false} MatchOneWithinBudget(img: Image, lim: Limits, st: State, budget: nat, e: Event, r: Rule)
    ensures var (st', left) := MatchOne(img, lim, st, budget, e, r);
            left <= budget && Bodies(st'.trace) + left <= Bodies(st.trace) + budget
  {
    hide Bindings, Bodies, Fires, Bounded;
    BodiesSnoc(st.trace, Exceeded(r, e, None));
    BodiesSnoc(st.trace, Ran(r, e, None, st.wm, Bindings(img, r, e, RingOf(st.rings, e.scope), st.trace)));
  }

  /** One event starts at most `budget` bodies, however many rules match it; the decision
      firings they cascade into come out of the same budget. */
  lemma {:induction false} MatchAllWithinBudget(img: Image, lim: Limits, st: State, budget: nat, e: Event, rules: seq<Rule>)
    ensures Bodies(MatchAll(img, lim, st, budget, e, rules).trace) <= Bodies(st.trace) + budget
    decreases |rules|
  {
    hide MatchOne, Bodies;
    if rules != [] {
      MatchOneWithinBudget(img, lim, st, budget, e, rules[0]);
      var (next, left) := MatchOne(img, lim, st, budget, e, rules[0]);
      MatchAllWithinBudget(img, lim, next, left, e, rules[1..]);
    }
  }

  // ----- which matches wait -----

  /** The matches of `e` whose forward window is still open at `wm`, or no longer open. */
  function MatchesWhere(img: Image, e: Event, rules: seq<Rule>, wm: Time, open: bool): multiset<Pending>
  {
    if rules == [] then multiset{}
    else (if Fires(img, rules[0], e) && (Deadline(rules[0], e) > wm) == open then multiset{PendingOf(rules[0], e)} else multiset{})
         + MatchesWhere(img, e, rules[1..], wm, open)
  }

  lemma {:induction false} MatchAllSplits(img: Image, lim: Limits, st: State, budget: nat, e: Event, rules: seq<Rule>)
    ensures var st' := MatchAll(img, lim, st, budget, e, rules);
            && st'.ledger.suspended == st.ledger.suspended + MatchesWhere(img, e, rules, st.wm, true)
            && Immediate(st'.trace) == Immediate(st.trace) + MatchesWhere(img, e, rules, st.wm, false)
    decreases |rules|
  {
    hide RunRule, Fires, Bounded, Immediate, Resumptions;
    if rules != [] {
      RunAddsOne(img, st, rules[0], e, None, budget);
      var (next, left) := MatchOne(img, lim, st, budget, e, rules[0]);
      MatchOneOnlyMatches(img, lim, st, budget, e, rules[0]);
      MatchAllSplits(img, lim, next, left, e, rules[1..]);
    }
  }

  lemma {:induction false} SettleStartsNone(img: Image, lim: Limits, st: State, expired: seq<Pending>)
    ensures var st' := Settle(img, lim, st, expired);
            Immediate(st'.trace) == Immediate(st.trace) && st'.ledger.suspended == st.ledger.suspended
  {
    hide ResumeAll, Immediate, Resumptions;
    ResumeAllStartsNone(img, lim, Take(st), expired);
    ResumeAllOnlyRuns(img, lim, Take(st), expired);
    var resumed := ResumeAll(img, lim, Take(st), expired);
    TraceSnoc(resumed.trace, Swept(resumed.wm));
  }

  lemma {:induction false} ResumeAllStartsNone(img: Image, lim: Limits, st: State, expired: seq<Pending>)
    ensures Immediate(ResumeAll(img, lim, st, expired).trace) == Immediate(st.trace)
    decreases |expired|
  {
    hide ResumeOne, Immediate;
    if expired != [] {
      ResumeOneStartsNone(img, lim, st, expired[0]);
      ResumeAllStartsNone(img, lim, ResumeOne(img, lim, st, expired[0]), expired[1..]);
    }
  }

  lemma {:induction false} ResumeOneStartsNone(img: Image, lim: Limits, st: State, m: Pending)
    ensures Immediate(ResumeOne(img, lim, st, m).trace) == Immediate(st.trace)
  {
    hide RunRule, Resumptions, Immediate, Lookup, FindRule;
    var anchor, rule := Lookup(RingOf(st.rings, m.scope), m.anchor), FindRule(img.rules, m.rule);
    if anchor.Some? && rule.Some? {
      var counted := st.(ledger := st.ledger.(resumed := st.ledger.resumed + multiset{m}));
      RunAddsOne(img, counted, rule.value, anchor.value, Some(m), lim.maxFirings);
    }
  }

  /** Accepting an event suspends exactly its matches whose forward window the new watermark
      has not reached the end of, and takes up the others at once. */
  lemma AcceptSuspendsOpenMatches(img: Image, lim: Limits, st: State, e: Event, target: Time, expired: seq<Pending>)
    ensures var st' := Do(img, lim, st, Accept(e, target, expired));
            var wm := Latest(st.wm, target);
            && st'.ledger.suspended == st.ledger.suspended + MatchesWhere(img, e, img.rules, wm, true)
            && Immediate(st'.trace) == Immediate(st.trace) + MatchesWhere(img, e, img.rules, wm, false)
  {
    hide Settle, MatchAll, Push, MatchesWhere, Immediate;
    var arrived := PushEvent(lim, Ahead(Noted(st, e), target), e);
    SettleStartsNone(img, lim, arrived, expired);
    SettleWm(img, lim, arrived, expired);
    MatchAllSplits(img, lim, Settle(img, lim, arrived, expired), lim.maxFirings, e, img.rules);
  }

  /** Offline and in time order, a match waits exactly when its rule looks forward. */
  lemma WaitsIffForward(r: Rule, e: Event, wm: Time)
    requires wm <= e.time && e.time + MaxForward(r.correlates) <= TIME_MAX
    ensures Deadline(r, e) > Latest(wm, e.time) <==> exists c :: c in r.correlates && Forward(c.window) > 0
  {
    MaxForwardBounds(r.correlates);
  }

  // ----- exactly once -----

  ghost predicate DistinctRules(rules: seq<Rule>)
  {
    forall i, j :: 0 <= i < j < |rules| ==> rules[i].id != rules[j].id
  }

  ghost predicate DistinctEvents(history: seq<Event>)
  {
    forall i, j :: 0 <= i < j < |history| ==> history[i].scope != history[j].scope || history[i].id != history[j].id
  }

  lemma {:induction false} MatchesOfOnce(img: Image, e: Event, rules: seq<Rule>, p: Pending)
    requires DistinctRules(rules)
    ensures MatchesOf(img, e, rules)[p] <= 1
    ensures p in MatchesOf(img, e, rules) ==> p.anchor == e.id && p.scope == e.scope && exists r :: r in rules && r.id == p.rule
    ensures forall r :: r in rules && Fires(img, r, e) ==> PendingOf(r, e) in MatchesOf(img, e, rules)
  {
    hide Fires;
    if rules != [] {
      MatchesOfOnce(img, e, rules[1..], p);
      OtherIds(rules);
      forall r | r in rules && Fires(img, r, e) ensures PendingOf(r, e) in MatchesOf(img, e, rules) {
        if r != rules[0] { MatchesOfOnce(img, e, rules[1..], PendingOf(r, e)); }
      }
    }
  }

  lemma OtherIds(rules: seq<Rule>)
    requires rules != [] && DistinctRules(rules)
    ensures forall r :: r in rules[1..] ==> r.id != rules[0].id
    ensures forall r :: r in rules ==> r == rules[0] || r in rules[1..]
  {
  }

  lemma {:induction false} AllMatchesOnce(img: Image, history: seq<Event>, p: Pending)
    requires DistinctRules(img.rules) && DistinctEvents(history)
    ensures AllMatches(img, history)[p] <= 1
    ensures p in AllMatches(img, history) ==> exists e :: e in history && e.id == p.anchor && e.scope == p.scope
  {
    if history != [] {
      var init, e := history[..|history| - 1], history[|history| - 1];
      AllMatchesOnce(img, init, p);
      MatchesOfOnce(img, e, img.rules, p);
    }
  }

  lemma {:induction false} EveryMatchIsThere(img: Image, history: seq<Event>, r: Rule, e: Event)
    requires DistinctRules(img.rules) && r in img.rules && e in history && Fires(img, r, e)
    ensures PendingOf(r, e) in AllMatches(img, history)
  {
    var n := |history| - 1;
    if history[n] == e {
      MatchesOfOnce(img, e, img.rules, PendingOf(r, e));
    } else {
      EveryMatchIsThere(img, history[..n], r, e);
    }
  }

  // ----- which bodies run, in which order, and which the budget refuses -----

  /** What the steps from `from` up to `end` cost: each body run one firing, and one for every
      decision firing that it starts. */
  function Spent(img: Image, trace: seq<Step>, from: nat, end: nat): nat
    requires from <= end <= |trace|
    decreases end
  {
    if end == from then 0
    else Spent(img, trace, from, end - 1) + if trace[end - 1].Ran? then 1 + img.cascade(trace[..end]) else 0
  }

  /** A body is refused exactly if those before it have used up the budget. */
  ghost predicate Metered(img: Image, trace: seq<Step>, from: nat, max: nat)
  {
    forall k :: from <= k < |trace| ==> (trace[k].Exceeded? <==> Spent(img, trace, from, k) >= max)
  }

  /** The match of `r` and `e` is closed when it is found. */
  ghost predicate Closed(img: Image, r: Rule, e: Event, wm: Time)
  {
    exists p :: IsMatch(img, r, e, p) && p.upper <= wm
  }

  /** The rules whose match with `e` is closed, in their order. */
  ghost function ClosedRules(img: Image, rules: seq<Rule>, e: Event, wm: Time): seq<Rule>
  {
    if rules == [] then []
    else (if Closed(img, rules[0], e, wm) then [rules[0]] else []) + ClosedRules(img, rules[1..], e, wm)
  }

  /** The steps start these rules for `e`, at once. */
  ghost predicate Starts(steps: seq<Step>, rules: seq<Rule>, e: Event, wm: Time)
  {
    && |steps| == |rules|
    && forall k :: 0 <= k < |steps| ==>
         && !steps[k].Swept? && steps[k].rule == rules[k] && steps[k].anchor == e && steps[k].origin.None?
         && (steps[k].Ran? ==> steps[k].at == wm)
  }

  lemma {:induction false} SpentBefore(img: Image, trace: seq<Step>, more: seq<Step>, from: nat, end: nat)
    requires from <= end <= |trace|
    ensures Spent(img, trace + more, from, end) == Spent(img, trace, from, end)
    decreases end
  {
    if end > from {
      SpentBefore(img, trace, more, from, end - 1);
      assert (trace + more)[..end] == trace[..end];
    }
  }

  lemma MeteredSnoc(img: Image, trace: seq<Step>, step: Step, from: nat, max: nat)
    requires from <= |trace| && Metered(img, trace, from, max)
    requires step.Exceeded? <==> Spent(img, trace, from, |trace|) >= max
    ensures Metered(img, trace + [step], from, max)
    ensures Spent(img, trace + [step], from, |trace| + 1)
         == Spent(img, trace, from, |trace|) + if step.Ran? then 1 + img.cascade(trace + [step]) else 0
  {
    var all := trace + [step];
    forall k | from <= k < |all| ensures all[k].Exceeded? <==> Spent(img, all, from, k) >= max { SpentBefore(img, trace, [step], from, k); }
    SpentBefore(img, trace, [step], from, |trace|);
    assert all[..|trace| + 1] == all;
  }

  function Left(max: nat, spent: nat): nat { if spent >= max then 0 else max - spent }

  lemma ClosedIs(img: Image, r: Rule, e: Event, wm: Time)
    ensures Closed(img, r, e, wm) <==> Fires(img, r, e) && Deadline(r, e) <= wm
  {
    hide IsMatch, Fires, Deadline;
    forall p ensures IsMatch(img, r, e, p) <==> Fires(img, r, e) && p == PendingOf(r, e) { FiresIsMatch(img, r, e, p); }
    assert IsMatch(img, r, e, PendingOf(r, e)) || !Fires(img, r, e);
  }

  lemma {:induction false} MatchOneMeters(img: Image, lim: Limits, st: State, budget: nat, e: Event, r: Rule, from: nat, max: nat)
    requires from <= |st.trace| && Metered(img, st.trace, from, max) && budget == Left(max, Spent(img, st.trace, from, |st.trace|))
    ensures var (st', left) := MatchOne(img, lim, st, budget, e, r);
            && st'.wm == st.wm && st.trace <= st'.trace && Metered(img, st'.trace, from, max)
            && left == Left(max, Spent(img, st'.trace, from, |st'.trace|))
            && Starts(st'.trace[|st.trace|..], if Closed(img, r, e, st.wm) then [r] else [], e, st.wm)
  {
    hide Bindings, Fires, Bounded, Spent, Metered, Closed;
    ClosedIs(img, r, e, st.wm);
    if Closed(img, r, e, st.wm) {
      var step := if budget == 0 then Exceeded(r, e, None) else Ran(r, e, None, st.wm, Bindings(img, r, e, RingOf(st.rings, e.scope), st.trace));
      MeteredSnoc(img, st.trace, step, from, max);
      assert (st.trace + [step])[|st.trace|..] == [step];
    }
  }

  lemma {:induction false} MatchAllMeters(img: Image, lim: Limits, st: State, budget: nat, e: Event, rules: seq<Rule>, from: nat, max: nat)
    requires from <= |st.trace| && Metered(img, st.trace, from, max) && budget == Left(max, Spent(img, st.trace, from, |st.trace|))
    ensures var st' := MatchAll(img, lim, st, budget, e, rules);
            && st.trace <= st'.trace && Metered(img, st'.trace, from, max)
            && Starts(st'.trace[|st.trace|..], ClosedRules(img, rules, e, st.wm), e, st.wm)
    decreases |rules|
  {
    hide MatchOne, Spent, Metered, Closed;
    if rules != [] {
      var (next, left) := MatchOne(img, lim, st, budget, e, rules[0]);
      MatchOneMeters(img, lim, st, budget, e, rules[0], from, max);
      MatchAllMeters(img, lim, next, left, e, rules[1..], from, max);
      var st' := MatchAll(img, lim, st, budget, e, rules);
      assert st'.trace[|st.trace|..] == next.trace[|st.trace|..] + st'.trace[|next.trace|..];
    }
  }

  /** One event starts the rules whose match with it is already closed, in rule order, and
      refuses exactly those that come when the budget is used up. */
  lemma {:induction false} BudgetIsExact(img: Image, lim: Limits, st: State, e: Event)
    ensures var st' := MatchAll(img, lim, st, lim.maxFirings, e, img.rules);
            && st.trace <= st'.trace && Metered(img, st'.trace, |st.trace|, lim.maxFirings)
            && Starts(st'.trace[|st.trace|..], ClosedRules(img, img.rules, e, st.wm), e, st.wm)
  {
    hide MatchAll, Starts;
    MatchAllMeters(img, lim, st, lim.maxFirings, e, img.rules, |st.trace|, lim.maxFirings);
  }

  /** Resumed bodies run in the order in which their matches were popped, each with a budget of
      its own; only matches whose anchor or rule is gone are passed over. */
  lemma {:induction false} ResumesInOrder(img: Image, lim: Limits, st: State, expired: seq<Pending>)
    ensures var st' := ResumeAll(img, lim, st, expired);
            && st.trace <= st'.trace && st'.rings == st.rings && st'.wm == st.wm
            && Resumes(st'.trace[|st.trace|..], Found(img, st.rings, expired), st.wm, lim.maxFirings)
    decreases |expired|
  {
    hide ResumeOne;
    if expired != [] {
      var next := ResumeOne(img, lim, st, expired[0]);
      ResumesOne(img, lim, st, expired[0]);
      ResumesInOrder(img, lim, next, expired[1..]);
      var st' := ResumeAll(img, lim, st, expired);
      assert st'.trace[|st.trace|..] == next.trace[|st.trace|..] + st'.trace[|next.trace|..];
    }
  }

  /** The matches whose anchor is buffered and whose rule exists. */
  ghost function Found(img: Image, rings: map<Scope, seq<Event>>, expired: seq<Pending>): seq<Pending>
  {
    if expired == [] then [] else (if IsFound(img, rings, expired[0]) then [expired[0]] else []) + Found(img, rings, expired[1..])
  }

  ghost predicate IsFound(img: Image, rings: map<Scope, seq<Event>>, p: Pending)
  {
    && p.scope in rings && (exists e :: e in rings[p.scope] && e.id == p.anchor)
    && exists r :: r in img.rules && r.id == p.rule
  }

  ghost predicate Resumes(steps: seq<Step>, found: seq<Pending>, wm: Time, max: nat)
  {
    && |steps| == |found|
    && forall k :: 0 <= k < |steps| ==>
         && !steps[k].Swept? && steps[k].origin == Some(found[k])
         && steps[k].rule.id == found[k].rule && steps[k].anchor.id == found[k].anchor
         && (steps[k].Ran? <==> max >= 1) && (steps[k].Ran? ==> steps[k].at == wm)
  }

  lemma {:induction false} RuleIsFound(rules: seq<Rule>, id: nat)
    ensures FindRule(rules, id).Some? <==> exists r :: r in rules && r.id == id
    ensures FindRule(rules, id).Some? ==> FindRule(rules, id).value.id == id
  {
    if rules != [] && rules[0].id != id {
      RuleIsFound(rules[1..], id);
      assert forall r :: r in rules <==> r == rules[0] || r in rules[1..];
    }
  }

  lemma ResumesOne(img: Image, lim: Limits, st: State, p: Pending)
    ensures var st' := ResumeOne(img, lim, st, p);
            && st.trace <= st'.trace && st'.rings == st.rings && st'.wm == st.wm
            && Resumes(st'.trace[|st.trace|..], if IsFound(img, st.rings, p) then [p] else [], st.wm, lim.maxFirings)
  {
    hide Bindings, Lookup, FindRule;
    RuleIsFound(img.rules, p.rule);
    var anchor, rule := Lookup(RingOf(st.rings, p.scope), p.anchor), FindRule(img.rules, p.rule);
    assert IsFound(img, st.rings, p) <==> anchor.Some? && rule.Some?;
    var st' := ResumeOne(img, lim, st, p);
    if anchor.Some? && rule.Some? { assert st'.trace[|st.trace|..] == [st'.trace[|st.trace|]]; } else { assert st'.trace[|st.trace|..] == []; }
  }

  // ----- the flush -----

  ghost predicate IsLongestOfAll(rules: seq<Rule>, d: int)
  {
    && (forall r, c :: r in rules && c in r.correlates && c.window.Calculable? ==> c.window.forward <= d)
    && (d == 0 || exists r, c :: r in rules && c in r.correlates && c.window.Calculable? && c.window.forward == d)
  }

  /** The flush is one millisecond behind the last event and the longest forward window. */
  lemma FlushIsBehindAll(img: Image, last: Time, d: nat)
    requires IsLongestOfAll(img.rules, d)
    ensures FlushTime(img, last) == if last + d + 1 > TIME_MAX then TIME_MAX else last + d + 1
  {
    var m := ImageMaxForward(img.rules);
    ImageMaxForwardBounds(img.rules);
    forall r, c | r in img.rules && c in r.correlates && c.window.Calculable? ensures c.window.forward <= m { MaxForwardBounds(r.correlates); }
    if m != 0 {
      var r :| r in img.rules && MaxForward(r.correlates) == m;
      MaxForwardBounds(r.correlates);
      var c :| c in r.correlates && Forward(c.window) == m;
      assert c.window.Calculable?;
    }
    assert d == m;
  }
}
