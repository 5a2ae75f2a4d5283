/** Why the engine may prune its provenance index: no body it runs is anchored behind a
    horizon it has already swept. */
module EnginePruning {
  import opened Options
  import opened EventTime
  import opened Ring
  import opened Waiting
  import opened RuleImage
  import opened EngineModel
  import opened EngineSafety
  import opened Dedup

  ghost predicate RingsAbove(st: State, horizon: Time)
  {
    forall s, e :: s in st.rings && e in st.rings[s] ==> horizon <= e.time
  }

  /** Every run comes from an event at or above all horizons swept before it. */
  ghost predicate RunsAbove(trace: seq<Step>, lookback: Duration)
  {
    forall m, k :: 0 <= m < k < |trace| && trace[m].Swept? && trace[k].Ran? ==> Sub(trace[m].wm, lookback) <= trace[k].anchor.time
  }

  ghost predicate SweptUpTo(trace: seq<Step>, wm: Time)
  {
    forall m :: 0 <= m < |trace| && trace[m].Swept? ==> trace[m].wm <= wm
  }

  /** `floor` is the watermark of the last sweep. */
  ghost predicate Above(lim: Limits, st: State, floor: Time)
  {
    && RingsAbove(st, Sub(floor, lim.maxLookback))
    && RunsAbove(st.trace, lim.maxLookback) && SweptUpTo(st.trace, floor)
  }

  lemma RunIsAbove(img: Image, lim: Limits, st: State, floor: Time, r: Rule, e: Event, origin: Option<Pending>, budget: nat)
    requires Above(lim, st, floor) && Sub(floor, lim.maxLookback) <= e.time
    ensures Above(lim, RunRule(img, st, r, e, origin, budget).0, floor)
  {
    hide Bindings;
  }

  lemma ResumeOneIsAbove(img: Image, lim: Limits, st: State, floor: Time, m: Pending)
    requires Above(lim, st, floor)
    ensures Above(lim, ResumeOne(img, lim, st, m), floor)
  {
    hide RunRule, RunsAbove, SweptUpTo;
    var anchor, rule := Lookup(RingOf(st.rings, m.scope), m.anchor), FindRule(img.rules, m.rule);
    if anchor.Some? && rule.Some? {
      var counted := st.(ledger := st.ledger.(resumed := st.ledger.resumed + multiset{m}));
      RunIsAbove(img, lim, counted, floor, rule.value, anchor.value, Some(m), lim.maxFirings);
    }
  }

  lemma {:induction false} ResumeAllIsAbove(img: Image, lim: Limits, st: State, floor: Time, expired: seq<Pending>)
    requires Above(lim, st, floor)
    ensures Above(lim, ResumeAll(img, lim, st, expired), floor)
    decreases |expired|
  {
    hide ResumeOne, Above;
    if expired != [] {
      ResumeOneIsAbove(img, lim, st, floor, expired[0]);
      ResumeAllIsAbove(img, lim, ResumeOne(img, lim, st, expired[0]), floor, expired[1..]);
    }
  }

  lemma SettleIsAbove(img: Image, lim: Limits, st: State, floor: Time, expired: seq<Pending>)
    requires Above(lim, st, floor) && floor <= st.wm
    ensures Above(lim, Settle(img, lim, st, expired), st.wm)
  {
    hide ResumeAll;
    ResumeAllIsAbove(img, lim, Take(st), floor, expired);
    ResumeAllOnlyRuns(img, lim, Take(st), expired);
    SweepIsAbove(lim, ResumeAll(img, lim, Take(st), expired), floor);
  }

  lemma SweepIsAbove(lim: Limits, st: State, floor: Time)
    requires Above(lim, st, floor) && floor <= st.wm
    ensures Above(lim, EngineModel.Sweep(lim, st), st.wm)
  {
    forall s | s in st.rings ensures forall e :: e in From(st.rings[s], Sub(st.wm, lim.maxLookback)) ==> Sub(st.wm, lim.maxLookback) <= e.time {
      BetweenMembers(st.rings[s], Sub(st.wm, lim.maxLookback), TIME_MAX);
    }
  }

  lemma {:induction false} MatchAllIsAbove(img: Image, lim: Limits, st: State, floor: Time, budget: nat, e: Event, rules: seq<Rule>)
    requires Above(lim, st, floor) && Sub(floor, lim.maxLookback) <= e.time
    ensures Above(lim, MatchAll(img, lim, st, budget, e, rules), floor)
    decreases |rules|
  {
    hide RunRule, RunsAbove, SweptUpTo, Fires, Bounded;
    if rules != [] {
      var (next, left) := MatchOne(img, lim, st, budget, e, rules[0]);
      RunIsAbove(img, lim, st, floor, rules[0], e, None, budget);
      assert Above(lim, next, floor);
      MatchAllIsAbove(img, lim, next, floor, left, e, rules[1..]);
    }
  }

  lemma PushIsAbove(lim: Limits, st: State, floor: Time, e: Event)
    requires Above(lim, st, floor) && RingsOk(lim, st) && Sub(floor, lim.maxLookback) <= e.time
    ensures Above(lim, PushEvent(lim, st, e), floor)
  {
    PushedRing(lim, st, e);
    hide Push, Sorted, RunsAbove, SweptUpTo;
  }

  /** The accepted event is not older than the horizon of the sweep it causes. */
  ghost predicate WithinHorizon(lim: Limits, st: State, op: Op)
  {
    op.Accept? ==> Sub(Latest(st.wm, op.target), lim.maxLookback) <= op.event.time
  }

  ghost predicate HorizonRun(img: Image, lim: Limits, ops: seq<Op>)
  {
    ops == [] ||
    (HorizonRun(img, lim, ops[..|ops| - 1]) && WithinHorizon(lim, Run(img, lim, ops[..|ops| - 1]), ops[|ops| - 1]))
  }

  lemma DoIsAbove(img: Image, lim: Limits, st: State, op: Op)
    requires Above(lim, st, st.wm) && RingsOk(lim, st) && WithinHorizon(lim, st, op)
    ensures Above(lim, Do(img, lim, st, op), Do(img, lim, st, op).wm)
  {
    hide Settle, MatchAll, Push, RunsAbove, SweptUpTo, RingsOk;
    if op.Accept? {
      var noted := Ahead(Noted(st, op.event), op.target);
      SameRings(lim, st, noted);
      PushIsAbove(lim, noted, st.wm, op.event);
      var arrived := PushEvent(lim, noted, op.event);
      SettleIsAbove(img, lim, arrived, st.wm, op.expired);
      SettleWm(img, lim, arrived, op.expired);
      var settled := Settle(img, lim, arrived, op.expired);
      MatchAllIsAbove(img, lim, settled, settled.wm, lim.maxFirings, op.event, img.rules);
      MatchAllOnlyMatches(img, lim, settled, lim.maxFirings, op.event, img.rules);
    } else if op.Advance? || (op.Finish? && !st.finished && st.last.Some?) {
      var ready := if op.Advance? then Ahead(st, op.to) else Ahead(st.(finished := true), FlushTime(img, st.last.value));
      SettleIsAbove(img, lim, ready, st.wm, op.expired);
      SettleWm(img, lim, ready, op.expired);
    }
  }

  lemma SameRings(lim: Limits, st: State, st': State)
    requires RingsOk(lim, st) && st'.rings == st.rings && st'.history == st.history
    ensures RingsOk(lim, st')
  {
    hide Sorted;
  }

  lemma {:induction false} RunIsAlwaysAbove(img: Image, lim: Limits, ops: seq<Op>)
    requires HorizonRun(img, lim, ops)
    ensures var st := Run(img, lim, ops); Above(lim, st, st.wm) && RingsOk(lim, st)
  {
    hide Do, WithinHorizon, Sorted;
    if ops != [] {
      var init := ops[..|ops| - 1];
      RunIsAlwaysAbove(img, lim, init);
      DoIsAbove(img, lim, Run(img, lim, init), ops[|ops| - 1]);
      DoKeepsRings(img, lim, Run(img, lim, init), ops[|ops| - 1]);
    }
  }

  lemma DoKeepsRings(img: Image, lim: Limits, st: State, op: Op)
    requires RingsOk(lim, st)
    ensures RingsOk(lim, Do(img, lim, st, op))
  {
    hide ResumeAll, MatchAll, Push, Sorted;
    if op.Accept? {
      var noted := Ahead(Noted(st, op.event), op.target);
      PushKeepsRings(lim, noted, op.event);
      var arrived := PushEvent(lim, noted, op.event);
      SettleKeepsRings(img, lim, arrived, op.expired);
      var settled := Settle(img, lim, arrived, op.expired);
      MatchAllOnlyMatches(img, lim, settled, lim.maxFirings, op.event, img.rules);
    } else if op.Advance? || (op.Finish? && !st.finished && st.last.Some?) {
      var ready := if op.Advance? then Ahead(st, op.to) else Ahead(st.(finished := true), FlushTime(img, st.last.value));
      SettleKeepsRings(img, lim, ready, op.expired);
    }
  }

  lemma SettleKeepsRings(img: Image, lim: Limits, st: State, expired: seq<Pending>)
    requires RingsOk(lim, st)
    ensures RingsOk(lim, Settle(img, lim, st, expired))
  {
    hide ResumeAll, Sorted;
    ResumeAllOnlyRuns(img, lim, Take(st), expired);
    SweepKeepsRings(lim, ResumeAll(img, lim, Take(st), expired));
  }

  // ----- the provenance index over a run -----

  /** `infers` lists the static keys a body offers to the index. */
  function Offered(step: Step, infers: Step -> seq<nat>, lim: Limits, dedupWindow: Duration): seq<ProvOp>
  {
    match step
    case Ran(_, anchor, _, _, _) => Keys(infers(step), WindowId(anchor.time, dedupWindow))
    case Exceeded(_, _, _) => []
    case Swept(wm) => [Prune(WindowId(Sub(wm, lim.maxLookback), dedupWindow))]
  }

  function Keys(whats: seq<nat>, window: int): seq<ProvOp>
  {
    if whats == [] then [] else [Infer(ProvKey(whats[0], window))] + Keys(whats[1..], window)
  }

  function IndexOps(trace: seq<Step>, infers: Step -> seq<nat>, lim: Limits, dedupWindow: Duration): seq<ProvOp>
  {
    if trace == [] then []
    else IndexOps(trace[..|trace| - 1], infers, lim, dedupWindow) + Offered(trace[|trace| - 1], infers, lim, dedupWindow)
  }

  lemma {:induction false} KeysAreInferences(whats: seq<nat>, window: int)
    ensures forall op :: op in Keys(whats, window) ==> op.Infer? && op.key.window == window
  {
    if whats != [] { KeysAreInferences(whats[1..], window); }
  }

  lemma {:induction false} PrunesAreSweeps(trace: seq<Step>, infers: Step -> seq<nat>, lim: Limits, dedupWindow: Duration, op: ProvOp) returns (m: nat)
    requires op in IndexOps(trace, infers, lim, dedupWindow) && op.Prune?
    ensures m < |trace| && trace[m].Swept? && op.horizon == WindowId(Sub(trace[m].wm, lim.maxLookback), dedupWindow)
  {
    var n := |trace| - 1;
    if op in IndexOps(trace[..n], infers, lim, dedupWindow) {
      m := PrunesAreSweeps(trace[..n], infers, lim, dedupWindow, op);
    } else {
      if trace[n].Ran? { KeysAreInferences(infers(trace[n]), WindowId(trace[n].anchor.time, dedupWindow)); }
      m := n;
    }
  }

  lemma {:induction false} IndexOpsAreAbove(trace: seq<Step>, infers: Step -> seq<nat>, lim: Limits, dedupWindow: Duration)
    requires RunsAbove(trace, lim.maxLookback)
    ensures AboveHorizons(IndexOps(trace, infers, lim, dedupWindow))
  {
    if trace != [] {
      var n := |trace| - 1;
      var before, step := IndexOps(trace[..n], infers, lim, dedupWindow), trace[n];
      IndexOpsAreAbove(trace[..n], infers, lim, dedupWindow);
      if step.Ran? {
        KeysAreInferences(infers(step), WindowId(step.anchor.time, dedupWindow));
        forall op | op in before && op.Prune? ensures op.horizon <= WindowId(step.anchor.time, dedupWindow) {
          var m := PrunesAreSweeps(trace[..n], infers, lim, dedupWindow, op);
          WindowsAreOrdered(Sub(trace[m].wm, lim.maxLookback), step.anchor.time, dedupWindow);
        }
      }
      AboveConcat(before, Offered(step, infers, lim, dedupWindow));
    }
  }

  lemma AboveConcat(a: seq<ProvOp>, b: seq<ProvOp>)
    requires AboveHorizons(a) && forall n :: 0 <= n < |b| ==> |b| == 1 || b[n].Infer?
    requires forall x, y :: x in a && x.Prune? && y in b && y.Infer? ==> x.horizon <= y.key.window
    ensures AboveHorizons(a + b)
  {
    var ops := a + b;
    forall m, i | 0 <= m < i < |ops| && ops[m].Prune? && ops[i].Infer? ensures ops[i].key.window >= ops[m].horizon {
      if m < |a| && i >= |a| { assert a[m] in a && b[i - |a|] in b; }
    }
  }

  /** In a run whose events are not older than the collection horizon they meet, the pruned
      provenance index decides every inference as a never-pruned one, and each key takes
      effect at its first inference only. */
  lemma {:induction false} PruningIsInvisibleToTheEngine(img: Image, lim: Limits, ops: seq<Op>, infers: Step -> seq<nat>, dedupWindow: Duration)
    requires HorizonRun(img, lim, ops)
    ensures var index := IndexOps(Run(img, lim, ops).trace, infers, lim, dedupWindow);
            && PruningInvisible(index)
            && forall i :: 0 <= i < |index| && index[i].Infer? ==> (Accepted(index, i, true) <==> index[i] !in index[..i])
  {
    hide Run, HorizonRun, Accepted;
    RunIsAlwaysAbove(img, lim, ops);
    var index := IndexOps(Run(img, lim, ops).trace, infers, lim, dedupWindow);
    IndexOpsAreAbove(Run(img, lim, ops).trace, infers, lim, dedupWindow);
    forall i | 0 <= i < |index| && index[i].Infer? ensures Accepted(index, i, true) <==> index[i] !in index[..i] {
      OncePerWindow(index, i);
    }
    AboveIsInvisible(index);
  }

  // ----- the cooldown index over a run -----

  function Stamp(step: Step): seq<Time>
  {
    if step.Ran? then [step.at] else if step.Swept? then [step.wm] else []
  }

  function Stamps(trace: seq<Step>): seq<Time>
  {
    if trace == [] then [] else Stamps(trace[..|trace| - 1]) + Stamp(trace[|trace| - 1])
  }

  ghost predicate AscendTo(stamps: seq<Time>, wm: Time)
  {
    && (forall i, j :: 0 <= i < j < |stamps| ==> stamps[i] <= stamps[j])
    && (forall i :: 0 <= i < |stamps| ==> stamps[i] <= wm)
  }

  /** Runs and sweeps carry ascending watermarks, none beyond the current one. */
  ghost predicate Ascending(st: State) { AscendTo(Stamps(st.trace), st.wm) }

  lemma StampsSnoc(trace: seq<Step>, step: Step)
    ensures Stamps(trace + [step]) == Stamps(trace) + Stamp(step)
  {
    assert (trace + [step])[..|trace + [step]| - 1] == trace;
  }

  lemma RunAscends(img: Image, st: State, r: Rule, e: Event, origin: Option<Pending>, budget: nat)
    requires Ascending(st)
    ensures Ascending(RunRule(img, st, r, e, origin, budget).0)
  {
    hide Bindings, Stamps;
    StampsSnoc(st.trace, Exceeded(r, e, origin));
    StampsSnoc(st.trace, Ran(r, e, origin, st.wm, Bindings(img, r, e, RingOf(st.rings, e.scope), st.trace)));
  }

  lemma ResumeOneAscends(img: Image, lim: Limits, st: State, m: Pending)
    requires Ascending(st)
    ensures Ascending(ResumeOne(img, lim, st, m))
  {
    hide RunRule, Lookup, FindRule;
    var anchor, rule := Lookup(RingOf(st.rings, m.scope), m.anchor), FindRule(img.rules, m.rule);
    if anchor.Some? && rule.Some? {
      var counted := st.(ledger := st.ledger.(resumed := st.ledger.resumed + multiset{m}));
      RunAscends(img, counted, rule.value, anchor.value, Some(m), lim.maxFirings);
    }
  }

  lemma {:induction false} ResumeAllAscends(img: Image, lim: Limits, st: State, expired: seq<Pending>)
    requires Ascending(st)
    ensures Ascending(ResumeAll(img, lim, st, expired))
    decreases |expired|
  {
    hide ResumeOne, Ascending;
    if expired != [] {
      ResumeOneAscends(img, lim, st, expired[0]);
      ResumeAllAscends(img, lim, ResumeOne(img, lim, st, expired[0]), expired[1..]);
    }
  }

  lemma SettleAscends(img: Image, lim: Limits, st: State, expired: seq<Pending>)
    requires Ascending(st)
    ensures Ascending(Settle(img, lim, st, expired))
  {
    hide ResumeAll, Stamps;
    ResumeAllAscends(img, lim, Take(st), expired);
    var resumed := ResumeAll(img, lim, Take(st), expired);
    StampsSnoc(resumed.trace, Swept(resumed.wm));
  }

  lemma {:induction false} MatchAllAscends(img: Image, lim: Limits, st: State, budget: nat, e: Event, rules: seq<Rule>)
    requires Ascending(st)
    ensures Ascending(MatchAll(img, lim, st, budget, e, rules))
    decreases |rules|
  {
    hide RunRule, Stamps, Fires, Bounded;
    if rules != [] {
      RunAscends(img, st, rules[0], e, None, budget);
      var (next, left) := MatchOne(img, lim, st, budget, e, rules[0]);
      MatchAllAscends(img, lim, next, left, e, rules[1..]);
    }
  }

  lemma AheadAscends(st: State, st': State)
    requires Ascending(st) && st'.trace == st.trace && st.wm <= st'.wm
    ensures Ascending(st')
  {
  }

  /** The watermark never regresses, and what is done at it is done in that order. */
  lemma DoAscends(img: Image, lim: Limits, st: State, op: Op)
    requires Ascending(st)
    ensures Ascending(Do(img, lim, st, op)) && st.wm <= Do(img, lim, st, op).wm
  {
    hide Settle, MatchAll, Push, Ascending;
    if op.Accept? {
      var arrived := PushEvent(lim, Ahead(Noted(st, op.event), op.target), op.event);
      AheadAscends(st, arrived);
      SettleAscends(img, lim, arrived, op.expired);
      SettleWm(img, lim, arrived, op.expired);
      var settled := Settle(img, lim, arrived, op.expired);
      MatchAllAscends(img, lim, settled, lim.maxFirings, op.event, img.rules);
      MatchAllOnlyMatches(img, lim, settled, lim.maxFirings, op.event, img.rules);
    } else if op.Advance? || (op.Finish? && !st.finished && st.last.Some?) {
      var ready := if op.Advance? then Ahead(st, op.to) else Ahead(st.(finished := true), FlushTime(img, st.last.value));
      AheadAscends(st, ready);
      SettleAscends(img, lim, ready, op.expired);
      SettleWm(img, lim, ready, op.expired);
    } else {
      AheadAscends(st, Do(img, lim, st, op));
    }
  }

  lemma {:induction false} RunIsAscending(img: Image, lim: Limits, ops: seq<Op>)
    ensures Ascending(Run(img, lim, ops))
  {
    hide Do;
    if ops != [] {
      RunIsAscending(img, lim, ops[..|ops| - 1]);
      DoAscends(img, lim, Run(img, lim, ops[..|ops| - 1]), ops[|ops| - 1]);
    }
  }

  /** `emits` lists the problems that a body and its cascade try to emit. */
  function Tries(whats: seq<nat>, at: Time): seq<EmitOp>
  {
    if whats == [] then [] else [Emit(whats[0], at)] + Tries(whats[1..], at)
  }

  function CooldownOps(trace: seq<Step>, emits: Step -> seq<nat>): seq<EmitOp>
  {
    if trace == [] then []
    else
      var step, before := trace[|trace| - 1], CooldownOps(trace[..|trace| - 1], emits);
      match step
      case Ran(_, _, _, at, _) => before + Tries(emits(step), at)
      case Exceeded(_, _, _) => before
      case Swept(wm) => before + [EmitOp.Sweep(wm)]
  }

  lemma {:induction false} TriesAreAt(whats: seq<nat>, at: Time)
    ensures forall op :: op in Tries(whats, at) ==> op.wm == at
  {
    if whats != [] { TriesAreAt(whats[1..], at); }
  }

  lemma {:induction false} CooldownOpsAscend(trace: seq<Step>, emits: Step -> seq<nat>, wm: Time)
    requires AscendTo(Stamps(trace), wm)
    ensures Monotone(CooldownOps(trace, emits)) && forall op :: op in CooldownOps(trace, emits) ==> op.wm <= wm
  {
    hide Monotone, AscendTo;
    if trace != [] {
      var n := |trace| - 1;
      var step, before := trace[n], Stamps(trace[..n]);
      if step.Exceeded? {
        assert before + Stamp(step) == before;
        CooldownOpsAscend(trace[..n], emits, wm);
      } else {
        var at := if step.Ran? then step.at else step.wm;
        assert Stamp(step) == [at];
        LastStamp(before, at, wm);
        CooldownOpsAscend(trace[..n], emits, at);
        if step.Ran? {
          TriesAreAt(emits(step), at);
          MonotoneConcat(CooldownOps(trace[..n], emits), Tries(emits(step), at), at);
        } else {
          MonotoneConcat(CooldownOps(trace[..n], emits), [EmitOp.Sweep(at)], at);
        }
      }
    } else {
      NoOps();
    }
  }

  lemma NoOps()
    ensures Monotone([])
  {
  }

  lemma LastStamp(before: seq<Time>, at: Time, wm: Time)
    requires AscendTo(before + [at], wm)
    ensures AscendTo(before, at) && at <= wm
  {
    var all := before + [at];
    assert all[|before|] == at;
    forall i | 0 <= i < |before| ensures before[i] <= at && all[i] == before[i] {
      assert all[i] <= all[|before|];
    }
  }

  lemma MonotoneConcat(a: seq<EmitOp>, b: seq<EmitOp>, at: Time)
    requires Monotone(a) && (forall op :: op in a ==> op.wm <= at) && (forall op :: op in b ==> op.wm == at)
    ensures Monotone(a + b)
  {
    var ops := a + b;
    forall i, j | 0 <= i < j < |ops| ensures ops[i].wm <= ops[j].wm {
      if i < |a| <= j { assert a[i] in a && b[j - |a|] in b; }
      if i >= |a| { assert b[i - |a|] in b && b[j - |a|] in b; }
    }
  }

  /** In every run, sweeping the cooldown index changes no emission, and a problem goes out
      exactly when every earlier one of its key that went out is more than the cooldown away. */
  lemma {:induction false} CooldownHoldsInTheEngine(img: Image, lim: Limits, ops: seq<Op>, emits: Step -> seq<nat>, cooldown: Duration)
    requires cooldown < TIME_MAX
    ensures var tries := CooldownOps(Run(img, lim, ops).trace, emits);
            && SweepInvisible(tries, cooldown)
            && forall j :: 0 <= j < |tries| && tries[j].Emit? ==> (Emits(tries, j, cooldown, true) <==> Spaced(tries, j, cooldown, true))
  {
    hide Run, Emits, Spaced;
    RunIsAscending(img, lim, ops);
    var st := Run(img, lim, ops);
    var tries := CooldownOps(st.trace, emits);
    CooldownOpsAscend(st.trace, emits, st.wm);
    SweepsAreInvisible(tries, cooldown);
    forall j | 0 <= j < |tries| && tries[j].Emit? ensures Emits(tries, j, cooldown, true) <==> Spaced(tries, j, cooldown, true) {
      EmissionsAreSpaced(tries, j, cooldown);
    }
  }
}
