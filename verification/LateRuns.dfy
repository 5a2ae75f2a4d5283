/** When pruning the provenance index can be seen: exactly when a run falls into the window of
    an earlier one after a sweep has passed it; and an offline run that does so. */
module LateRuns {
  import opened Options
  import opened EventTime
  import opened Ring
  import opened Waiting
  import opened RuleImage
  import opened EngineModel
  import opened EngineSafety
  import opened EnginePruning
  import opened Dedup
  import Kleene

  function Window(step: Step, dedupWindow: Duration): int
    requires step.Ran?
  {
    WindowId(step.anchor.time, dedupWindow)
  }

  function Horizon(step: Step, lim: Limits, dedupWindow: Duration): int
    requires step.Swept?
  {
    WindowId(Sub(step.wm, lim.maxLookback), dedupWindow)
  }

  /** A run in the window of an earlier one, which a sweep in between has passed. */
  ghost predicate Reopens(trace: seq<Step>, lim: Limits, dedupWindow: Duration, i: nat, m: nat, k: nat)
  {
    && i < m < k < |trace| && trace[i].Ran? && trace[m].Swept? && trace[k].Ran?
    && Window(trace[i], dedupWindow) == Window(trace[k], dedupWindow) < Horizon(trace[m], lim, dedupWindow)
  }

  ghost predicate NoWindowReopens(trace: seq<Step>, lim: Limits, dedupWindow: Duration)
  {
    forall i, m, k :: !Reopens(trace, lim, dedupWindow, i, m, k)
  }

  // ----- what is lost -----

  lemma LostInRuns(a: seq<ProvOp>, b: seq<ProvOp>, key: ProvKey)
    requires Lost(a + b, key) && forall n :: 0 <= n < |b| ==> b[n].Infer?
    ensures Lost(a, key)
  {
    var ops := a + b;
    var j, m :| 0 <= j < m < |ops| && ops[j] == Infer(key) && ops[m].Prune? && key.window < ops[m].horizon;
    assert a[j] == ops[j] && a[m] == ops[m];
  }

  lemma StillLost(a: seq<ProvOp>, b: seq<ProvOp>, key: ProvKey)
    requires Lost(a, key)
    ensures Lost(a + b, key)
  {
    var j, m :| 0 <= j < m < |a| && a[j] == Infer(key) && a[m].Prune? && key.window < a[m].horizon;
    assert (a + b)[j] == a[j] && (a + b)[m] == a[m];
  }

  lemma {:induction false} InferenceIsRun(trace: seq<Step>, infers: Step -> seq<nat>, lim: Limits, dedupWindow: Duration, key: ProvKey)
    returns (i: nat)
    requires Infer(key) in IndexOps(trace, infers, lim, dedupWindow)
    ensures i < |trace| && trace[i].Ran? && Window(trace[i], dedupWindow) == key.window
  {
    var n := |trace| - 1;
    if Infer(key) in IndexOps(trace[..n], infers, lim, dedupWindow) {
      i := InferenceIsRun(trace[..n], infers, lim, dedupWindow, key);
    } else {
      if trace[n].Ran? { KeysAreInferences(infers(trace[n]), WindowId(trace[n].anchor.time, dedupWindow)); }
      i := n;
    }
  }

  lemma {:induction false} LostIsSwept(trace: seq<Step>, infers: Step -> seq<nat>, lim: Limits, dedupWindow: Duration, key: ProvKey)
    returns (i: nat, m: nat)
    requires Lost(IndexOps(trace, infers, lim, dedupWindow), key)
    ensures i < m < |trace| && trace[i].Ran? && trace[m].Swept?
    ensures Window(trace[i], dedupWindow) == key.window < Horizon(trace[m], lim, dedupWindow)
  {
    var n := |trace| - 1;
    var before, step := IndexOps(trace[..n], infers, lim, dedupWindow), trace[n];
    if step.Swept? {
      var ops := IndexOps(trace, infers, lim, dedupWindow);
      assert ops == before + [Prune(Horizon(step, lim, dedupWindow))];
      assert ops[..|ops| - 1] == before;
      LostSnoc(ops, key);
      if Lost(before, key) {
        i, m := LostIsSwept(trace[..n], infers, lim, dedupWindow, key);
      } else {
        i := InferenceIsRun(trace[..n], infers, lim, dedupWindow, key);
        m := n;
      }
    } else {
      if step.Ran? { KeysAreInferences(infers(step), WindowId(step.anchor.time, dedupWindow)); }
      LostInRuns(before, Offered(step, infers, lim, dedupWindow), key);
      i, m := LostIsSwept(trace[..n], infers, lim, dedupWindow, key);
    }
  }

  lemma LostReopens(trace: seq<Step>, infers: Step -> seq<nat>, lim: Limits, dedupWindow: Duration, key: ProvKey)
    requires trace != [] && trace[|trace| - 1].Ran? && Window(trace[|trace| - 1], dedupWindow) == key.window
    requires Lost(IndexOps(trace[..|trace| - 1], infers, lim, dedupWindow), key)
    ensures !NoWindowReopens(trace, lim, dedupWindow)
  {
    hide Lost, IndexOps;
    var i, m := LostIsSwept(trace[..|trace| - 1], infers, lim, dedupWindow, key);
    assert Reopens(trace, lim, dedupWindow, i, m, |trace| - 1);
  }

  lemma NeverReopenedConcat(a: seq<ProvOp>, b: seq<ProvOp>)
    requires NeverReopened(a)
    requires (|b| == 1 && b[0].Prune?) || forall op :: op in b ==> op.Infer? && !Lost(a, op.key)
    ensures NeverReopened(a + b)
  {
    var ops := a + b;
    forall n | 0 <= n < |ops| && ops[n].Infer? ensures !Lost(ops[..n], ops[n].key) {
      if n < |a| {
        assert ops[..n] == a[..n];
      } else {
        assert b[n - |a|] in b && ops[..n] == a + b[..n - |a|];
        if Lost(ops[..n], ops[n].key) { LostInRuns(a, b[..n - |a|], ops[n].key); }
      }
    }
  }

  lemma {:induction false} NothingReopens(trace: seq<Step>, infers: Step -> seq<nat>, lim: Limits, dedupWindow: Duration)
    requires NoWindowReopens(trace, lim, dedupWindow)
    ensures NeverReopened(IndexOps(trace, infers, lim, dedupWindow))
  {
    if trace != [] {
      var n := |trace| - 1;
      var before, step := IndexOps(trace[..n], infers, lim, dedupWindow), trace[n];
      forall i, m, k ensures !Reopens(trace[..n], lim, dedupWindow, i, m, k) {
        if Reopens(trace[..n], lim, dedupWindow, i, m, k) { assert Reopens(trace, lim, dedupWindow, i, m, k); }
      }
      NothingReopens(trace[..n], infers, lim, dedupWindow);
      if step.Ran? {
        KeysAreInferences(infers(step), WindowId(step.anchor.time, dedupWindow));
        forall op | op in Offered(step, infers, lim, dedupWindow) ensures op.Infer? && !Lost(before, op.key) {
          if Lost(before, op.key) { LostReopens(trace, infers, lim, dedupWindow, op.key); }
        }
      }
      NeverReopenedConcat(before, Offered(step, infers, lim, dedupWindow));
    }
  }

  // ----- the converse: a body that infers in every run -----

  function Always(): Step -> seq<nat> { (step: Step) => [0] }

  lemma {:induction false} IndexPrefix(trace: seq<Step>, infers: Step -> seq<nat>, lim: Limits, dedupWindow: Duration, n: nat)
    requires n <= |trace|
    ensures IndexOps(trace[..n], infers, lim, dedupWindow) <= IndexOps(trace, infers, lim, dedupWindow)
  {
    if n < |trace| {
      assert trace[..|trace| - 1][..n] == trace[..n];
      IndexPrefix(trace[..|trace| - 1], infers, lim, dedupWindow, n);
    } else {
      assert trace[..n] == trace;
    }
  }

  lemma OneKey(window: int)
    ensures Keys([0], window) == [Infer(ProvKey(0, window))]
  {
    assert [0][1..] == [] && Keys([], window) == [];
  }

  /** With such a body the index gets one inference per run. */
  lemma AlwaysOffers(trace: seq<Step>, lim: Limits, dedupWindow: Duration, k: nat)
    requires k < |trace| && trace[k].Ran?
    ensures IndexOps(trace[..k + 1], Always(), lim, dedupWindow)
         == IndexOps(trace[..k], Always(), lim, dedupWindow) + [Infer(ProvKey(0, Window(trace[k], dedupWindow)))]
  {
    assert trace[..k + 1][..k] == trace[..k] && |trace[..k + 1]| == k + 1;
    OneKey(Window(trace[k], dedupWindow));
  }

  lemma {:induction false} AlwaysInfers(trace: seq<Step>, lim: Limits, dedupWindow: Duration, i: nat)
    requires i < |trace| && trace[i].Ran?
    ensures Infer(ProvKey(0, Window(trace[i], dedupWindow))) in IndexOps(trace, Always(), lim, dedupWindow)
  {
    hide IndexOps;
    AlwaysOffers(trace, lim, dedupWindow, i);
    IndexPrefix(trace, Always(), lim, dedupWindow, i + 1);
    var ops := IndexOps(trace[..i + 1], Always(), lim, dedupWindow);
    assert ops[|ops| - 1] == Infer(ProvKey(0, Window(trace[i], dedupWindow)));
    assert IndexOps(trace, Always(), lim, dedupWindow)[|ops| - 1] == ops[|ops| - 1];
  }

  lemma {:induction false} LostAtOnce(before: seq<ProvOp>, key: ProvKey, horizon: int)
    requires Infer(key) in before && key.window < horizon
    ensures Lost(before + [Prune(horizon)], key)
  {
    var ops := before + [Prune(horizon)];
    assert ops[..|ops| - 1] == before;
    LostSnoc(ops, key);
  }

  lemma {:induction false} LostBySweep(trace: seq<Step>, lim: Limits, dedupWindow: Duration, i: nat, m: nat)
    requires i < m < |trace| && trace[i].Ran? && trace[m].Swept? && Window(trace[i], dedupWindow) < Horizon(trace[m], lim, dedupWindow)
    ensures Lost(IndexOps(trace, Always(), lim, dedupWindow), ProvKey(0, Window(trace[i], dedupWindow)))
  {
    var key := ProvKey(0, Window(trace[i], dedupWindow));
    var n := |trace| - 1;
    var before := IndexOps(trace[..n], Always(), lim, dedupWindow);
    if m == n {
      AlwaysInfers(trace[..n], lim, dedupWindow, i);
      LostAtOnce(before, key, Horizon(trace[n], lim, dedupWindow));
    } else {
      LostBySweep(trace[..n], lim, dedupWindow, i, m);
      StillLost(before, Offered(trace[n], Always(), lim, dedupWindow), key);
    }
  }

  lemma {:induction false} ReopeningShows(trace: seq<Step>, lim: Limits, dedupWindow: Duration, i: nat, m: nat, k: nat)
    requires Reopens(trace, lim, dedupWindow, i, m, k)
    ensures !PruningInvisible(IndexOps(trace, Always(), lim, dedupWindow))
  {
    hide IndexOps, Lost, PruningInvisible;
    var all := IndexOps(trace, Always(), lim, dedupWindow);
    var ops, before := IndexOps(trace[..k + 1], Always(), lim, dedupWindow), IndexOps(trace[..k], Always(), lim, dedupWindow);
    LostBySweep(trace[..k], lim, dedupWindow, i, m);
    AlwaysOffers(trace, lim, dedupWindow, k);
    IndexPrefix(trace, Always(), lim, dedupWindow, k + 1);
    assert ops[..|before|] == before && all[..|ops|] == ops;
    assert !NeverReopened(ops);
    EarlierOps(all, |ops|);
    PruningInvisibleIff(all);
  }

  /** Over a run's trace, pruning is invisible whatever the bodies infer exactly when no run
      falls in the window of an earlier one after a sweep has passed that window. */
  lemma {:induction false} PruningInvisibleToEveryBodyIff(trace: seq<Step>, lim: Limits, dedupWindow: Duration)
    ensures (forall infers: Step -> seq<nat> :: PruningInvisible(IndexOps(trace, infers, lim, dedupWindow)))
            <==> NoWindowReopens(trace, lim, dedupWindow)
  {
    hide PruningInvisible, Reopens, IndexOps, NeverReopened;
    if NoWindowReopens(trace, lim, dedupWindow) {
      forall infers: Step -> seq<nat> ensures PruningInvisible(IndexOps(trace, infers, lim, dedupWindow)) {
        NothingReopens(trace, infers, lim, dedupWindow);
        PruningInvisibleIff(IndexOps(trace, infers, lim, dedupWindow));
      }
    } else {
      var i, m, k :| Reopens(trace, lim, dedupWindow, i, m, k);
      ReopeningShows(trace, lim, dedupWindow, i, m, k);
    }
  }

  // ----- an offline run in which it shows -----

  const RULE := Rule(0, true, 0, 0, [])

  const IMAGE := Image([RULE], (r, e) => true, (r, k, b, c) => Kleene.Unknown, (t, r, k, e) => [], t => 0, s => 0, s => 0)

  const LIMITS := Limits(4096, 1024, 64, 60_000, 0, 0, 30_000)

  function At(id: nat, time: Time): Event { Event(id, 0, time, 0) }

  /** Offline: the target is the event's own time. */
  function Arrival(e: Event): Op { Accept(e, e.time, []) }

  /** The rule matches every event and looks nowhere, so an event runs it at once. */
  lemma ArrivalRuns(st: State, e: Event)
    requires st.queues == map[] && e.kind == 0
    ensures Legal(IMAGE, st, Arrival(e))
    ensures var st', wm := Do(IMAGE, LIMITS, st, Arrival(e)), Latest(st.wm, e.time);
            st'.queues == map[] && st'.wm == wm
            && exists b :: st'.trace == st.trace + [Swept(wm)] + [Ran(RULE, e, None, wm, b)]
  {
    hide Bindings, From, Push;
    var arrived := PushEvent(LIMITS, Ahead(Noted(st, e), e.time), e);
    assert Take(arrived).queues == map[];
    assert ResumeAll(IMAGE, LIMITS, Take(arrived), []) == Take(arrived);
    var settled := Settle(IMAGE, LIMITS, arrived, []);
    assert settled.trace == st.trace + [Swept(settled.wm)] && settled.queues == map[];
    RunsAtOnce(settled, e);
  }

  lemma RunsAtOnce(st: State, e: Event)
    requires e.time <= st.wm && e.kind == 0
    ensures exists b :: MatchAll(IMAGE, LIMITS, st, LIMITS.maxFirings, e, IMAGE.rules) == st.(trace := st.trace + [Ran(RULE, e, None, st.wm, b)])
  {
    hide Bindings;
    var b := Bindings(IMAGE, RULE, e, RingOf(st.rings, e.scope), st.trace);
    assert RULE.correlates == [] && MaxForward([]) == 0;
    assert Fires(IMAGE, RULE, e) && Deadline(RULE, e) == e.time;
    var (next, left) := MatchOne(IMAGE, LIMITS, st, LIMITS.maxFirings, e, RULE);
    assert next == st.(trace := st.trace + [Ran(RULE, e, None, st.wm, b)]);
    assert [RULE][1..] == [];
    assert MatchAll(IMAGE, LIMITS, next, left, e, []) == next;
  }

  /** A capture whose third event is more than the lookback late: the engine accepts it, as
      offline ingest does, and runs its body in the window of the first event again. */
  const LATE: seq<Op> := [Arrival(At(1, 0)), Arrival(At(2, 100_000)), Arrival(At(3, 500))]

  lemma {:induction false} LateReopens()
    ensures LegalRun(IMAGE, LIMITS, LATE) && WithinLookback(IMAGE.rules, LIMITS.maxLookback)
    ensures !HorizonRun(IMAGE, LIMITS, LATE)
    ensures Reopens(Run(IMAGE, LIMITS, LATE).trace, LIMITS, 1000, 1, 2, 5)
  {
    hide Do, Legal, WithinHorizon;
    var one, two := [LATE[0]], [LATE[0], LATE[1]];
    assert LATE[..2] == two && two[..1] == one && one[..0] == [];
    var s0 := Start();
    var s1 := Do(IMAGE, LIMITS, s0, LATE[0]);
    var s2 := Do(IMAGE, LIMITS, s1, LATE[1]);
    var s3 := Do(IMAGE, LIMITS, s2, LATE[2]);
    ArrivalRuns(s0, At(1, 0));
    ArrivalRuns(s1, At(2, 100_000));
    ArrivalRuns(s2, At(3, 500));
    assert Run(IMAGE, LIMITS, []) == s0 && Run(IMAGE, LIMITS, one) == s1 && Run(IMAGE, LIMITS, two) == s2 && Run(IMAGE, LIMITS, LATE) == s3;
    assert LegalRun(IMAGE, LIMITS, []) && LegalRun(IMAGE, LIMITS, one) && LegalRun(IMAGE, LIMITS, two) && LegalRun(IMAGE, LIMITS, LATE);
    var trace := s3.trace;
    assert trace[1].Ran? && trace[1].anchor == At(1, 0) && trace[2] == Swept(100_000) && trace[5].Ran? && trace[5].anchor == At(3, 500);
    if HorizonRun(IMAGE, LIMITS, LATE) { LateIsBehind(s2); }
  }

  lemma LateEventDefeatsPruning() returns (n: nat)
    ensures LegalRun(IMAGE, LIMITS, LATE) && WithinLookback(IMAGE.rules, LIMITS.maxLookback)
    ensures !HorizonRun(IMAGE, LIMITS, LATE)
    ensures var index := IndexOps(Run(IMAGE, LIMITS, LATE).trace, Always(), LIMITS, 1000);
            n < |index| && index[n].Infer? && index[n] in index[..n] && Accepted(index, n, true)
  {
    hide Run, LegalRun, HorizonRun, IndexOps, PruningInvisible, Accepted, Reopens;
    LateReopens();
    var trace := Run(IMAGE, LIMITS, LATE).trace;
    ReopeningShows(trace, LIMITS, 1000, 1, 2, 5);
    n := VisibleMeansRepeated(IndexOps(trace, Always(), LIMITS, 1000));
  }

  lemma LateIsBehind(st: State)
    requires st.wm == 100_000
    ensures !WithinHorizon(LIMITS, st, Arrival(At(3, 500)))
  {
  }
}
