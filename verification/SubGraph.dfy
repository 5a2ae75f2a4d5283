/** The two dedup indices and the confidence scale of a partition:
    crates/airpulse_dsl-store/src/subgraph.rs and crates/airpulse_dsl-types/src/confidence.rs. */
module Dedup {
  import opened EventTime

  /** The static part of a provenance key (rule, cause, target) is one opaque number. */
  datatype ProvKey = ProvKey(what: nat, window: int)

  /** Rule, problem and target as one opaque number, with the emission watermark. */
  datatype Emission = Emission(what: nat, wm: Time)

  function WindowId(time: Time, dedupWindow: Duration): int
  {
    time / (if dedupWindow < 1 then 1 else dedupWindow)
  }

  function Unpruned(seen: set<ProvKey>, horizon: int): set<ProvKey>
  {
    set k | k in seen && k.window >= horizon
  }

  predicate CoolingDown(emitted: set<Emission>, what: nat, wm: Time, cooldown: Duration)
  {
    exists e :: e in emitted && e.what == what && Clamp(wm - e.wm) <= cooldown
  }

  function Marked(emitted: set<Emission>, what: nat, wm: Time, cooldown: Duration): set<Emission>
  {
    if CoolingDown(emitted, what, wm, cooldown) then emitted
    else (set e | e in emitted && e.what != what) + {Emission(what, wm)}
  }

  function Recent(emitted: set<Emission>, wm: Time, cooldown: Duration): set<Emission>
  {
    set e | e in emitted && e.wm >= Sub(wm, cooldown)
  }

  /** Window `k` is over before `time`. */
  predicate Behind(k: int, time: Time, dedupWindow: Duration)
  {
    (if dedupWindow == 0 then 1 else dedupWindow) * (k + 1) <= time
  }

  lemma BehindIs(k: int, time: Time, dedupWindow: Duration)
    ensures k < WindowId(time, dedupWindow) <==> Behind(k, time, dedupWindow)
  {
    var w: int := if dedupWindow == 0 then 1 else dedupWindow;
    var n := WindowId(time, dedupWindow);
    FloorDiv(time, w);
    if k < n { Scaled(w, n - (k + 1)); } else { Scaled(w, k - n); }
  }

  /** The two indices as the source keeps them. */
  class SubGraph {
    var seenProvenance: set<ProvKey>
    var emittedProblems: set<Emission>

    constructor ()
      ensures seenProvenance == {} && emittedProblems == {}
    {
      seenProvenance, emittedProblems := {}, {};
    }

    method TryInsertProvenance(key: ProvKey) returns (isNew: bool)
      modifies this`seenProvenance
      ensures isNew == (key !in old(seenProvenance)) && seenProvenance == old(seenProvenance) + {key}
    {
      isNew := key !in seenProvenance;
      seenProvenance := seenProvenance + {key};
    }

    method PruneProvenance(wm: Time, maxLookback: Duration, dedupWindow: Duration) returns (pruned: nat)
      modifies this`seenProvenance
      ensures seenProvenance == Unpruned(old(seenProvenance), WindowId(Sub(wm, maxLookback), dedupWindow))
      ensures forall k :: k in seenProvenance <==> k in old(seenProvenance) && !Behind(k.window, Sub(wm, maxLookback), dedupWindow)
      ensures pruned == |old(seenProvenance) - seenProvenance|
    {
      forall k: int ensures k < WindowId(Sub(wm, maxLookback), dedupWindow) <==> Behind(k, Sub(wm, maxLookback), dedupWindow) {
        BehindIs(k, Sub(wm, maxLookback), dedupWindow);
      }
      var kept := Unpruned(seenProvenance, WindowId(Sub(wm, maxLookback), dedupWindow));
      pruned := |seenProvenance - kept|;
      seenProvenance := kept;
    }

    method TryMarkEmitted(what: nat, wm: Time, cooldown: Duration) returns (emitted: bool)
      modifies this`emittedProblems
      ensures emitted == !CoolingDown(old(emittedProblems), what, wm, cooldown)
      ensures emittedProblems == Marked(old(emittedProblems), what, wm, cooldown)
      ensures emitted <==> forall e :: e in old(emittedProblems) && e.what == what ==> wm - e.wm > cooldown && cooldown < TIME_MAX
      ensures !emitted ==> emittedProblems == old(emittedProblems)
      ensures emitted ==> forall e :: e in emittedProblems <==> e == Emission(what, wm) || (e in old(emittedProblems) && e.what != what)
    {
      if exists e :: e in emittedProblems && e.what == what && Clamp(wm - e.wm) <= cooldown {
        return false;
      }
      emittedProblems := set e | e in emittedProblems && e.what != what;
      var entry := Emission(what, wm);
      emitted := entry !in emittedProblems;
      emittedProblems := emittedProblems + {entry};
    }

    method PruneEmitted(wm: Time, maxCooldown: Duration) returns (pruned: nat)
      modifies this`emittedProblems
      ensures emittedProblems == Recent(old(emittedProblems), wm, maxCooldown)
      ensures forall e :: e in emittedProblems <==> e in old(emittedProblems) && e.wm >= wm - maxCooldown
      ensures pruned == |old(emittedProblems) - emittedProblems|
    {
      var kept := Recent(emittedProblems, wm, maxCooldown);
      pruned := |emittedProblems - kept|;
      emittedProblems := kept;
    }
  }

  // ----- provenance over whole runs -----

  datatype ProvOp = Infer(key: ProvKey) | Prune(horizon: int)

  /** The index after `ops`, with pruning or with every prune skipped. */
  function Seen(ops: seq<ProvOp>, pruning: bool): set<ProvKey>
  {
    if ops == [] then {}
    else
      var before := Seen(ops[..|ops| - 1], pruning);
      match ops[|ops| - 1]
      case Infer(k) => before + {k}
      case Prune(h) => if pruning then Unpruned(before, h) else before
  }

  /** Whether the inference at `i` takes effect. */
  predicate Accepted(ops: seq<ProvOp>, i: nat, pruning: bool)
    requires i < |ops| && ops[i].Infer?
  {
    ops[i].key !in Seen(ops[..i], pruning)
  }

  /** `k` was inferred in `ops` and a later prune passed its window. */
  ghost predicate Lost(ops: seq<ProvOp>, k: ProvKey)
  {
    exists j, m :: 0 <= j < m < |ops| && ops[j] == Infer(k) && ops[m].Prune? && k.window < ops[m].horizon
  }

  ghost predicate NeverReopened(ops: seq<ProvOp>)
  {
    forall i :: 0 <= i < |ops| && ops[i].Infer? ==> !Lost(ops[..i], ops[i].key)
  }

  ghost predicate PruningInvisible(ops: seq<ProvOp>)
  {
    forall i :: 0 <= i < |ops| && ops[i].Infer? ==> Accepted(ops, i, true) == Accepted(ops, i, false)
  }

  /** No inference lies behind a horizon already passed. */
  ghost predicate AboveHorizons(ops: seq<ProvOp>)
  {
    forall m, i :: 0 <= m < i < |ops| && ops[m].Prune? && ops[i].Infer? ==> ops[i].key.window >= ops[m].horizon
  }

  lemma {:induction false} FullIsHistory(ops: seq<ProvOp>, k: ProvKey)
    ensures k in Seen(ops, false) <==> Infer(k) in ops
  {
    if ops != [] {
      FullIsHistory(ops[..|ops| - 1], k);
      assert ops == ops[..|ops| - 1] + [ops[|ops| - 1]];
    }
  }

  lemma LostSnoc(ops: seq<ProvOp>, k: ProvKey)
    requires ops != []
    ensures var init, last := ops[..|ops| - 1], ops[|ops| - 1];
            Lost(ops, k) <==> Lost(init, k) || (last.Prune? && k.window < last.horizon && Infer(k) in init)
  {
    var init, last := ops[..|ops| - 1], ops[|ops| - 1];
    if Lost(ops, k) {
      var j, m :| 0 <= j < m < |ops| && ops[j] == Infer(k) && ops[m].Prune? && k.window < ops[m].horizon;
      assert init[j] == Infer(k);
      if m < |init| { assert init[m] == ops[m]; }
    }
    if Lost(init, k) {
      var j, m :| 0 <= j < m < |init| && init[j] == Infer(k) && init[m].Prune? && k.window < init[m].horizon;
      assert ops[j] == Infer(k) && ops[m] == init[m];
    }
    if last.Prune? && k.window < last.horizon && Infer(k) in init {
      var j :| 0 <= j < |init| && init[j] == Infer(k);
      assert ops[j] == Infer(k) && ops[|ops| - 1] == last;
    }
  }

  /** Until a lost key comes back, the pruned index is the full one without lost keys. */
  lemma {:induction false} PrunedIndex(ops: seq<ProvOp>, k: ProvKey)
    requires NeverReopened(ops)
    ensures k in Seen(ops, true) <==> Infer(k) in ops && !Lost(ops, k)
  {
    if ops != [] {
      var init, last := ops[..|ops| - 1], ops[|ops| - 1];
      EarlierOps(ops, |ops| - 1);
      PrunedIndex(init, k);
      LostSnoc(ops, k);
      assert ops == init + [last];
    }
  }

  lemma EarlierOps(ops: seq<ProvOp>, n: nat)
    requires n <= |ops|
    ensures NeverReopened(ops) ==> NeverReopened(ops[..n])
    ensures PruningInvisible(ops) ==> PruningInvisible(ops[..n])
  {
    forall i | 0 <= i < n ensures ops[..n][..i] == ops[..i] {}
  }

  /** Over any run, pruning changes no decision exactly when no key is inferred again after
      a prune passed its window. */
  lemma {:induction false} PruningInvisibleIff(ops: seq<ProvOp>)
    ensures PruningInvisible(ops) <==> NeverReopened(ops)
  {
    if ops != [] {
      var init, last := ops[..|ops| - 1], ops[|ops| - 1];
      PruningInvisibleIff(init);
      EarlierOps(ops, |ops| - 1);
      forall i | 0 <= i < |init| ensures ops[..i] == init[..i] && ops[i] == init[i] {}
      if NeverReopened(init) && last.Infer? {
        PrunedIndex(init, last.key);
        FullIsHistory(init, last.key);
        LostWasInferred(init, last.key);
      }
    }
  }

  /** The pruned index holds nothing the full one does not: where they differ, the pruned one
      lets a repetition through. */
  lemma {:induction false} VisibleMeansRepeated(ops: seq<ProvOp>) returns (n: nat)
    requires !PruningInvisible(ops)
    ensures n < |ops| && ops[n].Infer? && ops[n] in ops[..n] && Accepted(ops, n, true)
  {
    n :| 0 <= n < |ops| && ops[n].Infer? && Accepted(ops, n, true) != Accepted(ops, n, false);
    PrunedIsPart(ops[..n]);
    FullIsHistory(ops[..n], ops[n].key);
  }

  lemma {:induction false} PrunedIsPart(ops: seq<ProvOp>)
    ensures Seen(ops, true) <= Seen(ops, false)
  {
    if ops != [] { PrunedIsPart(ops[..|ops| - 1]); }
  }

  lemma LostWasInferred(ops: seq<ProvOp>, k: ProvKey)
    ensures Lost(ops, k) ==> Infer(k) in ops
  {
  }

  /** Inferences above every earlier horizon are decided as if nothing were ever pruned, and
      each key takes effect at its first inference only. */
  lemma {:induction false} OncePerWindow(ops: seq<ProvOp>, i: nat)
    requires AboveHorizons(ops) && i < |ops| && ops[i].Infer?
    ensures Accepted(ops, i, true) <==> ops[i] !in ops[..i]
  {
    AboveIsInvisible(ops);
    FullIsHistory(ops[..i], ops[i].key);
  }

  lemma {:induction false} AboveIsInvisible(ops: seq<ProvOp>)
    requires AboveHorizons(ops)
    ensures PruningInvisible(ops)
  {
    forall n | 0 <= n < |ops| && ops[n].Infer? ensures !Lost(ops[..n], ops[n].key) {
      forall m | 0 <= m < n && ops[m].Prune? ensures ops[..n][m] == ops[m] {}
    }
    PruningInvisibleIff(ops);
  }

  /** Window `k` holds the times from `k` widths on up to the next one, below zero too; a
      width of zero counts as one. */
  lemma {:induction false} WindowHolds(t: Time, dedupWindow: Duration, k: int)
    ensures var w: int := if dedupWindow == 0 then 1 else dedupWindow;
            WindowId(t, dedupWindow) == k <==> w * k <= t < w * (k + 1)
  {
    var w: int := if dedupWindow == 0 then 1 else dedupWindow;
    FloorDiv(t, w);
    if w * k <= t < w * (k + 1) {
      Quotients(w, t / w, k, t, t);
      Quotients(w, k, t / w, t, t);
    }
  }

  /** An event inside the lookback horizon never falls in a pruned window. */
  lemma {:induction false} WindowsAreOrdered(t: Time, u: Time, dedupWindow: Duration)
    requires t <= u
    ensures WindowId(t, dedupWindow) <= WindowId(u, dedupWindow)
  {
    var w := if dedupWindow < 1 then 1 else dedupWindow;
    FloorDiv(t, w);
    FloorDiv(u, w);
    Quotients(w, t / w, u / w, t, u);
  }

  lemma Quotients(w: int, p: int, q: int, t: int, u: int)
    requires w >= 1 && w * p <= t <= u < w * (q + 1)
    ensures p <= q
  {
    Scaled(w, p - (q + 1));
  }

  lemma Scaled(w: int, n: int)
    requires w >= 1
    ensures n >= 0 ==> w * n >= 0
  {
  }

  /** The division floors, also for negative times. */
  lemma FloorDiv(t: int, w: int)
    requires w >= 1
    ensures w * (t / w) <= t < w * (t / w + 1)
  {
  }

  // ----- cooldown over whole runs -----

  datatype EmitOp = Emit(what: nat, wm: Time) | Sweep(wm: Time)

  ghost predicate Monotone(ops: seq<EmitOp>)
  {
    forall i, j :: 0 <= i < j < |ops| ==> ops[i].wm <= ops[j].wm
  }

  function Held(ops: seq<EmitOp>, cooldown: Duration, pruning: bool): set<Emission>
  {
    if ops == [] then {}
    else
      var before := Held(ops[..|ops| - 1], cooldown, pruning);
      match ops[|ops| - 1]
      case Emit(what, wm) => Marked(before, what, wm, cooldown)
      case Sweep(wm) => if pruning then Recent(before, wm, cooldown) else before
  }

  predicate Emits(ops: seq<EmitOp>, i: nat, cooldown: Duration, pruning: bool)
    requires i < |ops| && ops[i].Emit?
  {
    !CoolingDown(Held(ops[..i], cooldown, pruning), ops[i].what, ops[i].wm, cooldown)
  }

  ghost predicate SweepInvisible(ops: seq<EmitOp>, cooldown: Duration)
  {
    forall i :: 0 <= i < |ops| && ops[i].Emit? ==> Emits(ops, i, cooldown, true) == Emits(ops, i, cooldown, false)
  }

  /** What a sweep has dropped can no longer suppress anything. */
  lemma {:induction false} DroppedAreStale(ops: seq<EmitOp>, cooldown: Duration)
    requires Monotone(ops) && cooldown < TIME_MAX
    ensures Held(ops, cooldown, true) <= Held(ops, cooldown, false)
    ensures forall e :: e in Held(ops, cooldown, false) && e !in Held(ops, cooldown, true) ==>
              ops != [] && ops[|ops| - 1].wm - e.wm > cooldown
  {
    if ops != [] {
      var init, last := ops[..|ops| - 1], ops[|ops| - 1];
      DroppedAreStale(init, cooldown);
      if init != [] { assert init[|init| - 1].wm <= last.wm; }
      var full, kept := Held(init, cooldown, false), Held(init, cooldown, true);
      forall e | e in full && e !in kept ensures last.wm - e.wm > cooldown {}
      if last.Emit? { SameDecision(full, kept, last.what, last.wm, cooldown); }
    }
  }

  lemma SameDecision(full: set<Emission>, kept: set<Emission>, what: nat, wm: Time, cooldown: Duration)
    requires kept <= full && cooldown < TIME_MAX
    requires forall e :: e in full && e !in kept ==> wm - e.wm > cooldown
    ensures CoolingDown(full, what, wm, cooldown) == CoolingDown(kept, what, wm, cooldown)
  {
  }

  lemma SweepsAreInvisible(ops: seq<EmitOp>, cooldown: Duration)
    requires Monotone(ops) && cooldown < TIME_MAX
    ensures SweepInvisible(ops, cooldown)
  {
    forall i | 0 <= i < |ops| && ops[i].Emit? ensures Emits(ops, i, cooldown, true) == Emits(ops, i, cooldown, false) {
      var before := ops[..i];
      DroppedAreStale(before, cooldown);
      if i > 0 { assert before[i - 1].wm <= ops[i].wm; }
      SameDecision(Held(before, cooldown, false), Held(before, cooldown, true), ops[i].what, ops[i].wm, cooldown);
    }
  }

  /** Exactly the one cooldown that the saturating difference cannot exceed is unsafe. */
  lemma SweepsAreInvisibleIff(cooldown: Duration)
    ensures (forall ops :: Monotone(ops) ==> SweepInvisible(ops, cooldown)) <==> cooldown < TIME_MAX
  {
    if cooldown < TIME_MAX {
      forall ops | Monotone(ops) ensures SweepInvisible(ops, cooldown) { SweepsAreInvisible(ops, cooldown); }
    } else {
      var e := Emission(0, TIME_MIN);
      var ops := [Emit(0, TIME_MIN), Sweep(0), Emit(0, 0)];
      var one, two := [ops[0]], [ops[0], ops[1]];
      assert ops[..0] == [] && ops[..2] == two && two[..1] == one && one[..0] == [];
      assert Held([], cooldown, true) == {} && Held([], cooldown, false) == {};
      assert Held(one, cooldown, true) == {e} && Held(one, cooldown, false) == {e};
      assert Held(two, cooldown, true) == {} && Held(two, cooldown, false) == {e};
      assert Emits(ops, 2, cooldown, true) && !Emits(ops, 2, cooldown, false);
      assert Monotone(ops) && !SweepInvisible(ops, cooldown);
    }
  }

  ghost predicate EarlierEmission(ops: seq<EmitOp>, i: nat, what: nat, cooldown: Duration, at: Time)
  {
    i < |ops| && ops[i] == Emit(what, at) && Emits(ops, i, cooldown, false)
  }

  /** Every entry of the index is an emission that went out. */
  lemma {:induction false} HeldWasEmitted(ops: seq<EmitOp>, cooldown: Duration, e: Emission) returns (i: nat)
    requires e in Held(ops, cooldown, false)
    ensures EarlierEmission(ops, i, e.what, cooldown, e.wm)
  {
    var init := ops[..|ops| - 1];
    if e in Held(init, cooldown, false) {
      i := HeldWasEmitted(init, cooldown, e);
      assert ops[..i] == init[..i];
    } else {
      i := |init|;
    }
  }

  /** For every emission that went out the index holds that one or a later one. */
  lemma {:induction false} EmittedIsHeld(ops: seq<EmitOp>, cooldown: Duration, i: nat) returns (e: Emission)
    requires Monotone(ops) && i < |ops| && ops[i].Emit? && Emits(ops, i, cooldown, false)
    ensures e in Held(ops, cooldown, false) && e.what == ops[i].what && ops[i].wm <= e.wm
  {
    var init, last := ops[..|ops| - 1], ops[|ops| - 1];
    if last.Emit? && last.what == ops[i].what && Emits(ops, |init|, cooldown, false) {
      e := Emission(last.what, last.wm);
    } else {
      assert ops[..i] == init[..i];
      e := EmittedIsHeld(init, cooldown, i);
    }
  }

  ghost predicate Spaced(ops: seq<EmitOp>, j: nat, cooldown: Duration, pruning: bool)
    requires j < |ops| && ops[j].Emit?
  {
    forall i :: 0 <= i < j && ops[i].Emit? && ops[i].what == ops[j].what && Emits(ops, i, cooldown, pruning)
      ==> ops[j].wm - ops[i].wm > cooldown
  }

  lemma {:induction false} EmittedIsSpaced(ops: seq<EmitOp>, j: nat, cooldown: Duration)
    requires Monotone(ops) && j < |ops| && ops[j].Emit? && Emits(ops, j, cooldown, false)
    ensures Spaced(ops, j, cooldown, false)
  {
    var before := ops[..j];
    forall i | 0 <= i < j && ops[i].Emit? && ops[i].what == ops[j].what && Emits(ops, i, cooldown, false)
      ensures ops[j].wm - ops[i].wm > cooldown
    {
      assert before[..i] == ops[..i];
      var e := EmittedIsHeld(before, cooldown, i);
      assert Clamp(ops[j].wm - e.wm) > cooldown;
    }
  }

  lemma {:induction false} SpacedIsEmitted(ops: seq<EmitOp>, j: nat, cooldown: Duration)
    requires cooldown < TIME_MAX && j < |ops| && ops[j].Emit? && Spaced(ops, j, cooldown, false)
    ensures Emits(ops, j, cooldown, false)
  {
    var before := ops[..j];
    forall e | e in Held(before, cooldown, false) && e.what == ops[j].what ensures Clamp(ops[j].wm - e.wm) > cooldown {
      var i := HeldWasEmitted(before, cooldown, e);
      assert before[..i] == ops[..i] && ops[i] == before[i];
      assert ops[j].wm - ops[i].wm > cooldown;
    }
  }

  /** An emission goes out exactly when every earlier one of its key that went out lies more
      than the cooldown back. */
  lemma {:induction false} EmissionsAreSpaced(ops: seq<EmitOp>, j: nat, cooldown: Duration)
    requires Monotone(ops) && cooldown < TIME_MAX && j < |ops| && ops[j].Emit?
    ensures Emits(ops, j, cooldown, true) <==> Spaced(ops, j, cooldown, true)
  {
    SweepsAreInvisible(ops, cooldown);
    if Emits(ops, j, cooldown, false) { EmittedIsSpaced(ops, j, cooldown); }
    if Spaced(ops, j, cooldown, true) { SpacedIsEmitted(ops, j, cooldown); }
  }

  // ----- confidence -----

  type Confidence = c: int | 0 <= c <= 100
  type Weight = w: int | -100 <= w <= 100

  function Apply(c: Confidence, w: Weight): Confidence
  {
    if c + w < 0 then 0 else if c + w > 100 then 100 else c + w
  }

  /** Two mutations commute exactly when their signs agree or neither one clamps alone. */
  lemma ApplyCommutesIff(c: Confidence, v: Weight, w: Weight)
    ensures Apply(Apply(c, v), w) == Apply(Apply(c, w), v)
       <==> ((v >= 0 && w >= 0) || (v <= 0 && w <= 0) || (0 <= c + v <= 100 && 0 <= c + w <= 100))
  {
  }
}
