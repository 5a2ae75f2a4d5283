/** The graph store of crates/airpulse_dsl-store/src/store.rs: one ring and one wait queue per
    scope, created on first use, and the global watermark. */
module Store {
  import opened Options
  import opened EventTime
  import opened Ring
  import opened Waiting
  import opened EngineModel

  lemma {:induction false} GatherSnoc(qs: Queues, order: seq<Scope>, s: Scope, wm: Time)
    ensures Gather(qs, order + [s], wm) == Gather(qs, order, wm) + Due(QueueOf(qs, s), wm)
  {
    if order == [] {
      assert [s][1..] == [];
      assert Gather(qs, [s], wm) == Due(QueueOf(qs, s), wm) + Gather(qs, [], wm);
    } else {
      assert (order + [s])[1..] == order[1..] + [s];
      GatherSnoc(qs, order[1..], s, wm);
    }
  }

  lemma GatherNone(qs: Queues, wm: Time)
    ensures Gather(qs, [], wm) == []
  {
  }

  lemma LaterIsPart(q: seq<Pending>, wm: Time)
    ensures forall p :: p in Later(q, wm) ==> p in q
  {
  }

  /** The first `i` shards of `order` have been popped. */
  ghost predicate PoppedUpTo(before: Queues, now: Queues, order: seq<Scope>, i: nat, wm: Time)
  {
    && now.Keys == before.Keys && i <= |order| && EachOnce(order) && (forall s :: s in order <==> s in before)
    && (forall j :: 0 <= j < i ==> now[order[j]] == Later(before[order[j]], wm))
    && (forall j :: i <= j < |order| ==> now[order[j]] == before[order[j]])
  }

  lemma PoppedNone(before: Queues, order: seq<Scope>, wm: Time)
    requires EachOnce(order) && forall s :: s in order <==> s in before
    ensures PoppedUpTo(before, before, order, 0, wm)
  {
  }

  lemma GatherNext(qs: Queues, order: seq<Scope>, i: nat, wm: Time)
    requires i < |order| && order[i] in qs
    ensures Gather(qs, order[..i + 1], wm) == Gather(qs, order[..i], wm) + Due(qs[order[i]], wm)
  {
    GatherSnoc(qs, order[..i], order[i], wm);
    assert order[..i + 1] == order[..i] + [order[i]];
  }

  lemma PoppedNext(before: Queues, now: Queues, order: seq<Scope>, i: nat, wm: Time)
    requires PoppedUpTo(before, now, order, i, wm) && i < |order|
    ensures order[i] in now && order[i] in before && now[order[i]] == before[order[i]]
    ensures PoppedUpTo(before, now[order[i] := Later(before[order[i]], wm)], order, i + 1, wm)
  {
  }

  lemma PoppedAll(before: Queues, now: Queues, order: seq<Scope>, wm: Time)
    requires PoppedUpTo(before, now, order, |order|, wm)
    ensures now == map s | s in before :: Later(before[s], wm)
  {
  }

  /** Some iteration order of the shards. */
  method Enumerate(keys: set<Scope>) returns (order: seq<Scope>)
    ensures EachOnce(order) && forall s :: s in order <==> s in keys
  {
    order := [];
    var todo := keys;
    while todo != {}
      invariant todo <= keys && EachOnce(order) && forall s :: s in order <==> s in keys && s !in todo
      decreases |todo|
    {
      var s :| s in todo;
      order := order + [s];
      todo := todo - {s};
    }
  }

  /** Where the events of `scopes` older than `cutoff` stand. */
  ghost function Stale(rings: map<Scope, seq<Event>>, scopes: set<Scope>, cutoff: Time): set<(Scope, nat)>
  {
    set s: Scope, i: nat | s in rings && s in scopes && i < |rings[s]| && rings[s][i].time < cutoff :: (s, i)
  }

  lemma {:induction false} PrefixCard(s: Scope, n: nat)
    ensures |set i: nat | i < n :: (s, i)| == n
  {
    if n > 0 {
      PrefixCard(s, n - 1);
      assert (set i: nat | i < n :: (s, i)) == (set i: nat | i < n - 1 :: (s, i)) + {(s, n - 1)};
    }
  }

  lemma StaleNext(rings: map<Scope, seq<Event>>, done: set<Scope>, s: Scope, cutoff: Time)
    requires s in rings && s !in done && Sorted(rings[s])
    ensures |Stale(rings, done + {s}, cutoff)| == |Stale(rings, done, cutoff)| + |rings[s]| - |From(rings[s], cutoff)|
  {
    hide Between;
    BeforeFacts(rings[s], cutoff);
    DropIsFrom(rings[s], cutoff);
    var n := Before(rings[s], cutoff);
    var here := set i: nat | i < n :: (s, i);
    PrefixCard(s, n);
    assert Stale(rings, done + {s}, cutoff) == Stale(rings, done, cutoff) + here;
    assert Stale(rings, done, cutoff) !! here;
  }

  /** The rings of `done` have been collected. */
  ghost predicate CollectedIn(before: map<Scope, seq<Event>>, now: map<Scope, seq<Event>>, done: set<Scope>, cutoff: Time)
  {
    && now.Keys == before.Keys
    && forall s :: s in now ==> now[s] == if s in done then From(before[s], cutoff) else before[s]
  }

  lemma CollectedNone(before: map<Scope, seq<Event>>, cutoff: Time)
    ensures CollectedIn(before, before, {}, cutoff) && |Stale(before, {}, cutoff)| == 0
  {
  }

  lemma CollectedNext(before: map<Scope, seq<Event>>, now: map<Scope, seq<Event>>, done: set<Scope>, s: Scope, cutoff: Time)
    requires CollectedIn(before, now, done, cutoff) && s in before && s !in done && Sorted(before[s])
    ensures CollectedIn(before, now[s := From(before[s], cutoff)], done + {s}, cutoff) && s in now && now[s] == before[s]
    ensures |Stale(before, done + {s}, cutoff)| == |Stale(before, done, cutoff)| + |before[s]| - |From(before[s], cutoff)|
  {
    hide Between, Sorted, Stale;
    StaleNext(before, done, s, cutoff);
  }

  lemma CollectedAll(before: map<Scope, seq<Event>>, now: map<Scope, seq<Event>>, done: set<Scope>, cutoff: Time)
    requires CollectedIn(before, now, done, cutoff) && done == before.Keys
    ensures now == map s | s in before :: From(before[s], cutoff)
  {
  }

  class GraphStore {
    var rings: map<Scope, RingBuffer>
    var pending: map<Scope, WaitQueue>
    var watermark: Time
    const limits: Limits
    const hash: Hash

    ghost predicate RingsValid()
      reads this, rings.Values
    {
      forall s :: s in rings ==>
        rings[s].Valid() && rings[s].scope == s && rings[s].capacity == AtLeastOne(limits.ringCapacity)
    }

    ghost predicate QueuesValid()
      reads this, pending.Values
    {
      forall s :: s in pending ==>
        && pending[s].Valid() && pending[s].scope == s && pending[s].h == hash
        && pending[s].capacity == AtLeastOne(limits.queueCapacity)
        && forall p :: p in pending[s].heap ==> p.scope == s
    }

    ghost predicate Valid()
      reads this, rings.Values, pending.Values
    {
      RingsValid() && QueuesValid()
    }

    ghost function RingSeqs(): map<Scope, seq<Event>>
      reads this, rings.Values
    {
      map s | s in rings :: rings[s].buf
    }

    ghost function QueueSeqs(): Queues
      reads this, pending.Values
    {
      map s | s in pending :: pending[s].heap
    }

    constructor (limits: Limits, hash: Hash)
      ensures Valid() && watermark == TIME_MIN && rings == map[] && pending == map[]
      ensures this.limits == limits && this.hash == hash
    {
      rings, pending, watermark := map[], map[], TIME_MIN;
      this.limits, this.hash := limits, hash;
    }

    /** `fetch_max`. */
    method AdvanceWatermark(t: Time) returns (wm: Time)
      modifies this`watermark
      ensures watermark == Latest(old(watermark), t) && wm == watermark
    {
      if watermark < t { watermark := t; }
      wm := watermark;
    }

    method RingFor(scope: Scope) returns (ring: RingBuffer)
      requires RingsValid()
      modifies this`rings
      ensures RingsValid() && scope in rings && rings[scope] == ring
      ensures fresh(rings.Values - old(rings.Values))
      ensures RingSeqs() == old(RingSeqs())[scope := RingOf(old(RingSeqs()), scope)]
    {
      hide Sorted;
      if scope !in rings {
        var created := new RingBuffer(scope, limits.ringCapacity);
        rings := rings[scope := created];
      }
      ring := rings[scope];
    }

    method PushEvent(event: Event) returns (spill: Option<Event>)
      requires RingsValid()
      modifies this`rings, rings.Values
      ensures RingsValid() && fresh(rings.Values - old(rings.Values))
      ensures var (ring, dropped) := Push(RingOf(old(RingSeqs()), event.scope), AtLeastOne(limits.ringCapacity), event);
              RingSeqs() == old(RingSeqs())[event.scope := ring] && spill == dropped
    {
      hide Push, Sorted;
      var ring := RingFor(event.scope);
      assert ring.buf == RingSeqs()[event.scope];
      ghost var before := RingSeqs();
      spill := ring.PushEvent(event);
      assert RingSeqs() == before[event.scope := ring.buf];
    }

    method QueueFor(scope: Scope) returns (queue: WaitQueue)
      requires QueuesValid()
      modifies this`pending
      ensures QueuesValid() && scope in pending && pending[scope] == queue
      ensures fresh(pending.Values - old(pending.Values))
      ensures QueueSeqs() == old(QueueSeqs())[scope := QueueOf(old(QueueSeqs()), scope)]
    {
      hide Ordered;
      if scope !in pending {
        var created := new WaitQueue(scope, limits.queueCapacity, hash);
        pending := pending[scope := created];
      }
      queue := pending[scope];
    }

    method SuspendMatch(p: Pending) returns (spill: Option<Pending>)
      requires QueuesValid()
      modifies this`pending, pending.Values
      ensures QueuesValid() && fresh(pending.Values - old(pending.Values))
      ensures var (queue, dropped) := Bounded(hash, QueueOf(old(QueueSeqs()), p.scope), AtLeastOne(limits.queueCapacity), p);
              QueueSeqs() == old(QueueSeqs())[p.scope := queue] && spill == dropped
    {
      hide Bounded, Ordered;
      var queue := QueueFor(p.scope);
      spill := PushShard(p);
    }

    method PushShard(p: Pending) returns (spill: Option<Pending>)
      requires QueuesValid() && p.scope in pending
      modifies pending[p.scope]
      ensures QueuesValid()
      ensures var (queue, dropped) := Bounded(hash, old(QueueSeqs())[p.scope], AtLeastOne(limits.queueCapacity), p);
              QueueSeqs() == old(QueueSeqs())[p.scope := queue] && spill == dropped
    {
      BoundedMembers(hash, pending[p.scope].heap, AtLeastOne(limits.queueCapacity), p);
      hide Bounded, Ordered;
      ghost var before := QueueSeqs();
      spill := pending[p.scope].PushPending(p);
      assert QueueSeqs() == before[p.scope := pending[p.scope].heap];
    }

    method PopShard(s: Scope, wm: Time) returns (popped: seq<Pending>)
      requires QueuesValid() && s in pending
      modifies pending[s]
      ensures QueuesValid() && popped == Due(old(QueueSeqs())[s], wm)
      ensures QueueSeqs() == old(QueueSeqs())[s := Later(old(QueueSeqs())[s], wm)]
    {
      hide Ordered, Due, Later;
      LaterIsPart(pending[s].heap, wm);
      ghost var before := QueueSeqs();
      popped := pending[s].PopExpired(wm);
      assert QueueSeqs() == before[s := pending[s].heap];
    }

    /** Pops every queue, in whatever order the shards come, and sorts. */
    method PopExpired(wm: Time) returns (expired: seq<Pending>)
      requires QueuesValid()
      modifies pending.Values
      ensures QueuesValid() && pending == old(pending)
      ensures PopOk(hash, old(QueueSeqs()), wm, expired)
      ensures QueueSeqs() == map s | s in old(QueueSeqs()) :: Later(old(QueueSeqs())[s], wm)
    {
      hide Ordered, Due, Later, Gather, Sort, PopOk, EachOnce, PoppedUpTo;
      ghost var before := QueueSeqs();
      var order := Enumerate(pending.Keys);
      var gathered := [];
      GatherNone(before, wm);
      PoppedNone(before, order, wm);
      var i := 0;
      while i < |order|
        invariant 0 <= i <= |order| && QueuesValid()
        invariant PoppedUpTo(before, QueueSeqs(), order, i, wm)
        invariant gathered == Gather(before, order[..i], wm)
      {
        PoppedNext(before, QueueSeqs(), order, i, wm);
        GatherNext(before, order, i, wm);
        var popped := PopShard(order[i], wm);
        gathered := gathered + popped;
        i := i + 1;
      }
      assert order[..i] == order;
      PoppedAll(before, QueueSeqs(), order, wm);
      PopIsSorted(before, order, wm);
      expired := Sort(hash, gathered);
    }

    lemma {:induction false} PopIsSorted(before: Queues, order: seq<Scope>, wm: Time)
      requires EachOnce(order)
      requires forall s :: s in before ==> Ordered(hash, before[s]) && s in order && forall p :: p in before[s] ==> p.scope == s
      ensures PopOk(hash, before, wm, Sort(hash, Gather(before, order, wm)))
    {
      SweepIsPop(hash, before, order, wm);
    }

    lemma RingsAreSorted()
      requires RingsValid()
      ensures RingSeqs().Keys == rings.Keys && forall s :: s in rings ==> Sorted(RingSeqs()[s])
    {
    }

    method GcShard(s: Scope, wm: Time) returns (evicted: nat)
      requires RingsValid() && s in rings
      modifies rings[s]
      ensures RingsValid()
      ensures RingSeqs() == old(RingSeqs())[s := From(old(RingSeqs())[s], Sub(wm, limits.maxLookback))]
      ensures evicted == |old(RingSeqs())[s]| - |From(old(RingSeqs())[s], Sub(wm, limits.maxLookback))|
    {
      hide Between, Sorted;
      ghost var before := RingSeqs();
      evicted := rings[s].Gc(wm, limits.maxLookback);
      assert RingSeqs() == before[s := rings[s].buf];
    }

    /** Evicts, and counts, the events older than the watermark less the lookback. */
    method Gc(wm: Time) returns (evicted: nat)
      requires RingsValid()
      modifies rings.Values
      ensures RingsValid() && rings == old(rings)
      ensures RingSeqs() == map s | s in old(RingSeqs()) :: From(old(RingSeqs())[s], Sub(wm, limits.maxLookback))
      ensures evicted == |Stale(old(RingSeqs()), rings.Keys, Sub(wm, limits.maxLookback))|
    {
      hide Between, Sorted, Stale, CollectedIn, GraphStore.RingsValid, GraphStore.RingSeqs;
      RingsAreSorted();
      ghost var before, cutoff, done := RingSeqs(), Sub(wm, limits.maxLookback), {};
      evicted := 0;
      var todo := rings.Keys;
      CollectedNone(before, cutoff);
      while todo != {}
        invariant todo <= rings.Keys == before.Keys && done == rings.Keys - todo && RingsValid()
        invariant CollectedIn(before, RingSeqs(), done, cutoff)
        invariant evicted == |Stale(before, done, cutoff)|
        decreases |todo|
      {
        var s :| s in todo;
        CollectedNext(before, RingSeqs(), done, s, cutoff);
        var n := GcShard(s, wm);
        evicted := evicted + n;
        todo, done := todo - {s}, done + {s};
      }
      assert done == rings.Keys;
      CollectedAll(before, RingSeqs(), done, cutoff);
    }
  }
}
