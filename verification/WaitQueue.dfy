/** Suspended matches: the order of crates/airpulse_dsl-ir/src/image.rs, the bounded queue of
    crates/airpulse_dsl-store/src/waitqueue.rs and the store-wide pop of store.rs. */
module Waiting {
  import opened Options
  import opened EventTime
  import opened Ring

  datatype Pending = Pending(rule: nat, anchor: nat, upper: Time, scope: Scope)

  /** The scope hash; what it computes is not modelled. */
  type Hash = Scope -> nat

  /** `PendingMatch::cmp` is not `Greater`. */
  predicate AtMost(h: Hash, p: Pending, q: Pending)
  {
    p.upper < q.upper ||
    (p.upper == q.upper &&
     (h(p.scope) < h(q.scope) ||
      (h(p.scope) == h(q.scope) && (p.rule < q.rule || (p.rule == q.rule && p.anchor <= q.anchor)))))
  }

  predicate Less(h: Hash, p: Pending, q: Pending) { !AtMost(h, q, p) }

  ghost predicate Ordered(h: Hash, s: seq<Pending>)
  {
    forall i, j :: 0 <= i < j < |s| ==> AtMost(h, s[i], s[j])
  }

  /** The ascending order of a queue with one more entry. */
  function Enqueue(h: Hash, q: seq<Pending>, p: Pending): (r: seq<Pending>)
    ensures |r| == |q| + 1
  {
    if q == [] || Less(h, p, q[0]) then [p] + q else [q[0]] + Enqueue(h, q[1..], p)
  }

  /** A bounded push: the `capacity` least of the old entries and the new one stay. */
  function Bounded(h: Hash, q: seq<Pending>, capacity: nat, p: Pending): (seq<Pending>, Option<Pending>)
  {
    var all := Enqueue(h, q, p);
    if |all| <= capacity then (all, None) else (all[..|all| - 1], Some(all[|all| - 1]))
  }

  function Expired(q: seq<Pending>, wm: Time): (n: nat)
    ensures n <= |q|
  {
    if q == [] || q[0].upper >= wm then 0 else Expired(q[1..], wm) + 1
  }

  function Due(q: seq<Pending>, wm: Time): seq<Pending> { q[..Expired(q, wm)] }
  function Later(q: seq<Pending>, wm: Time): seq<Pending> { q[Expired(q, wm)..] }

  // ----- laws -----

  lemma {:induction false} OrderIsTotal(h: Hash, p: Pending, q: Pending, r: Pending)
    ensures AtMost(h, p, q) || AtMost(h, q, p)
    ensures AtMost(h, p, q) && AtMost(h, q, r) ==> AtMost(h, p, r)
  {
  }

  /** What a match is ordered by, the first that differs deciding: when its window closes, the
      hash of its scope, its rule, its anchor. */
  function Key(h: Hash, p: Pending): seq<int> { [p.upper, h(p.scope), p.rule, p.anchor] }

  ghost predicate LexicallyAtMost(a: seq<int>, b: seq<int>)
  {
    a == b || exists n :: DiffersFirst(a, b, n) && a[n] < b[n]
  }

  predicate DiffersFirst(a: seq<int>, b: seq<int>, n: int) {
    0 <= n < |a| == |b| && a[n] != b[n] && forall i :: 0 <= i < n ==> a[i] == b[i]
  }

  lemma {:induction false} OrderIsLexicographic(h: Hash, p: Pending, q: Pending)
    ensures AtMost(h, p, q) <==> LexicallyAtMost(Key(h, p), Key(h, q))
  {
    var a, b := Key(h, p), Key(h, q);
    var n := if a[0] != b[0] then 0 else if a[1] != b[1] then 1 else if a[2] != b[2] then 2 else 3;
    if a != b { assert DiffersFirst(a, b, n); }
  }

  /** Entries that compare equal are equal, once scopes with equal hashes are. */
  lemma {:induction false} OrderIsAntisymmetric(h: Hash, p: Pending, q: Pending)
    requires h(p.scope) == h(q.scope) ==> p.scope == q.scope
    ensures AtMost(h, p, q) && AtMost(h, q, p) ==> p == q
  {
  }

  lemma {:induction false} EnqueueKeepsOrder(h: Hash, q: seq<Pending>, p: Pending)
    requires Ordered(h, q)
    ensures Ordered(h, Enqueue(h, q, p))
    ensures multiset(Enqueue(h, q, p)) == multiset(q) + multiset{p}
  {
    if q == [] {
    } else if Less(h, p, q[0]) {
      assert multiset([p] + q) == multiset{p} + multiset(q);
    } else {
      EnqueueKeepsOrder(h, q[1..], p);
      var rest := Enqueue(h, q[1..], p);
      assert q == [q[0]] + q[1..];
      HeadFirst(h, q[0], rest, q[1..], p);
    }
  }

  lemma {:induction false} HeadFirst(h: Hash, head: Pending, rest: seq<Pending>, old_: seq<Pending>, p: Pending)
    requires Ordered(h, rest) && multiset(rest) == multiset(old_) + multiset{p}
    requires AtMost(h, head, p) && Ordered(h, [head] + old_)
    ensures Ordered(h, [head] + rest)
  {
    forall j | 0 <= j < |rest| ensures AtMost(h, head, rest[j]) {
      assert rest[j] in multiset(rest);
      if rest[j] != p {
        assert rest[j] in multiset(old_);
        var k :| 0 <= k < |old_| && old_[k] == rest[j];
        var all := [head] + old_;
        assert all[k + 1] == rest[j] && all[0] == head;
        assert AtMost(h, all[0], all[k + 1]);
      }
    }
  }

  /** What a bounded push keeps, and what it reports. */
  lemma {:induction false} BoundedKeepsTheLeast(h: Hash, q: seq<Pending>, capacity: nat, p: Pending)
    requires Ordered(h, q) && |q| <= capacity
    ensures var (kept, dropped) := Bounded(h, q, capacity, p);
            && Ordered(h, kept) && |kept| <= capacity
            && multiset(kept) + (if dropped.Some? then multiset{dropped.value} else multiset{}) == multiset(q) + multiset{p}
            && (dropped.Some? <==> |q| == capacity)
            && (dropped.Some? ==> forall k :: k in kept ==> AtMost(h, k, dropped.value))
  {
    hide Ordered, AtMost, Enqueue;
    EnqueueKeepsOrder(h, q, p);
    LastIsGreatest(h, Enqueue(h, q, p));
  }

  lemma LastIsGreatest(h: Hash, all: seq<Pending>)
    requires Ordered(h, all) && all != []
    ensures var (kept, last) := (all[..|all| - 1], all[|all| - 1]);
            && Ordered(h, kept) && multiset(kept) + multiset{last} == multiset(all)
            && forall k :: k in kept ==> AtMost(h, k, last)
  {
    hide AtMost;
    assert all == all[..|all| - 1] + [all[|all| - 1]];
  }

  /** A full queue drops its last entry for an earlier one, and refuses any other. */
  lemma BoundedWhenFull(h: Hash, q: seq<Pending>, p: Pending)
    requires Ordered(h, q) && q != []
    ensures var max := q[|q| - 1];
            Bounded(h, q, |q|, p) == if Less(h, p, max) then (Enqueue(h, q[..|q| - 1], p), Some(max)) else (q, Some(p))
  {
    hide Ordered, AtMost, Enqueue;
    if Less(h, p, q[|q| - 1]) { EnqueueBeforeLast(h, q, p); } else { EnqueueLast(h, q, p); }
  }

  lemma {:induction false} BoundedMembers(h: Hash, q: seq<Pending>, capacity: nat, p: Pending)
    requires Ordered(h, q) && |q| <= capacity
    ensures var (kept, dropped) := Bounded(h, q, capacity, p);
            && (forall x :: x in kept ==> x in q || x == p)
            && (dropped.Some? ==> dropped.value in q || dropped.value == p)
  {
    EnqueueKeepsOrder(h, q, p);
    var all := Enqueue(h, q, p);
    forall x | x in all ensures x in q || x == p { assert x in multiset(all); }
  }

  lemma {:induction false} ExpiredFacts(q: seq<Pending>, wm: Time)
    ensures forall i :: 0 <= i < Expired(q, wm) ==> q[i].upper < wm
    ensures Expired(q, wm) < |q| ==> q[Expired(q, wm)].upper >= wm
  {
    if q != [] && q[0].upper < wm { ExpiredFacts(q[1..], wm); }
  }

  /** A pop takes exactly the entries whose window has closed, in order. */
  lemma {:induction false} PopIsExact(h: Hash, q: seq<Pending>, wm: Time)
    requires Ordered(h, q)
    ensures Due(q, wm) + Later(q, wm) == q
    ensures forall p :: p in Due(q, wm) ==> p.upper < wm
    ensures forall p :: p in Later(q, wm) ==> p.upper >= wm
    ensures Ordered(h, Due(q, wm)) && Ordered(h, Later(q, wm))
  {
    var n := Expired(q, wm);
    ExpiredFacts(q, wm);
    forall p | p in q[n..] ensures p.upper >= wm {
      var i :| 0 <= i < |q[n..]| && q[n..][i] == p;
      assert q[n + i] == p && (i > 0 ==> AtMost(h, q[n], q[n + i]));
    }
  }

  /** `cmp` is `Equal`. */
  predicate Tied(h: Hash, p: Pending, q: Pending) { AtMost(h, p, q) && AtMost(h, q, p) }

  /** Two ascending arrangements of entries without ties are the same sequence. */
  lemma {:induction false} SortedIsUnique(h: Hash, a: seq<Pending>, b: seq<Pending>)
    requires Ordered(h, a) && Ordered(h, b) && multiset(a) == multiset(b)
    requires forall p, q :: p in a && q in a && Tied(h, p, q) ==> p == q
    ensures a == b
  {
    assert |a| == |multiset(a)| == |multiset(b)| == |b|;
    if a != [] {
      assert a[0] in multiset(b) && b[0] in multiset(a);
      SameHead(h, a, b);
      assert a == [a[0]] + a[1..] && b == [b[0]] + b[1..];
      assert multiset(a[1..]) == multiset(a) - multiset{a[0]};
      TailOrdered(h, a);
      TailOrdered(h, b);
      hide Ordered, Tied;
      SortedIsUnique(h, a[1..], b[1..]);
    }
  }

  lemma TailOrdered(h: Hash, a: seq<Pending>)
    requires Ordered(h, a) && a != []
    ensures Ordered(h, a[1..]) && forall p :: p in a[1..] ==> p in a
  {
  }

  lemma SameHead(h: Hash, a: seq<Pending>, b: seq<Pending>)
    requires Ordered(h, a) && Ordered(h, b) && a != [] && b != [] && a[0] in b && b[0] in a
    requires forall p, q :: p in a && q in a && Tied(h, p, q) ==> p == q
    ensures a[0] == b[0]
  {
    var i :| 0 <= i < |b| && b[i] == a[0];
    var j :| 0 <= j < |a| && a[j] == b[0];
    OrderIsTotal(h, a[0], a[0], a[0]);
    assert AtMost(h, a[0], a[j]) && (i > 0 ==> AtMost(h, b[0], b[i]));
    OrderIsTotal(h, b[0], b[0], b[0]);
    assert Tied(h, a[0], b[0]);
  }

  // ----- one queue as the source keeps it -----

  /** `heap` lists the binary heap in the order in which it pops. */
  class WaitQueue {
    var heap: seq<Pending>
    const scope: Scope
    const capacity: nat
    const h: Hash

    ghost predicate Valid()
      reads this
    {
      capacity >= 1 && |heap| <= capacity && Ordered(h, heap)
    }

    constructor (scope: Scope, capacity: nat, h: Hash)
      ensures Valid() && heap == [] && this.scope == scope && this.h == h
      ensures this.capacity == if capacity == 0 then 1 else capacity
    {
      heap := [];
      this.scope, this.h := scope, h;
      this.capacity := if capacity == 0 then 1 else capacity;
    }

    method PushPending(pending: Pending) returns (spill: Option<Pending>)
      requires Valid()
      modifies this
      ensures Valid() && (heap, spill) == Bounded(h, old(heap), capacity, pending)
    {
      hide Ordered, AtMost, Less, Enqueue;
      BoundedKeepsTheLeast(h, heap, capacity, pending);
      if |heap| < capacity {
        heap := Enqueue(h, heap, pending);
        return None;
      }
      BoundedWhenFull(h, heap, pending);
      var max := heap[|heap| - 1];
      if Less(h, pending, max) {
        heap := Enqueue(h, heap[..|heap| - 1], pending);
        spill := Some(max);
      } else {
        spill := Some(pending);
      }
    }

    method PopExpired(wm: Time) returns (expired: seq<Pending>)
      requires Valid()
      modifies this
      ensures Valid() && expired == Due(old(heap), wm) && heap == Later(old(heap), wm)
    {
      PopIsExact(h, heap, wm);
      ExpiredFacts(heap, wm);
      expired := [];
      while heap != [] && heap[0].upper < wm
        invariant |expired| <= |old(heap)| && expired == old(heap)[..|expired|] && heap == old(heap)[|expired|..]
        invariant |expired| <= Expired(old(heap), wm)
        decreases |heap|
      {
        expired := expired + [heap[0]];
        heap := heap[1..];
      }
    }
  }

  lemma {:induction false} EnqueueLast(h: Hash, q: seq<Pending>, p: Pending)
    requires q != [] && Ordered(h, q) && !Less(h, p, q[|q| - 1])
    ensures Enqueue(h, q, p) == q + [p]
  {
    if |q| > 1 {
      EnqueueLast(h, q[1..], p);
    }
    assert AtMost(h, q[0], q[|q| - 1]);
    OrderIsTotal(h, q[0], q[|q| - 1], p);
  }

  lemma {:induction false} EnqueueBeforeLast(h: Hash, q: seq<Pending>, p: Pending)
    requires q != [] && Less(h, p, q[|q| - 1])
    ensures Enqueue(h, q, p) == Enqueue(h, q[..|q| - 1], p) + [q[|q| - 1]]
  {
    if |q| > 1 && !Less(h, p, q[0]) {
      EnqueueBeforeLast(h, q[1..], p);
      assert q[1..][..|q| - 2] == q[..|q| - 1][1..];
    }
  }

  // ----- the store-wide pop -----

  type Queues = map<Scope, seq<Pending>>

  function QueueOf(qs: Queues, s: Scope): seq<Pending> { if s in qs then qs[s] else [] }

  /** What the per-queue pops of all shards concatenate to, for one iteration order. */
  function Gather(qs: Queues, order: seq<Scope>, wm: Time): seq<Pending>
  {
    if order == [] then [] else Due(QueueOf(qs, order[0]), wm) + Gather(qs, order[1..], wm)
  }

  function Sort(h: Hash, s: seq<Pending>): seq<Pending>
  {
    if s == [] then [] else Enqueue(h, Sort(h, s[..|s| - 1]), s[|s| - 1])
  }

  lemma {:induction false} SortSorts(h: Hash, s: seq<Pending>)
    ensures Ordered(h, Sort(h, s)) && multiset(Sort(h, s)) == multiset(s)
  {
    if s != [] {
      var init := s[..|s| - 1];
      SortSorts(h, init);
      EnqueueKeepsOrder(h, Sort(h, init), s[|s| - 1]);
      assert s == init + [s[|s| - 1]];
    }
  }

  ghost predicate EachOnce(order: seq<Scope>) { forall i, j :: 0 <= i < j < |order| ==> order[i] != order[j] }

  ghost predicate OwnScope(qs: Queues) { forall s, p :: s in qs && p in qs[s] ==> p.scope == s }

  /** An entry is gathered as often as its own queue holds it, if its window has closed. */
  lemma {:induction false} GatherCounts(h: Hash, qs: Queues, order: seq<Scope>, wm: Time, p: Pending)
    requires EachOnce(order) && OwnScope(qs) && forall s :: s in qs ==> Ordered(h, qs[s])
    ensures multiset(Gather(qs, order, wm))[p]
         == if p.scope in order && p.upper < wm then multiset(QueueOf(qs, p.scope))[p] else 0
  {
    if order != [] {
      var s := order[0];
      GatherCounts(h, qs, order[1..], wm, p);
      DueCounts(h, QueueOf(qs, s), wm, p);
      assert p.scope in order <==> p.scope == s || p.scope in order[1..];
      if p.scope != s { assert p !in QueueOf(qs, s); }
    }
  }

  lemma {:induction false} DueCounts(h: Hash, q: seq<Pending>, wm: Time, p: Pending)
    requires Ordered(h, q)
    ensures multiset(Due(q, wm))[p] == if p.upper < wm then multiset(q)[p] else 0
    ensures multiset(Later(q, wm))[p] == if p.upper < wm then 0 else multiset(q)[p]
  {
    PopIsExact(h, q, wm);
    assert multiset(q) == multiset(Due(q, wm)) + multiset(Later(q, wm));
    if p.upper < wm { assert p !in Later(q, wm); } else { assert p !in Due(q, wm); }
  }

  /** What the engine may be handed for a resume sweep. */
  ghost predicate PopOk(h: Hash, qs: Queues, wm: Time, expired: seq<Pending>)
  {
    && Ordered(h, expired)
    && forall p :: multiset(expired)[p] == if p.upper < wm then multiset(QueueOf(qs, p.scope))[p] else 0
  }

  lemma {:induction false} SweepIsPop(h: Hash, qs: Queues, order: seq<Scope>, wm: Time)
    requires EachOnce(order) && OwnScope(qs) && (forall s :: s in qs ==> Ordered(h, qs[s]) && s in order)
    ensures PopOk(h, qs, wm, Sort(h, Gather(qs, order, wm)))
  {
    SortSorts(h, Gather(qs, order, wm));
    forall p ensures multiset(Sort(h, Gather(qs, order, wm)))[p] == if p.upper < wm then multiset(QueueOf(qs, p.scope))[p] else 0 {
      GatherCounts(h, qs, order, wm, p);
    }
  }

  // ----- what the resume order depends on -----

  ghost predicate ShardOrder(qs: Queues, order: seq<Scope>)
  {
    EachOnce(order) && forall s :: s in order <==> s in qs
  }

  ghost predicate IsDue(qs: Queues, wm: Time, p: Pending) { p in QueueOf(qs, p.scope) && p.upper < wm }

  /** No two different matches that are due compare equal. */
  ghost predicate NoTies(h: Hash, qs: Queues, wm: Time)
  {
    forall p, q :: IsDue(qs, wm, p) && IsDue(qs, wm, q) && Tied(h, p, q) ==> p == q
  }

  /** Scopes with different hashes leave no ties. */
  lemma DistinctHashesDoNotTie(h: Hash, qs: Queues, wm: Time)
    requires forall s, t :: s in qs && t in qs && h(s) == h(t) ==> s == t
    ensures NoTies(h, qs, wm)
  {
    forall p, q | IsDue(qs, wm, p) && IsDue(qs, wm, q) && Tied(h, p, q) ensures p == q {
      OrderIsAntisymmetric(h, p, q);
    }
  }

  /** Without ties there is one order in which a sweep can resume. */
  lemma {:induction false} SweepOrderIsUnique(h: Hash, qs: Queues, wm: Time, a: seq<Pending>, b: seq<Pending>)
    requires PopOk(h, qs, wm, a) && PopOk(h, qs, wm, b) && NoTies(h, qs, wm)
    ensures a == b
  {
    hide AtMost, Ordered;
    forall p ensures multiset(a)[p] == multiset(b)[p] {}
    forall p | p in a ensures IsDue(qs, wm, p) { assert multiset(a)[p] > 0; }
    SortedIsUnique(h, a, b);
  }

  /** The entries of `s` that compare equal to `p`, in order. */
  function Ties(h: Hash, p: Pending, s: seq<Pending>): seq<Pending>
  {
    if s == [] then [] else (if Tied(h, p, s[0]) then [s[0]] else []) + Ties(h, p, s[1..])
  }

  lemma {:induction false} TiesConcat(h: Hash, p: Pending, a: seq<Pending>, b: seq<Pending>)
    ensures Ties(h, p, a + b) == Ties(h, p, a) + Ties(h, p, b)
  {
    hide Tied;
    if a == [] {
      assert a + b == b;
    } else {
      assert (a + b)[1..] == a[1..] + b;
      TiesConcat(h, p, a[1..], b);
    }
  }

  lemma {:induction false} NoTiesAbove(h: Hash, p: Pending, s: seq<Pending>)
    requires forall x :: x in s ==> Less(h, p, x)
    ensures Ties(h, p, s) == []
  {
    if s != [] {
      assert s[0] in s && !Tied(h, p, s[0]);
      NoTiesAbove(h, p, s[1..]);
    }
  }

  lemma {:induction false} TiesOne(h: Hash, p: Pending, x: Pending)
    ensures Ties(h, p, [x]) == if Tied(h, p, x) then [x] else []
  {
    hide Tied;
    assert [x][1..] == [] && Ties(h, p, []) == [];
  }

  lemma {:induction false} NoTiesBeyond(h: Hash, p: Pending, q: seq<Pending>, x: Pending)
    requires Ordered(h, q) && q != [] && Less(h, x, q[0]) && Tied(h, p, x)
    ensures Ties(h, p, q) == []
  {
    forall y | y in q ensures Less(h, p, y) {
      var i :| 0 <= i < |q| && q[i] == y;
      assert i > 0 ==> AtMost(h, q[0], q[i]);
    }
    NoTiesAbove(h, p, q);
  }

  /** A stable insertion goes behind its ties. */
  lemma {:induction false} TiesEnqueue(h: Hash, p: Pending, q: seq<Pending>, x: Pending)
    requires Ordered(h, q)
    ensures Ties(h, p, Enqueue(h, q, x)) == Ties(h, p, q) + (if Tied(h, p, x) then [x] else [])
  {
    hide Tied, Ties, AtMost, Ordered;
    TiesOne(h, p, x);
    if q == [] {
      NoTiesAbove(h, p, q);
      assert Enqueue(h, q, x) == [x];
    } else if Less(h, x, q[0]) {
      TiesConcat(h, p, [x], q);
      if Tied(h, p, x) { NoTiesBeyond(h, p, q, x); }
    } else {
      TailOrdered(h, q);
      TiesEnqueue(h, p, q[1..], x);
      assert Enqueue(h, q, x) == [q[0]] + Enqueue(h, q[1..], x);
      TiesConcat(h, p, [q[0]], Enqueue(h, q[1..], x));
      TiesConcat(h, p, [q[0]], q[1..]);
      assert [q[0]] + q[1..] == q;
    }
  }

  lemma {:induction false} TiesSort(h: Hash, p: Pending, s: seq<Pending>)
    ensures Ties(h, p, Sort(h, s)) == Ties(h, p, s)
  {
    hide Tied, Ties, Ordered;
    if s != [] {
      var init, last := s[..|s| - 1], s[|s| - 1];
      TiesSort(h, p, init);
      SortSorts(h, init);
      TiesEnqueue(h, p, Sort(h, init), last);
      TiesConcat(h, p, init, [last]);
      TiesOne(h, p, last);
      assert s == init + [last];
    } else {
      assert Sort(h, s) == s;
    }
  }

  lemma {:induction false} TiesMembers(h: Hash, p: Pending, s: seq<Pending>)
    ensures forall x :: x in Ties(h, p, s) <==> x in s && Tied(h, p, x)
  {
    hide Tied;
    if s != [] { TiesMembers(h, p, s[1..]); }
  }

  /** A shard order that starts with the scope of `q` resumes `q` before whatever ties with it
      in other scopes. */
  lemma {:induction false} FirstShardFirst(h: Hash, qs: Queues, wm: Time, p: Pending, q: Pending, rest: seq<Scope>)
    requires OwnScope(qs) && (forall s :: s in qs ==> Ordered(h, qs[s])) && IsDue(qs, wm, q) && Tied(h, p, q)
    ensures var t := Ties(h, p, Sort(h, Gather(qs, [q.scope] + rest, wm))); t != [] && t[0] == q
  {
    var order := [q.scope] + rest;
    var due := Due(QueueOf(qs, q.scope), wm);
    assert order[1..] == rest;
    assert Gather(qs, order, wm) == due + Gather(qs, rest, wm);
    PopIsExact(h, QueueOf(qs, q.scope), wm);
    TiesSort(h, p, Gather(qs, order, wm));
    TiesConcat(h, p, due, Gather(qs, rest, wm));
    TiesMembers(h, p, due);
    DueMembers(h, QueueOf(qs, q.scope), wm, q);
    var t := Ties(h, p, due);
    assert q in t && t[0] in t;
    TiedInOneScope(h, p, q, t[0]);
  }

  lemma DueMembers(h: Hash, q: seq<Pending>, wm: Time, p: Pending)
    requires Ordered(h, q) && p in q && p.upper < wm
    ensures p in Due(q, wm) && forall x :: x in Due(q, wm) ==> x in q
  {
    PopIsExact(h, q, wm);
    assert q == Due(q, wm) + Later(q, wm);
  }

  lemma TiedInOneScope(h: Hash, p: Pending, q: Pending, x: Pending)
    requires Tied(h, p, q) && Tied(h, p, x) && q.scope == x.scope
    ensures q == x
  {
  }

  lemma {:induction false} SomeShardOrder(keys: set<Scope>) returns (order: seq<Scope>)
    ensures EachOnce(order) && forall s :: s in order <==> s in keys
  {
    if keys == {} {
      order := [];
    } else {
      var s :| s in keys;
      var rest := SomeShardOrder(keys - {s});
      order := [s] + rest;
    }
  }

  lemma OrderFrom(qs: Queues, s: Scope) returns (rest: seq<Scope>)
    requires s in qs
    ensures ShardOrder(qs, [s] + rest)
  {
    rest := SomeShardOrder(qs.Keys - {s});
  }

  /** The resume order is independent of the shard order exactly when no two different due
      matches compare equal. */
  lemma {:induction false} ResumeOrderIrrelevantIff(h: Hash, qs: Queues, wm: Time)
    requires OwnScope(qs) && forall s :: s in qs ==> Ordered(h, qs[s])
    ensures (forall a, b :: ShardOrder(qs, a) && ShardOrder(qs, b) ==> Sort(h, Gather(qs, a, wm)) == Sort(h, Gather(qs, b, wm)))
            <==> NoTies(h, qs, wm)
  {
    hide Ordered, PopOk, Gather, Sort, AtMost;
    if NoTies(h, qs, wm) {
      forall a, b | ShardOrder(qs, a) && ShardOrder(qs, b) ensures Sort(h, Gather(qs, a, wm)) == Sort(h, Gather(qs, b, wm)) {
        SweepIsPop(h, qs, a, wm);
        SweepIsPop(h, qs, b, wm);
        SweepOrderIsUnique(h, qs, wm, Sort(h, Gather(qs, a, wm)), Sort(h, Gather(qs, b, wm)));
      }
    } else {
      TieShowsOrder(h, qs, wm);
    }
  }

  lemma {:induction false} TieShowsOrder(h: Hash, qs: Queues, wm: Time)
    requires OwnScope(qs) && (forall s :: s in qs ==> Ordered(h, qs[s])) && !NoTies(h, qs, wm)
    ensures exists a, b :: ShardOrder(qs, a) && ShardOrder(qs, b) && Sort(h, Gather(qs, a, wm)) != Sort(h, Gather(qs, b, wm))
  {
    hide Ordered, Gather, Sort, Ties;
    var p, q :| IsDue(qs, wm, p) && IsDue(qs, wm, q) && Tied(h, p, q) && p != q;
    OrderIsTotal(h, p, p, p);
    var ps := OrderFrom(qs, p.scope);
    var others := OrderFrom(qs, q.scope);
    FirstShardFirst(h, qs, wm, p, p, ps);
    FirstShardFirst(h, qs, wm, p, q, others);
    var a, b := [p.scope] + ps, [q.scope] + others;
    assert Ties(h, p, Sort(h, Gather(qs, a, wm)))[0] != Ties(h, p, Sort(h, Gather(qs, b, wm)))[0];
    assert ShardOrder(qs, a) && ShardOrder(qs, b);
  }
}
