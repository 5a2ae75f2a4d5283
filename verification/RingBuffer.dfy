/** The per-scope event buffer of crates/airpulse_dsl-store/src/ring.rs. */
module Ring {
  import opened Options
  import opened EventTime

  type Scope = nat

  datatype Event = Event(id: nat, kind: nat, time: Time, scope: Scope)

  // ----- specification -----

  predicate Sorted(buf: seq<Event>)
  {
    forall i, j :: 0 <= i < j < |buf| ==> buf[i].time <= buf[j].time
  }

  /** The events of `buf` with a time in `[lo, hi]`, in order. */
  function Between(buf: seq<Event>, lo: Time, hi: Time): seq<Event>
  {
    if buf == [] then []
    else
      var rest := Between(buf[..|buf| - 1], lo, hi);
      var last := buf[|buf| - 1];
      if lo <= last.time <= hi then rest + [last] else rest
  }

  function From(buf: seq<Event>, lo: Time): seq<Event> { Between(buf, lo, TIME_MAX) }

  /** `partition_point` for "time at most `t`": how many leading events have it. */
  function UpTo(buf: seq<Event>, t: Time): (n: nat)
    ensures n <= |buf|
  {
    if buf == [] || buf[0].time > t then 0 else UpTo(buf[1..], t) + 1
  }

  /** `partition_point` for "time below `t`". */
  function Before(buf: seq<Event>, t: Time): (n: nat)
    ensures n <= |buf|
  {
    if buf == [] || buf[0].time >= t then 0 else Before(buf[1..], t) + 1
  }

  /** Insertion after every event that is not later. */
  function Insert(buf: seq<Event>, e: Event): seq<Event>
  {
    var n := UpTo(buf, e.time);
    buf[..n] + [e] + buf[n..]
  }

  /** A full ring first drops its front, whatever the new event's time. */
  function Push(buf: seq<Event>, capacity: nat, e: Event): (seq<Event>, Option<Event>)
    requires capacity >= 1
  {
    if |buf| == capacity then (Insert(buf[1..], e), Some(buf[0])) else (Insert(buf, e), None)
  }

  function Lookup(buf: seq<Event>, id: nat): (r: Option<Event>)
    ensures r.Some? <==> exists e :: e in buf && e.id == id
    ensures r.Some? ==> r.value in buf && r.value.id == id
  {
    if buf == [] then None else if buf[0].id == id then Some(buf[0]) else Lookup(buf[1..], id)
  }

  // ----- laws -----

  lemma {:induction false} UpToFacts(buf: seq<Event>, t: Time)
    ensures forall i :: 0 <= i < UpTo(buf, t) ==> buf[i].time <= t
    ensures UpTo(buf, t) < |buf| ==> buf[UpTo(buf, t)].time > t
  {
    if buf != [] && buf[0].time <= t { UpToFacts(buf[1..], t); }
  }

  lemma {:induction false} BeforeFacts(buf: seq<Event>, t: Time)
    ensures forall i :: 0 <= i < Before(buf, t) ==> buf[i].time < t
    ensures Before(buf, t) < |buf| ==> buf[Before(buf, t)].time >= t
  {
    if buf != [] && buf[0].time < t { BeforeFacts(buf[1..], t); }
  }

  lemma {:induction false} BetweenMembers(buf: seq<Event>, lo: Time, hi: Time)
    ensures forall e :: e in Between(buf, lo, hi) <==> e in buf && lo <= e.time <= hi
  {
    if buf != [] {
      BetweenMembers(buf[..|buf| - 1], lo, hi);
      assert buf == buf[..|buf| - 1] + [buf[|buf| - 1]];
    }
  }

  lemma {:induction false} InsertKeepsOrder(buf: seq<Event>, e: Event)
    requires Sorted(buf)
    ensures Sorted(Insert(buf, e)) && |Insert(buf, e)| == |buf| + 1
    ensures multiset(Insert(buf, e)) == multiset(buf) + multiset{e}
    ensures forall x :: x in Insert(buf, e) <==> x == e || x in buf
  {
    hide Insert, Sorted, UpTo;
    var n := InsertIsStable(buf, e);
    PutAt(buf, e, n);
    PutSorted(buf, e, n);
  }

  lemma {:induction false} PutSorted(buf: seq<Event>, e: Event, n: nat)
    requires Sorted(buf) && n <= |buf|
    requires (forall i :: 0 <= i < n ==> buf[i].time <= e.time) && (forall i :: n <= i < |buf| ==> e.time < buf[i].time)
    ensures Sorted(buf[..n] + [e] + buf[n..])
  {
  }

  /** Events of equal time stay in arrival order: the new one goes after every event that is
      not later and before every later one. */
  lemma {:induction false} InsertIsStable(buf: seq<Event>, e: Event) returns (n: nat)
    requires Sorted(buf)
    ensures n <= |buf| && Insert(buf, e) == buf[..n] + [e] + buf[n..]
    ensures (forall i :: 0 <= i < n ==> buf[i].time <= e.time) && (forall i :: n <= i < |buf| ==> e.time < buf[i].time)
  {
    n := UpTo(buf, e.time);
    UpToFacts(buf, e.time);
    forall i | n <= i < |buf| ensures e.time < buf[i].time { assert buf[n].time <= buf[i].time; }
  }

  /** A full ring loses its oldest event; the new event is always kept, even when older. */
  lemma SpillIsOldest(buf: seq<Event>, capacity: nat, e: Event)
    requires Sorted(buf) && 1 <= capacity == |buf|
    ensures var (buf', spill) := Push(buf, capacity, e);
            spill.Some? && e in buf' && forall x :: x in buf ==> spill.value.time <= x.time
  {
    InsertKeepsOrder(buf[1..], e);
  }

  lemma {:induction false} PutAt(buf: seq<Event>, e: Event, n: nat)
    requires n <= |buf|
    ensures multiset(buf[..n] + [e] + buf[n..]) == multiset(buf) + multiset{e}
    ensures forall x :: x in buf[..n] + [e] + buf[n..] <==> x == e || x in buf
  {
    assert buf == buf[..n] + buf[n..];
  }

  lemma {:induction false} PushKeepsOrder(buf: seq<Event>, capacity: nat, e: Event)
    requires Sorted(buf) && 1 <= capacity && |buf| <= capacity
    ensures var (buf', spill) := Push(buf, capacity, e);
            && Sorted(buf') && |buf'| <= capacity
            && (spill.Some? <==> |buf| == capacity)
            && multiset(buf') + (if spill.Some? then multiset{spill.value} else multiset{}) == multiset(buf) + multiset{e}
            && (forall x :: x in buf ==> x in buf' || spill == Some(x))
            && (forall x :: x in buf' ==> x == e || x in buf) && e in buf'
  {
    if |buf| == capacity {
      InsertKeepsOrder(buf[1..], e);
      assert buf == [buf[0]] + buf[1..];
    } else {
      InsertKeepsOrder(buf, e);
    }
  }

  lemma {:induction false} BetweenConcat(a: seq<Event>, b: seq<Event>, lo: Time, hi: Time)
    ensures Between(a + b, lo, hi) == Between(a, lo, hi) + Between(b, lo, hi)
  {
    if b == [] {
      assert a + b == a;
    } else {
      assert (a + b)[..|a + b| - 1] == a + b[..|b| - 1];
      BetweenConcat(a, b[..|b| - 1], lo, hi);
    }
  }

  lemma {:induction false} BetweenAll(buf: seq<Event>, lo: Time, hi: Time)
    requires forall e :: e in buf ==> lo <= e.time <= hi
    ensures Between(buf, lo, hi) == buf
  {
    if buf != [] {
      BetweenAll(buf[..|buf| - 1], lo, hi);
      assert buf == buf[..|buf| - 1] + [buf[|buf| - 1]];
    }
  }

  lemma {:induction false} BetweenNone(buf: seq<Event>, lo: Time, hi: Time)
    requires forall e :: e in buf ==> !(lo <= e.time <= hi)
    ensures Between(buf, lo, hi) == []
  {
    if buf != [] { BetweenNone(buf[..|buf| - 1], lo, hi); }
  }

  lemma {:induction false} BetweenNested(buf: seq<Event>, lo: Time, hi: Time, lo': Time, hi': Time)
    requires lo <= lo' && hi' <= hi
    ensures Between(Between(buf, lo, hi), lo', hi') == Between(buf, lo', hi')
  {
    if buf != [] {
      var init, last := buf[..|buf| - 1], buf[|buf| - 1];
      BetweenNested(init, lo, hi, lo', hi');
      if lo <= last.time <= hi {
        assert (Between(init, lo, hi) + [last])[..|Between(init, lo, hi)|] == Between(init, lo, hi);
      }
    }
  }

  lemma {:induction false} BetweenKeepsOrder(buf: seq<Event>, lo: Time, hi: Time)
    requires Sorted(buf)
    ensures Sorted(Between(buf, lo, hi)) && |Between(buf, lo, hi)| <= |buf|
  {
    if buf != [] {
      var init := buf[..|buf| - 1];
      BetweenKeepsOrder(init, lo, hi);
      BetweenMembers(init, lo, hi);
      forall i | 0 <= i < |Between(init, lo, hi)| ensures Between(init, lo, hi)[i].time <= buf[|buf| - 1].time {
        assert Between(init, lo, hi)[i] in init;
      }
    }
  }

  lemma NotEarly(buf: seq<Event>, lo: Time)
    requires Sorted(buf)
    ensures forall e :: e in buf[Before(buf, lo)..] ==> lo <= e.time
  {
    var n := Before(buf, lo);
    BeforeFacts(buf, lo);
    forall e | e in buf[n..] ensures lo <= e.time {
      var i :| 0 <= i < |buf[n..]| && buf[n..][i] == e;
      assert buf[n + i] == e && buf[n].time <= buf[n + i].time;
    }
  }

  lemma SkipEarly(buf: seq<Event>, lo: Time, hi: Time)
    ensures Between(buf, lo, hi) == Between(buf[Before(buf, lo)..], lo, hi)
  {
    hide Between, Before;
    var n := Before(buf, lo);
    BeforeFacts(buf, lo);
    assert buf == buf[..n] + buf[n..];
    BetweenConcat(buf[..n], buf[n..], lo, hi);
    BetweenNone(buf[..n], lo, hi);
  }

  lemma StopLate(tail: seq<Event>, lo: Time, hi: Time)
    requires Sorted(tail) && forall e :: e in tail ==> lo <= e.time
    ensures Between(tail, lo, hi) == tail[..UpTo(tail, hi)]
  {
    hide Sorted;
    var m := UpTo(tail, hi);
    NearOnes(tail, hi);
    LateOnes(tail, hi);
    assert tail == tail[..m] + tail[m..];
    OnlyNear(tail[..m], tail[m..], lo, hi);
  }

  lemma OnlyNear(near: seq<Event>, late: seq<Event>, lo: Time, hi: Time)
    requires (forall e :: e in near ==> lo <= e.time <= hi) && (forall e :: e in late ==> hi < e.time)
    ensures Between(near + late, lo, hi) == near
  {
    BetweenConcat(near, late, lo, hi);
    BetweenAll(near, lo, hi);
    BetweenNone(late, lo, hi);
  }

  lemma NearOnes(tail: seq<Event>, hi: Time)
    ensures forall e :: e in tail[..UpTo(tail, hi)] ==> e in tail && e.time <= hi
  {
    UpToFacts(tail, hi);
  }

  lemma LateOnes(tail: seq<Event>, hi: Time)
    requires Sorted(tail)
    ensures forall e :: e in tail[UpTo(tail, hi)..] ==> e.time > hi
  {
    var m := UpTo(tail, hi);
    UpToFacts(tail, hi);
    forall e | e in tail[m..] ensures e.time > hi {
      var i :| 0 <= i < |tail[m..]| && tail[m..][i] == e;
      assert tail[m + i] == e && tail[m].time <= tail[m + i].time;
    }
  }

  /** A sorted ring's window is one slice: what skip-then-take-while yields. */
  lemma SliceIsBetween(buf: seq<Event>, lo: Time, hi: Time)
    requires Sorted(buf)
    ensures var tail := buf[Before(buf, lo)..];
            tail[..UpTo(tail, hi)] == Between(buf, lo, hi)
  {
    SkipEarly(buf, lo, hi);
    NotEarly(buf, lo);
    StopLate(buf[Before(buf, lo)..], lo, hi);
  }

  lemma DropIsFrom(buf: seq<Event>, lo: Time)
    requires Sorted(buf)
    ensures buf[Before(buf, lo)..] == From(buf, lo)
  {
    SkipEarly(buf, lo, TIME_MAX);
    NotEarly(buf, lo);
    BetweenAll(buf[Before(buf, lo)..], lo, TIME_MAX);
  }

  /** Collecting before or after an insertion makes no difference. */
  lemma InsertThenFrom(buf: seq<Event>, e: Event, lo: Time)
    requires Sorted(buf)
    ensures From(Insert(From(buf, lo), e), lo) == From(Insert(buf, e), lo)
  {
    if e.time >= lo {
      InsertHigh(buf, e, lo);
      BetweenNested(Insert(From(buf, lo), e), lo, TIME_MAX, lo, TIME_MAX);
    } else {
      InsertOutside(From(buf, lo), e, lo, TIME_MAX);
      InsertOutside(buf, e, lo, TIME_MAX);
      BetweenNested(buf, lo, TIME_MAX, lo, TIME_MAX);
    }
  }

  lemma InsertHigh(buf: seq<Event>, e: Event, lo: Time)
    requires Sorted(buf) && e.time >= lo
    ensures From(Insert(buf, e), lo) == From(Insert(From(buf, lo), e), lo)
  {
    var d := Before(buf, lo);
    var early, kept := buf[..d], buf[d..];
    BeforeFacts(buf, lo);
    DropIsFrom(buf, lo);
    UpToDrop(buf, d, e.time);
    SplitInsert(buf, e, d);
    BetweenConcat(early, Insert(kept, e), lo, TIME_MAX);
    BetweenNone(early, lo, TIME_MAX);
  }

  lemma {:induction false} SplitInsert(buf: seq<Event>, e: Event, d: nat)
    requires d <= |buf| && UpTo(buf, e.time) == d + UpTo(buf[d..], e.time)
    ensures Insert(buf, e) == buf[..d] + Insert(buf[d..], e)
  {
    hide UpTo;
    SplitPut(buf, e, d, UpTo(buf[d..], e.time));
  }

  lemma SplitPut(buf: seq<Event>, e: Event, d: nat, m: nat)
    requires d + m <= |buf|
    ensures buf[..d + m] + [e] + buf[d + m..] == buf[..d] + (buf[d..][..m] + [e] + buf[d..][m..])
  {
    assert buf[..d + m] == buf[..d] + buf[d..][..m];
  }

  lemma {:induction false} UpToDrop(buf: seq<Event>, d: nat, t: Time)
    requires Sorted(buf) && d <= |buf| && forall i :: 0 <= i < d ==> buf[i].time <= t
    ensures UpTo(buf, t) == d + UpTo(buf[d..], t)
  {
    if d > 0 {
      assert buf[1..][d - 1..] == buf[d..];
      UpToDrop(buf[1..], d - 1, t);
    }
  }

  /** An event outside `[lo, hi]` does not show in that window. */
  lemma InsertOutside(buf: seq<Event>, e: Event, lo: Time, hi: Time)
    requires e.time < lo || e.time > hi
    ensures Between(Insert(buf, e), lo, hi) == Between(buf, lo, hi)
  {
    var n := UpTo(buf, e.time);
    BetweenConcat(buf[..n] + [e], buf[n..], lo, hi);
    BetweenConcat(buf[..n], [e], lo, hi);
    BetweenNone([e], lo, hi);
    BetweenConcat(buf[..n], buf[n..], lo, hi);
    assert buf == buf[..n] + buf[n..];
  }

  // ----- the ring as the source keeps it -----

  class RingBuffer {
    var buf: seq<Event>
    const scope: Scope
    const capacity: nat

    ghost predicate Valid()
      reads this
    {
      capacity >= 1 && |buf| <= capacity && Sorted(buf)
    }

    constructor (scope: Scope, capacity: nat)
      ensures Valid() && buf == [] && this.scope == scope
      ensures this.capacity == if capacity == 0 then 1 else capacity
    {
      buf := [];
      this.scope := scope;
      this.capacity := if capacity == 0 then 1 else capacity;
    }

    method PushEvent(event: Event) returns (spill: Option<Event>)
      requires Valid()
      modifies this
      ensures Valid() && (buf, spill) == Push(old(buf), capacity, event)
    {
      PushKeepsOrder(buf, capacity, event);
      spill := None;
      if |buf| == capacity {
        spill := Some(buf[0]);
        buf := buf[1..];
      }
      var pos := UpTo(buf, event.time);
      buf := buf[..pos] + [event] + buf[pos..];
    }

    method ScanWindow(anchor: Time, back: Duration, fwd: Duration) returns (window: seq<Event>)
      requires Valid()
      ensures window == Between(buf, Sub(anchor, back), Add(anchor, fwd))
    {
      hide Between, Sorted, UpTo, Before;
      var lo, hi := Sub(anchor, back), Add(anchor, fwd);
      SliceIsBetween(buf, lo, hi);
      var tail := buf[Before(buf, lo)..];
      UpToFacts(tail, hi);
      window := [];
      var i := 0;
      while i < |tail| && tail[i].time <= hi
        invariant 0 <= i <= UpTo(tail, hi)
        invariant window == tail[..i]
      {
        window := window + [tail[i]];
        i := i + 1;
      }
    }

    method Get(id: nat) returns (r: Option<Event>)
      requires Valid()
      ensures r == Lookup(buf, id)
    {
      r := None;
      var i := 0;
      while i < |buf|
        invariant 0 <= i <= |buf|
        invariant Lookup(buf, id) == Lookup(buf[i..], id)
      {
        if buf[i].id == id { return Some(buf[i]); }
        assert buf[i..][1..] == buf[i + 1..];
        i := i + 1;
      }
    }

    /** Front-first eviction of everything strictly older than `watermark - maxLookback`. */
    method Gc(watermark: Time, maxLookback: Duration) returns (evicted: nat)
      requires Valid()
      modifies this
      ensures Valid() && buf == From(old(buf), Sub(watermark, maxLookback))
      ensures evicted == |old(buf)| - |buf|
    {
      var cutoff := Sub(watermark, maxLookback);
      DropIsFrom(buf, cutoff);
      BeforeFacts(buf, cutoff);
      evicted := 0;
      while buf != [] && buf[0].time < cutoff
        invariant evicted <= |old(buf)| && buf == old(buf)[evicted..]
        invariant evicted <= Before(old(buf), cutoff)
        decreases |buf|
      {
        buf := buf[1..];
        evicted := evicted + 1;
      }
    }
  }
}
