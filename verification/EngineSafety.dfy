/** What every call of the engine keeps, for every run, late events included: buffered
    events, pending matches and the account of suspended ones. */
module EngineSafety {
  import opened Options
  import opened EventTime
  import opened Ring
  import opened Waiting
  import opened RuleImage
  import opened EngineModel

  // ----- what each part of a call leaves alone -----

  /** Same state but for the trace and the account of resumed matches. */
  ghost predicate OnlyRan(st: State, st': State)
  {
    && st'.rings == st.rings && st'.queues == st.queues && st'.wm == st.wm
    && st'.last == st.last && st'.finished == st.finished
    && st'.history == st.history && st'.lost == st.lost
    && st'.ledger.suspended == st.ledger.suspended && st'.ledger.spilled == st.ledger.spilled
  }

  lemma ResumeOneOnlyRuns(img: Image, lim: Limits, st: State, m: Pending)
    ensures OnlyRan(st, ResumeOne(img, lim, st, m))
  {
    hide Bindings;
  }

  lemma {:induction false} ResumeAllOnlyRuns(img: Image, lim: Limits, st: State, expired: seq<Pending>)
    ensures OnlyRan(st, ResumeAll(img, lim, st, expired))
    decreases |expired|
  {
    hide ResumeOne;
    if expired != [] {
      ResumeOneOnlyRuns(img, lim, st, expired[0]);
      ResumeAllOnlyRuns(img, lim, ResumeOne(img, lim, st, expired[0]), expired[1..]);
    }
  }

  /** Matching touches queues, trace and account. */
  ghost predicate OnlyMatched(st: State, st': State)
  {
    && st'.rings == st.rings && st'.wm == st.wm
    && st'.last == st.last && st'.finished == st.finished
    && st'.history == st.history && st'.lost == st.lost
    && st'.ledger.resumed == st.ledger.resumed && st'.ledger.missing == st.ledger.missing
    && st'.ledger.unlisted == st.ledger.unlisted
  }

  lemma MatchOneOnlyMatches(img: Image, lim: Limits, st: State, budget: nat, e: Event, r: Rule)
    ensures OnlyMatched(st, MatchOne(img, lim, st, budget, e, r).0)
  {
    hide Bindings, Bounded, Fires;
  }

  lemma {:induction false} MatchAllOnlyMatches(img: Image, lim: Limits, st: State, budget: nat, e: Event, rules: seq<Rule>)
    ensures OnlyMatched(st, MatchAll(img, lim, st, budget, e, rules))
    decreases |rules|
  {
    hide MatchOne;
    if rules != [] {
      MatchOneOnlyMatches(img, lim, st, budget, e, rules[0]);
      var (next, left) := MatchOne(img, lim, st, budget, e, rules[0]);
      MatchAllOnlyMatches(img, lim, next, left, e, rules[1..]);
    }
  }

  // ----- events -----

  ghost predicate RingsOk(lim: Limits, st: State)
  {
    forall s :: s in st.rings ==>
      && Sorted(st.rings[s]) && |st.rings[s]| <= AtLeastOne(lim.ringCapacity)
      && forall e :: e in st.rings[s] ==> e.scope == s && e in st.history
  }

  /** Every event pushed so far that is not older than `horizon` is in its ring, unless a
      full ring dropped it. */
  ghost predicate Covered(st: State, horizon: Time)
  {
    forall e :: e in st.history && horizon <= e.time ==> e in RingOf(st.rings, e.scope) || e in st.lost
  }

  lemma PushCovers(lim: Limits, st: State, e: Event, horizon: Time)
    requires RingsOk(lim, st) && Covered(st, horizon)
    ensures RingsOk(lim, PushEvent(lim, st, e)) && Covered(PushEvent(lim, st, e), horizon)
  {
    PushedRing(lim, st, e);
    PushKeepsRings(lim, st, e);
    hide Push, Sorted, RingsOk;
  }

  lemma PushKeepsRings(lim: Limits, st: State, e: Event)
    requires RingsOk(lim, st)
    ensures RingsOk(lim, PushEvent(lim, st, e))
  {
    PushedRing(lim, st, e);
    hide Push, Sorted;
  }

  lemma PushedRing(lim: Limits, st: State, e: Event)
    requires RingsOk(lim, st)
    ensures var ring, (ring', dropped) := RingOf(st.rings, e.scope), Push(RingOf(st.rings, e.scope), AtLeastOne(lim.ringCapacity), e);
            && Sorted(ring') && |ring'| <= AtLeastOne(lim.ringCapacity)
            && (forall x :: x in ring ==> x in ring' || dropped == Some(x))
            && (forall x :: x in ring' ==> x == e || x in ring) && e in ring'
  {
    PushKeepsOrder(RingOf(st.rings, e.scope), AtLeastOne(lim.ringCapacity), e);
  }

  lemma SweptRing(lim: Limits, st: State, s: Scope)
    requires RingsOk(lim, st)
    ensures var ring, cutoff := RingOf(st.rings, s), Sub(st.wm, lim.maxLookback);
            && RingOf(Sweep(lim, st).rings, s) == From(ring, cutoff)
            && Sorted(From(ring, cutoff)) && |From(ring, cutoff)| <= |ring|
            && (forall e :: e in From(ring, cutoff) <==> e in ring && cutoff <= e.time)
  {
    BetweenMembers(RingOf(st.rings, s), Sub(st.wm, lim.maxLookback), TIME_MAX);
    BetweenKeepsOrder(RingOf(st.rings, s), Sub(st.wm, lim.maxLookback), TIME_MAX);
  }

  lemma SweepKeepsRings(lim: Limits, st: State)
    requires RingsOk(lim, st)
    ensures RingsOk(lim, Sweep(lim, st))
  {
    var st' := Sweep(lim, st);
    forall s | s in st'.rings
      ensures Sorted(st'.rings[s]) && |st'.rings[s]| <= AtLeastOne(lim.ringCapacity)
      ensures forall e :: e in st'.rings[s] ==> e.scope == s && e in st'.history
    {
      SweptRing(lim, st, s);
    }
  }

  lemma SweepCovers(lim: Limits, st: State, horizon: Time)
    requires RingsOk(lim, st) && Covered(st, horizon) && horizon <= Sub(st.wm, lim.maxLookback)
    ensures Covered(Sweep(lim, st), Sub(st.wm, lim.maxLookback))
  {
    var st' := Sweep(lim, st);
    forall e | e in st'.history && Sub(st.wm, lim.maxLookback) <= e.time
      ensures e in RingOf(st'.rings, e.scope) || e in st'.lost
    {
      SweptRing(lim, st, e.scope);
    }
  }

  // ----- pending matches -----

  ghost predicate Justified(img: Image, history: seq<Event>, p: Pending)
  {
    exists r, e :: r in img.rules && e in history && Fires(img, r, e) && p == PendingOf(r, e)
  }

  ghost predicate QueueOk(img: Image, lim: Limits, history: seq<Event>, s: Scope, q: seq<Pending>, floor: Time)
  {
    && Ordered(img.hash, q) && |q| <= AtLeastOne(lim.queueCapacity)
    && forall p :: p in q ==> p.scope == s && floor <= p.upper && Justified(img, history, p)
  }

  /** Every pending match comes from a rule and an event that were matched, and its window
      is not yet behind `floor`. */
  ghost predicate QueuesOk(img: Image, lim: Limits, st: State, floor: Time)
  {
    forall s :: s in st.queues ==> QueueOk(img, lim, st.history, s, st.queues[s], floor)
  }

  ghost predicate Accounts(ledger: Ledger, queues: Queues, inFlight: multiset<Pending>, p: Pending)
  {
    ledger.suspended[p] == ledger.resumed[p] + ledger.spilled[p] + ledger.missing[p] + ledger.unlisted[p]
                           + multiset(QueueOf(queues, p.scope))[p] + inFlight[p]
  }

  /** Conservation: every suspended match is resumed, spilled, diagnosed, waiting, or being
      resumed right now. */
  ghost predicate Balanced(st: State, inFlight: multiset<Pending>)
  {
    forall p :: Accounts(st.ledger, st.queues, inFlight, p)
  }

  /** A match is diagnosed without an anchor only when a full ring dropped that anchor. */
  ghost predicate LossExplained(st: State)
  {
    && st.ledger.unlisted == multiset{}
    && forall p :: p in st.ledger.missing ==> exists e :: e in st.lost && e.id == p.anchor && e.scope == p.scope
  }

  lemma TakeKeepsQueues(img: Image, lim: Limits, st: State, floor: Time)
    requires QueuesOk(img, lim, st, floor)
    ensures QueuesOk(img, lim, Take(st), st.wm)
  {
    forall s | s in st.queues ensures QueueOk(img, lim, st.history, s, Later(st.queues[s], st.wm), st.wm) {
      PopIsExact(img.hash, st.queues[s], st.wm);
      assert forall p :: p in Later(st.queues[s], st.wm) ==> p in st.queues[s];
    }
  }

  lemma TakenAreDue(img: Image, lim: Limits, st: State, floor: Time, expired: seq<Pending>)
    requires QueuesOk(img, lim, st, floor) && PopOk(img.hash, st.queues, st.wm, expired)
    ensures forall p :: p in expired ==> floor <= p.upper < st.wm && Justified(img, st.history, p)
  {
    forall p | p in expired ensures floor <= p.upper < st.wm && Justified(img, st.history, p) {
      assert multiset(expired)[p] > 0;
      assert p in QueueOf(st.queues, p.scope);
    }
  }

  lemma TakeBalances(img: Image, lim: Limits, st: State, floor: Time, expired: seq<Pending>)
    requires QueuesOk(img, lim, st, floor) && PopOk(img.hash, st.queues, st.wm, expired)
    requires Balanced(st, multiset{})
    ensures Balanced(Take(st), multiset(expired))
  {
    forall p ensures Accounts(st.ledger, Take(st).queues, multiset(expired), p) {
      assert Accounts(st.ledger, st.queues, multiset{}, p);
      DueCounts(img.hash, QueueOf(st.queues, p.scope), st.wm, p);
    }
  }

  /** The anchor of a match whose window was open at the last collection is still there. */
  lemma AnchorIsThere(img: Image, lim: Limits, st: State, floor: Time, p: Pending)
    requires WithinLookback(img.rules, lim.maxLookback) && Covered(st, Sub(floor, lim.maxLookback))
    requires Justified(img, st.history, p) && floor <= p.upper
    ensures Lookup(RingOf(st.rings, p.scope), p.anchor).Some? || exists e :: e in st.lost && e.id == p.anchor && e.scope == p.scope
    ensures FindRule(img.rules, p.rule).Some?
  {
    var r, e :| r in img.rules && e in st.history && Fires(img, r, e) && p == PendingOf(r, e);
    OpenAnchor(img.rules, r, e.time, lim.maxLookback, floor);
    FindRuleFinds(img.rules, r);
  }

  lemma {:induction false} FindRuleFinds(rules: seq<Rule>, r: Rule)
    requires r in rules
    ensures FindRule(rules, r.id).Some? && FindRule(rules, r.id).value in rules && FindRule(rules, r.id).value.id == r.id
  {
    if rules[0].id != r.id { FindRuleFinds(rules[1..], r); }
  }

  lemma ResumeOneBalances(img: Image, lim: Limits, st: State, floor: Time, m: Pending, rest: multiset<Pending>)
    requires WithinLookback(img.rules, lim.maxLookback) && Covered(st, Sub(floor, lim.maxLookback))
    requires Justified(img, st.history, m) && floor <= m.upper
    requires Balanced(st, multiset{m} + rest) && LossExplained(st)
    ensures Balanced(ResumeOne(img, lim, st, m), rest) && LossExplained(ResumeOne(img, lim, st, m))
  {
    hide Bindings, Lookup, FindRule, QueueOf;
    AnchorIsThere(img, lim, st, floor, m);
    var st' := ResumeOne(img, lim, st, m);
    forall p ensures Accounts(st'.ledger, st'.queues, rest, p) {
      assert Accounts(st.ledger, st.queues, multiset{m} + rest, p);
    }
  }

  lemma {:induction false} ResumeAllBalances(img: Image, lim: Limits, st: State, floor: Time, expired: seq<Pending>)
    requires WithinLookback(img.rules, lim.maxLookback) && Covered(st, Sub(floor, lim.maxLookback))
    requires forall p :: p in expired ==> Justified(img, st.history, p) && floor <= p.upper
    requires Balanced(st, multiset(expired)) && LossExplained(st)
    ensures Balanced(ResumeAll(img, lim, st, expired), multiset{}) && LossExplained(ResumeAll(img, lim, st, expired))
    decreases |expired|
  {
    hide ResumeOne, WithinLookback, Justified;
    if expired != [] {
      assert expired == [expired[0]] + expired[1..];
      ResumeOneOnlyRuns(img, lim, st, expired[0]);
      ResumeOneBalances(img, lim, st, floor, expired[0], multiset(expired[1..]));
      ResumeAllBalances(img, lim, ResumeOne(img, lim, st, expired[0]), floor, expired[1..]);
    }
  }

  lemma BoundedIsOk(img: Image, lim: Limits, history: seq<Event>, q: seq<Pending>, p: Pending, floor: Time)
    requires QueueOk(img, lim, history, p.scope, q, floor) && floor <= p.upper && Justified(img, history, p)
    ensures QueueOk(img, lim, history, p.scope, Bounded(img.hash, q, AtLeastOne(lim.queueCapacity), p).0, floor)
  {
    hide Bounded, Justified;
    BoundedKeepsTheLeast(img.hash, q, AtLeastOne(lim.queueCapacity), p);
    BoundedMembers(img.hash, q, AtLeastOne(lim.queueCapacity), p);
  }

  lemma SuspendKeepsQueues(img: Image, lim: Limits, st: State, p: Pending, floor: Time)
    requires QueuesOk(img, lim, st, floor) && floor <= p.upper && Justified(img, st.history, p)
    ensures QueuesOk(img, lim, Suspend(img, lim, st, p), floor)
  {
    hide Bounded, Justified;
    BoundedIsOk(img, lim, st.history, QueueOf(st.queues, p.scope), p, floor);
  }

  lemma SuspendBalances(img: Image, lim: Limits, st: State, p: Pending, floor: Time)
    requires QueuesOk(img, lim, st, floor) && Balanced(st, multiset{})
    ensures Balanced(Suspend(img, lim, st, p), multiset{})
  {
    var st' := Suspend(img, lim, st, p);
    forall x ensures Accounts(st'.ledger, st'.queues, multiset{}, x) {
      assert Accounts(st.ledger, st.queues, multiset{}, x);
      SuspendAccounts(img, lim, st, p, floor, x);
    }
  }

  lemma SuspendAccounts(img: Image, lim: Limits, st: State, p: Pending, floor: Time, x: Pending)
    requires QueuesOk(img, lim, st, floor) && Accounts(st.ledger, st.queues, multiset{}, x)
    ensures var st' := Suspend(img, lim, st, p); Accounts(st'.ledger, st'.queues, multiset{}, x)
  {
    hide Bounded;
    BoundedCounts(img.hash, QueueOf(st.queues, p.scope), AtLeastOne(lim.queueCapacity), p, x);
  }

  lemma BoundedCounts(h: Hash, q: seq<Pending>, capacity: nat, p: Pending, x: Pending)
    requires Ordered(h, q) && |q| <= capacity && forall m :: m in q ==> m.scope == p.scope
    ensures var (kept, dropped) := Bounded(h, q, capacity, p);
            var spilled := if dropped.Some? then multiset{dropped.value} else multiset{};
            && multiset(kept)[x] + spilled[x] == multiset(q)[x] + multiset{p}[x]
            && (x.scope != p.scope ==> spilled[x] == 0 && x != p)
  {
    BoundedKeepsTheLeast(h, q, capacity, p);
    BoundedMembers(h, q, capacity, p);
    hide Bounded;
    var (kept, dropped) := Bounded(h, q, capacity, p);
    var spilled := if dropped.Some? then multiset{dropped.value} else multiset{};
    assert (multiset(kept) + spilled)[x] == (multiset(q) + multiset{p})[x];
  }

  // ----- every call, every run -----

  ghost predicate LastIsLatest(st: State)
  {
    forall e :: e in st.history ==> st.last.Some? && e.time <= st.last.value
  }

  /** The state between calls when rings were last collected, and queues last popped, at
      watermark `floor`. */
  ghost predicate Sound(img: Image, lim: Limits, st: State, floor: Time)
  {
    && RingsOk(lim, st) && Covered(st, Sub(floor, lim.maxLookback))
    && QueuesOk(img, lim, st, floor)
    && Balanced(st, multiset{}) && LossExplained(st) && LastIsLatest(st)
  }

  lemma StartIsSound(img: Image, lim: Limits)
    ensures Sound(img, lim, Start(), TIME_MIN)
  {
  }

  lemma MoveIsSound(img: Image, lim: Limits, st: State, floor: Time, st': State)
    requires Sound(img, lim, st, floor)
    requires st' == st.(last := st'.last, wm := st'.wm, finished := st'.finished)
    requires LastIsLatest(st')
    ensures Sound(img, lim, st', floor)
  {
    hide Sorted, QueueOk, Sub;
    forall p ensures Accounts(st'.ledger, st'.queues, multiset{}, p) { assert Accounts(st.ledger, st.queues, multiset{}, p); }
  }

  lemma {:induction false} PushIsSound(img: Image, lim: Limits, st: State, floor: Time, e: Event)
    requires Sound(img, lim, st, floor) && st.last.Some? && e.time <= st.last.value
    ensures Sound(img, lim, PushEvent(lim, st, e), floor)
  {
    hide Push, RingsOk, Covered, QueueOk, QueuesOk;
    PushCovers(lim, st, e, Sub(floor, lim.maxLookback));
    PushKeepsQueues(img, lim, st, floor, e);
    var st' := PushEvent(lim, st, e);
    forall p ensures Accounts(st'.ledger, st'.queues, multiset{}, p) { assert Accounts(st.ledger, st.queues, multiset{}, p); }
  }

  lemma PushKeepsQueues(img: Image, lim: Limits, st: State, floor: Time, e: Event)
    requires QueuesOk(img, lim, st, floor)
    ensures QueuesOk(img, lim, PushEvent(lim, st, e), floor)
  {
    var history := PushEvent(lim, st, e).history;
    forall s | s in st.queues ensures QueueOk(img, lim, history, s, st.queues[s], floor) {
      forall p | p in st.queues[s] ensures Justified(img, history, p) { StillJustified(img, st.history, e, p); }
    }
  }

  lemma StillJustified(img: Image, history: seq<Event>, e: Event, p: Pending)
    requires Justified(img, history, p)
    ensures Justified(img, history + [e], p)
  {
    var r, a :| r in img.rules && a in history && Fires(img, r, a) && p == PendingOf(r, a);
    assert a in history + [e];
  }

  /** The order of `ingest`: resume at the new watermark while the rings still reach back
      from the old one, then collect. */
  lemma {:induction false} SettleIsSound(img: Image, lim: Limits, st: State, floor: Time, expired: seq<Pending>)
    requires WithinLookback(img.rules, lim.maxLookback) && Sound(img, lim, st, floor) && floor <= st.wm
    requires PopOk(img.hash, st.queues, st.wm, expired)
    ensures Sound(img, lim, Settle(img, lim, st, expired), st.wm)
  {
    hide Sorted, QueueOf, ResumeAll, Fires, WithinLookback;
    var taken := Take(st);
    TakeKeepsQueues(img, lim, st, floor);
    TakenAreDue(img, lim, st, floor, expired);
    TakeBalances(img, lim, st, floor, expired);
    ResumeAllBalances(img, lim, taken, floor, expired);
    ResumeAllOnlyRuns(img, lim, taken, expired);
    var resumed := ResumeAll(img, lim, taken, expired);
    SweepKeepsRings(lim, resumed);
    SweepCovers(lim, resumed, Sub(floor, lim.maxLookback));
    SweepIsSound(img, lim, resumed, st.wm);
  }

  lemma SweepIsSound(img: Image, lim: Limits, st: State, floor: Time)
    requires QueuesOk(img, lim, st, floor) && Balanced(st, multiset{}) && LossExplained(st) && LastIsLatest(st)
    requires RingsOk(lim, Sweep(lim, st)) && Covered(Sweep(lim, st), Sub(floor, lim.maxLookback))
    ensures Sound(img, lim, Sweep(lim, st), floor)
  {
    hide RingsOk, Covered, QueueOk;
    var st' := Sweep(lim, st);
    forall p ensures Accounts(st'.ledger, st'.queues, multiset{}, p) { assert Accounts(st.ledger, st.queues, multiset{}, p); }
  }

  lemma {:induction false} MatchOneIsSound(img: Image, lim: Limits, st: State, budget: nat, e: Event, r: Rule)
    requires Sound(img, lim, st, st.wm) && e in st.history && r in img.rules
    ensures Sound(img, lim, MatchOne(img, lim, st, budget, e, r).0, st.wm)
  {
    hide RingsOk, Covered, QueueOk, QueuesOk, Balanced, Bindings;
    if Fires(img, r, e) {
      if Deadline(r, e) > st.wm {
        assert Justified(img, st.history, PendingOf(r, e));
        SuspendKeepsQueues(img, lim, st, PendingOf(r, e), st.wm);
        SuspendBalances(img, lim, st, PendingOf(r, e), st.wm);
        SuspendKeepsTheRest(img, lim, st, PendingOf(r, e));
      } else {
        RunIsSound(img, lim, st, r, e, None, budget);
      }
    }
  }

  lemma SuspendKeepsTheRest(img: Image, lim: Limits, st: State, p: Pending)
    requires RingsOk(lim, st) && Covered(st, Sub(st.wm, lim.maxLookback))
    ensures var st' := Suspend(img, lim, st, p); RingsOk(lim, st') && Covered(st', Sub(st.wm, lim.maxLookback))
  {
    hide Bounded, Sorted;
  }

  lemma RunIsSound(img: Image, lim: Limits, st: State, r: Rule, e: Event, origin: Option<Pending>, budget: nat)
    requires Sound(img, lim, st, st.wm)
    ensures Sound(img, lim, RunRule(img, st, r, e, origin, budget).0, st.wm)
  {
    hide Bindings, Sorted, QueueOk;
    var st' := RunRule(img, st, r, e, origin, budget).0;
    forall p ensures Accounts(st'.ledger, st'.queues, multiset{}, p) { assert Accounts(st.ledger, st.queues, multiset{}, p); }
  }

  lemma {:induction false} MatchAllIsSound(img: Image, lim: Limits, st: State, budget: nat, e: Event, rules: seq<Rule>)
    requires Sound(img, lim, st, st.wm) && e in st.history && forall r :: r in rules ==> r in img.rules
    ensures Sound(img, lim, MatchAll(img, lim, st, budget, e, rules), st.wm)
    decreases |rules|
  {
    hide Sound, MatchOne;
    if rules != [] {
      MatchOneIsSound(img, lim, st, budget, e, rules[0]);
      var (next, left) := MatchOne(img, lim, st, budget, e, rules[0]);
      MatchOneOnlyMatches(img, lim, st, budget, e, rules[0]);
      MatchAllIsSound(img, lim, next, left, e, rules[1..]);
    }
  }

  lemma DoIsSound(img: Image, lim: Limits, st: State, op: Op)
    requires WithinLookback(img.rules, lim.maxLookback) && Sound(img, lim, st, st.wm) && Legal(img, st, op)
    ensures Sound(img, lim, Do(img, lim, st, op), Do(img, lim, st, op).wm)
  {
    hide WithinLookback, RingsOk, Covered, QueuesOk, Balanced, LossExplained, PopOk, ResumeAll, MatchAll, Push;
    if op.Accept? {
      AcceptIsSound(img, lim, st, op.event, op.target, op.expired);
    } else if op.Discard? {
      MoveIsSound(img, lim, st, st.wm, Noted(st, op.event));
    } else if op.Advance? {
      MoveIsSound(img, lim, st, st.wm, Ahead(st, op.to));
      SettleIsSound(img, lim, Ahead(st, op.to), st.wm, op.expired);
      SettleWm(img, lim, Ahead(st, op.to), op.expired);
    } else if !st.finished && st.last.Some? {
      var ready := Ahead(st.(finished := true), FlushTime(img, st.last.value));
      MoveIsSound(img, lim, st, st.wm, ready);
      SettleIsSound(img, lim, ready, st.wm, op.expired);
      SettleWm(img, lim, ready, op.expired);
    } else {
      MoveIsSound(img, lim, st, st.wm, Do(img, lim, st, op));
    }
  }

  lemma SettleWm(img: Image, lim: Limits, st: State, expired: seq<Pending>)
    ensures var st' := Settle(img, lim, st, expired);
            st'.wm == st.wm && st'.last == st.last && st'.history == st.history && st'.lost == st.lost && st'.finished == st.finished
  {
    hide ResumeAll, Bindings;
    ResumeAllOnlyRuns(img, lim, Take(st), expired);
  }

  lemma AcceptIsSound(img: Image, lim: Limits, st: State, e: Event, target: Time, expired: seq<Pending>)
    requires WithinLookback(img.rules, lim.maxLookback) && Sound(img, lim, st, st.wm)
    requires PopOk(img.hash, st.queues, Latest(st.wm, target), expired)
    ensures var st' := Do(img, lim, st, Accept(e, target, expired)); Sound(img, lim, st', st'.wm)
  {
    hide WithinLookback, RingsOk, Covered, QueuesOk, Balanced, LossExplained, PopOk, ResumeAll, MatchAll, Push;
    var noted := Ahead(Noted(st, e), target);
    MoveIsSound(img, lim, st, st.wm, noted);
    PushIsSound(img, lim, noted, st.wm, e);
    var arrived := PushEvent(lim, noted, e);
    SettleIsSound(img, lim, arrived, st.wm, expired);
    SettleWm(img, lim, arrived, expired);
    var settled := Settle(img, lim, arrived, expired);
    MatchAllIsSound(img, lim, settled, lim.maxFirings, e, img.rules);
    MatchAllOnlyMatches(img, lim, settled, lim.maxFirings, e, img.rules);
  }

  lemma {:induction false} RunIsAlwaysSound(img: Image, lim: Limits, ops: seq<Op>)
    requires WithinLookback(img.rules, lim.maxLookback) && LegalRun(img, lim, ops)
    ensures Sound(img, lim, Run(img, lim, ops), Run(img, lim, ops).wm)
  {
    hide WithinLookback, Sound, Do, Legal;
    if ops == [] {
      StartIsSound(img, lim);
    } else {
      var init := ops[..|ops| - 1];
      RunIsAlwaysSound(img, lim, init);
      DoIsSound(img, lim, Run(img, lim, init), ops[|ops| - 1]);
    }
  }

  // ----- main results -----

  /** The anchor of `p`, and every event ever pushed into a window that any rule opens around
      that anchor, is still buffered or was dropped by a full ring. */
  ghost predicate WindowsKept(img: Image, st: State, p: Pending)
  {
    exists r, a :: r in img.rules && a in st.history && Fires(img, r, a) && p == PendingOf(r, a)
      && (a in RingOf(st.rings, p.scope) || a in st.lost)
      && forall reader, c, e :: reader in img.rules && c in reader.correlates && c.window.Calculable?
                        && e in st.history && e.scope == p.scope && Sub(a.time, c.window.back) <= e.time
                        ==> e in RingOf(st.rings, p.scope) || e in st.lost
  }

  /** Garbage collection is safe: in every reachable state the windows of each pending match
      are kept. */
  lemma {:induction false} CollectionIsSafe(img: Image, lim: Limits, ops: seq<Op>)
    requires WithinLookback(img.rules, lim.maxLookback) && LegalRun(img, lim, ops)
    ensures var st := Run(img, lim, ops); forall p: Pending :: p in QueueOf(st.queues, p.scope) ==> WindowsKept(img, st, p)
  {
    hide Run, LegalRun, WithinLookback, WindowsKept, Sound;
    var st := Run(img, lim, ops);
    RunIsAlwaysSound(img, lim, ops);
    forall p: Pending | p in QueueOf(st.queues, p.scope) ensures WindowsKept(img, st, p) { PendingIsSafe(img, lim, st, p); }
  }

  lemma {:induction false} PendingIsSafe(img: Image, lim: Limits, st: State, p: Pending)
    requires WithinLookback(img.rules, lim.maxLookback) && Sound(img, lim, st, st.wm) && p in QueueOf(st.queues, p.scope)
    ensures WindowsKept(img, st, p)
  {
    hide WithinLookback, Fires;
    assert Justified(img, st.history, p) && st.wm <= p.upper;
    var r, a :| r in img.rules && a in st.history && Fires(img, r, a) && p == PendingOf(r, a);
    OpenAnchor(img.rules, r, a.time, lim.maxLookback, st.wm);
    forall reader, c, e | reader in img.rules && c in reader.correlates && c.window.Calculable?
                       && e in st.history && e.scope == p.scope && Sub(a.time, c.window.back) <= e.time
      ensures e in RingOf(st.rings, p.scope) || e in st.lost
    {
      OpenWindows(img.rules, r, reader, c, a.time, lim.maxLookback, st.wm);
    }
  }

  /** No match is ever diagnosed without its anchor unless a ring overflowed; none is ever
      diagnosed without its rule. */
  lemma {:induction false} MissingNeedsSpill(img: Image, lim: Limits, ops: seq<Op>, p: Pending)
    requires WithinLookback(img.rules, lim.maxLookback) && LegalRun(img, lim, ops)
    ensures var st := Run(img, lim, ops);
            && p !in st.ledger.unlisted
            && (p in st.ledger.missing ==> exists e :: e in st.lost && e.id == p.anchor && e.scope == p.scope)
  {
    hide Run, LegalRun, WithinLookback;
    RunIsAlwaysSound(img, lim, ops);
  }

  /** Conservation, for every run: suspended = resumed + spilled + diagnosed + waiting. */
  lemma SuspendedIsConserved(img: Image, lim: Limits, ops: seq<Op>, p: Pending)
    requires WithinLookback(img.rules, lim.maxLookback) && LegalRun(img, lim, ops)
    ensures var st := Run(img, lim, ops);
            st.ledger.suspended[p] == st.ledger.resumed[p] + st.ledger.spilled[p] + st.ledger.missing[p]
                                      + multiset(QueueOf(st.queues, p.scope))[p]
  {
    hide Run, LegalRun, WithinLookback;
    RunIsAlwaysSound(img, lim, ops);
    var st := Run(img, lim, ops);
    assert Accounts(st.ledger, st.queues, multiset{}, p);
  }

  ghost predicate Drained(st: State) { forall s :: QueueOf(st.queues, s) == [] }

  lemma UpperIsBeforeFlush(img: Image, lim: Limits, st: State, p: Pending)
    requires Sound(img, lim, st, st.wm) && p in QueueOf(st.queues, p.scope)
    ensures st.last.Some? && p.upper <= Add(st.last.value, ImageMaxForward(img.rules))
  {
    hide Sorted, Balanced, Covered, RingsOk;
    assert Justified(img, st.history, p);
    ImageMaxForwardBounds(img.rules);
  }

  /** The end-of-stream flush empties every queue exactly when no deadline saturated; in
      particular when the latest time plus the longest forward window does not. */
  lemma {:induction false} FinishDrainsIff(img: Image, lim: Limits, ops: seq<Op>, expired: seq<Pending>)
    requires WithinLookback(img.rules, lim.maxLookback) && LegalRun(img, lim, ops + [Finish(expired)])
    requires !Run(img, lim, ops).finished
    ensures var st, st' := Run(img, lim, ops), Run(img, lim, ops + [Finish(expired)]);
            && (Drained(st') <==> forall s, p :: p in QueueOf(st.queues, s) ==> p.upper < TIME_MAX)
            && (st.last.Some? && st.last.value + ImageMaxForward(img.rules) < TIME_MAX ==> Drained(st'))
  {
    hide WithinLookback, Sound, Do, Drained;
    var st, op := Run(img, lim, ops), Finish(expired);
    assert (ops + [op])[..|ops|] == ops;
    RunIsAlwaysSound(img, lim, ops);
    FlushDrainsIff(img, lim, st, expired);
  }

  lemma {:induction false} FlushDrainsIff(img: Image, lim: Limits, st: State, expired: seq<Pending>)
    requires Sound(img, lim, st, st.wm) && !st.finished
    ensures var st' := Do(img, lim, st, Finish(expired));
            && (Drained(st') <==> forall s, p :: p in QueueOf(st.queues, s) ==> p.upper < TIME_MAX)
            && (st.last.Some? && st.last.value + ImageMaxForward(img.rules) < TIME_MAX ==> Drained(st'))
  {
    hide Balanced, Covered, RingsOk, ResumeAll, Later, Due, ImageMaxForward;
    var st' := Do(img, lim, st, Finish(expired));
    if st.last.None? {
      forall s ensures QueueOf(st.queues, s) == [] { NothingWaits(img, lim, st, s); }
    } else {
      FlushKeepsLate(img, lim, st, expired);
      forall s, p | p in QueueOf(st.queues, s) ensures p.scope == s && p.upper <= Add(st.last.value, ImageMaxForward(img.rules)) {
        assert QueueOk(img, lim, st.history, s, st.queues[s], st.wm);
        UpperIsBeforeFlush(img, lim, st, p);
      }
      LaterIsEmptyIff(img, lim, st, st'.wm);
    }
  }

  lemma NothingWaits(img: Image, lim: Limits, st: State, s: Scope)
    requires Sound(img, lim, st, st.wm) && st.last.None?
    ensures QueueOf(st.queues, s) == []
  {
    if QueueOf(st.queues, s) != [] {
      var p := st.queues[s][0];
      assert QueueOk(img, lim, st.history, s, st.queues[s], st.wm);
      UpperIsBeforeFlush(img, lim, st, p);
    }
  }

  lemma FlushKeepsLate(img: Image, lim: Limits, st: State, expired: seq<Pending>)
    requires !st.finished && st.last.Some?
    ensures var st' := Do(img, lim, st, Finish(expired));
            && st'.wm == Latest(st.wm, FlushTime(img, st.last.value))
            && forall s :: QueueOf(st'.queues, s) == Later(QueueOf(st.queues, s), st'.wm)
  {
    hide ResumeAll;
    var ready := Ahead(st.(finished := true), FlushTime(img, st.last.value));
    ResumeAllOnlyRuns(img, lim, Take(ready), expired);
  }

  lemma LaterIsEmptyIff(img: Image, lim: Limits, st: State, wm: Time)
    requires QueuesOk(img, lim, st, st.wm)
    ensures (forall s :: Later(QueueOf(st.queues, s), wm) == []) <==> forall s, p :: p in QueueOf(st.queues, s) ==> p.upper < wm
  {
    hide Later, Due;
    forall s ensures Later(QueueOf(st.queues, s), wm) == [] <==> forall p :: p in QueueOf(st.queues, s) ==> p.upper < wm {
      NoneLater(img.hash, QueueOf(st.queues, s), wm);
    }
  }

  lemma NoneLater(h: Hash, q: seq<Pending>, wm: Time)
    requires Ordered(h, q)
    ensures Later(q, wm) == [] <==> forall p :: p in q ==> p.upper < wm
  {
    PopIsExact(h, q, wm);
    if Later(q, wm) != [] { assert Later(q, wm)[0] in q; }
  }

  /** Once drained, the account holds without a waiting term. */
  lemma {:induction false} DrainedAccount(img: Image, lim: Limits, ops: seq<Op>)
    requires WithinLookback(img.rules, lim.maxLookback) && LegalRun(img, lim, ops)
    ensures var st := Run(img, lim, ops);
            Drained(st) ==> st.ledger.suspended == st.ledger.resumed + st.ledger.spilled + st.ledger.missing
  {
    hide Run, LegalRun, WithinLookback;
    var st := Run(img, lim, ops);
    if Drained(st) {
      var ledger := st.ledger;
      forall p ensures ledger.suspended[p] == ledger.resumed[p] + ledger.spilled[p] + ledger.missing[p] {
        SuspendedIsConserved(img, lim, ops, p);
      }
    }
  }
}
