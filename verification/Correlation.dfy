/** `resolve_bindings` of crates/airpulse_dsl-evaluator/src/engine.rs: the candidate scan with
    early exit, against the declarative rule of EngineModel. */
module Correlation {
  import opened Options
  import opened EventTime
  import opened Ring
  import opened RuleImage
  import opened EngineModel
  import Kleene

  lemma {:induction false} SatisfyingSplit(img: Image, rule: Rule, k: nat, prev: seq<Binding>, a: seq<Bound>, b: seq<Bound>, v: T3)
    ensures Satisfying(img, rule, k, prev, a + b, v) == Satisfying(img, rule, k, prev, a, v) + Satisfying(img, rule, k, prev, b, v)
  {
    if b == [] {
      assert a + b == a;
    } else {
      assert (a + b)[..|a + b| - 1] == a + b[..|b| - 1];
      SatisfyingSplit(img, rule, k, prev, a, b[..|b| - 1], v);
    }
  }

  lemma SatisfyingNext(img: Image, rule: Rule, k: nat, prev: seq<Binding>, cands: seq<Bound>, i: nat, v: T3)
    requires i < |cands|
    ensures Satisfying(img, rule, k, prev, cands[..i + 1], v)
         == Satisfying(img, rule, k, prev, cands[..i], v) + (if img.topology(rule, k, prev, cands[i]) == v then [cands[i]] else [])
  {
    assert cands[..i + 1][..i] == cands[..i];
  }

  // ----- what is bound, over positions in the ring -----

  /** The ring event at `j` can be bound: it is of the correlate's kind, is not the anchor, and
      lies in the inclusive window; `lo` and `hi` need no saturation, since times are in range. */
  predicate CanBind(c: Correlate, anchor: Event, buf: seq<Event>, j: int)
    requires c.source.FromEvents? && c.window.Calculable?
  {
    && 0 <= j < |buf| && buf[j].kind == c.source.kind && buf[j].id != anchor.id
    && anchor.time - c.window.back <= buf[j].time <= anchor.time + c.window.forward
  }

  /** Positions in the ring whose event can be bound, with topology verdict `v`. */
  ghost function Positions(img: Image, rule: Rule, k: nat, prev: seq<Binding>, anchor: Event, buf: seq<Event>, v: T3): set<int>
    requires k < |rule.correlates| && rule.correlates[k].source.FromEvents? && rule.correlates[k].window.Calculable?
  {
    set j | 0 <= j < |buf| && CanBind(rule.correlates[k], anchor, buf, j) && img.topology(rule, k, prev, EventBound(buf[j])) == v
  }

  /** Positions of the graph nodes with verdict `v`. */
  ghost function NodePositions(img: Image, rule: Rule, k: nat, prev: seq<Binding>, nodes: seq<Bound>, v: T3): set<int>
  {
    set j | 0 <= j < |nodes| && img.topology(rule, k, prev, nodes[j]) == v
  }

  ghost predicate IsLeast(s: set<int>, j: int) { j in s && forall i :: i in s ==> j <= i }

  /** With enough True candidates the first of them is bound; otherwise an Unknown candidate,
      or a count of zero, leaves the correlate undecided. */
  ghost predicate Chooses(minMatch: Count, yes: set<int>, open: set<int>, all: seq<Bound>, b: Binding)
  {
    && (b.Present? <==> |yes| >= minMatch && yes != {})
    && (b.Present? ==> exists j :: IsLeast(yes, j) && 0 <= j < |all| && b.to == all[j])
    && (b == Unknown <==> !b.Present? && (open != {} || minMatch == 0))
  }

  function AsBounds(buf: seq<Event>): seq<Bound> { seq(|buf|, i requires 0 <= i < |buf| => EventBound(buf[i])) }

  /** What the `k`-th correlate of a rule binds, given the bindings before it. */
  ghost predicate Binds(img: Image, rule: Rule, k: nat, prev: seq<Binding>, anchor: Event, buf: seq<Event>, trace: seq<Step>, b: Binding)
    requires k < |rule.correlates|
  {
    var c := rule.correlates[k];
    if c.window.RuntimeCheck? then b == Absent
    else if c.source.FromEvents? then
      Chooses(c.minMatch, Positions(img, rule, k, prev, anchor, buf, Kleene.True),
              Positions(img, rule, k, prev, anchor, buf, Kleene.Unknown), AsBounds(buf), b)
    else
      var nodes := img.nodes(trace, rule, k, anchor);
      Chooses(c.minMatch, NodePositions(img, rule, k, prev, nodes, Kleene.True),
              NodePositions(img, rule, k, prev, nodes, Kleene.Unknown), nodes, b)
  }

  ghost predicate BindsAt(img: Image, rule: Rule, k: nat, anchor: Event, buf: seq<Event>, trace: seq<Step>, bindings: seq<Binding>)
  {
    k < |rule.correlates| && k + 1 < |bindings| && Binds(img, rule, k, bindings[..k + 1], anchor, buf, trace, bindings[k + 1])
  }

  /** `bindings` are the anchor and, in order, what each correlate binds. */
  ghost predicate AreBindings(img: Image, rule: Rule, anchor: Event, buf: seq<Event>, trace: seq<Step>, bindings: seq<Binding>)
  {
    && |bindings| == |rule.correlates| + 1 && bindings[0] == Present(EventBound(anchor))
    && forall k :: 0 <= k < |rule.correlates| ==> BindsAt(img, rule, k, anchor, buf, trace, bindings)
  }

  /** `yes` lists what stands at the positions `at` of `all`, at least as far as counting and
      choosing the first go. */
  ghost predicate Lists(yes: seq<Bound>, at: set<int>, all: seq<Bound>)
  {
    && |yes| == |at| && (forall i :: i in at ==> 0 <= i < |all|)
    && (yes != [] ==> exists j :: IsLeast(at, j) && 0 <= j < |all| && yes[0] == all[j])
  }

  lemma ListsNext(yes: seq<Bound>, at: set<int>, all: seq<Bound>, b: Bound, taken: bool)
    requires Lists(yes, at, all)
    ensures Lists(if taken then yes + [b] else yes, if taken then at + {|all|} else at, all + [b])
  {
    if yes == [] {
      assert at == {};
      if taken { assert IsLeast({|all|}, |all|) && at + {|all|} == {|all|} && (all + [b])[|all|] == b; }
    } else {
      var j :| IsLeast(at, j) && 0 <= j < |all| && yes[0] == all[j];
      assert IsLeast(if taken then at + {|all|} else at, j) && (all + [b])[j] == all[j];
    }
  }

  lemma ListsChoose(minMatch: Count, yes: seq<Bound>, at: set<int>, open: seq<Bound>, openAt: set<int>, all: seq<Bound>)
    requires Lists(yes, at, all) && Lists(open, openAt, all)
    ensures Chooses(minMatch, at, openAt, all, Decide(minMatch, yes, open != []))
  {
    assert (yes == []) == (at == {}) && (open == []) == (openAt == {});
  }

  lemma {:induction false} NodesAreListed(img: Image, rule: Rule, k: nat, prev: seq<Binding>, nodes: seq<Bound>, v: T3)
    ensures Lists(Satisfying(img, rule, k, prev, nodes, v), NodePositions(img, rule, k, prev, nodes, v), nodes)
  {
    hide Lists;
    if nodes == [] {
      assert NodePositions(img, rule, k, prev, nodes, v) == {};
      NothingListed();
    } else {
      var n := |nodes| - 1;
      NodesAreListed(img, rule, k, prev, nodes[..n], v);
      var taken := img.topology(rule, k, prev, nodes[n]) == v;
      ListsNext(Satisfying(img, rule, k, prev, nodes[..n], v), NodePositions(img, rule, k, prev, nodes[..n], v), nodes[..n], nodes[n], taken);
      assert nodes == nodes[..n] + [nodes[n]];
      var before := NodePositions(img, rule, k, prev, nodes[..n], v);
      assert NodePositions(img, rule, k, prev, nodes, v) == if taken then before + {n} else before;
    }
  }

  lemma NothingListed()
    ensures Lists([], {}, [])
  {
  }

  /** The candidates in a ring with one more event. */
  lemma {:induction false} EventsSnoc(img: Image, rule: Rule, k: nat, prev: seq<Binding>, anchor: Event, buf: seq<Event>, e: Event, v: T3)
    requires k < |rule.correlates| && rule.correlates[k].source.FromEvents? && rule.correlates[k].window.Calculable?
    ensures var taken := CanBind(rule.correlates[k], anchor, [e], 0) && img.topology(rule, k, prev, EventBound(e)) == v;
            var before := Satisfying(img, rule, k, prev, Candidates(img, rule, k, anchor, buf, []), v);
            Satisfying(img, rule, k, prev, Candidates(img, rule, k, anchor, buf + [e], []), v)
            == if taken then before + [EventBound(e)] else before
  {
    var c := rule.correlates[k];
    var lo, hi := Sub(anchor.time, c.window.back), Add(anchor.time, c.window.forward);
    assert (buf + [e])[..|buf|] == buf;
    var window := Between(buf, lo, hi);
    assert (window + [e])[..|window|] == window;
    var cands := Others(window, c.source.kind, anchor.id);
    assert (cands + [EventBound(e)])[..|cands|] == cands;
  }

  lemma {:induction false} EventsAreListed(img: Image, rule: Rule, k: nat, prev: seq<Binding>, anchor: Event, buf: seq<Event>, v: T3)
    requires k < |rule.correlates| && rule.correlates[k].source.FromEvents? && rule.correlates[k].window.Calculable?
    ensures Lists(Satisfying(img, rule, k, prev, Candidates(img, rule, k, anchor, buf, []), v),
                  Positions(img, rule, k, prev, anchor, buf, v), AsBounds(buf))
  {
    hide Lists, Satisfying, Candidates;
    if buf == [] {
      NoCandidates(img, rule, k, prev, anchor, v);
      assert Positions(img, rule, k, prev, anchor, buf, v) == {};
      NothingListed();
    } else {
      var n := |buf| - 1;
      var init, e := buf[..n], buf[n];
      EventsAreListed(img, rule, k, prev, anchor, init, v);
      assert buf == init + [e];
      EventsSnoc(img, rule, k, prev, anchor, init, e, v);
      var taken := CanBind(rule.correlates[k], anchor, [e], 0) && img.topology(rule, k, prev, EventBound(e)) == v;
      var before := Positions(img, rule, k, prev, anchor, init, v);
      ListsNext(Satisfying(img, rule, k, prev, Candidates(img, rule, k, anchor, init, []), v), before, AsBounds(init), EventBound(e), taken);
      assert AsBounds(buf) == AsBounds(init) + [EventBound(e)];
      assert Positions(img, rule, k, prev, anchor, buf, v) == if taken then before + {n} else before;
    }
  }

  lemma NoCandidates(img: Image, rule: Rule, k: nat, prev: seq<Binding>, anchor: Event, v: T3)
    requires k < |rule.correlates| && rule.correlates[k].source.FromEvents? && rule.correlates[k].window.Calculable?
    ensures Satisfying(img, rule, k, prev, Candidates(img, rule, k, anchor, [], []), v) == []
  {
  }

  lemma {:induction false} ResolveOneBinds(img: Image, rule: Rule, k: nat, prev: seq<Binding>, anchor: Event, buf: seq<Event>, trace: seq<Step>)
    requires k < |rule.correlates|
    ensures Binds(img, rule, k, prev, anchor, buf, trace, ResolveOne(img, rule, k, prev, anchor, buf, trace))
  {
    hide Lists, Satisfying, Decide, Chooses, Positions, NodePositions;
    var c := rule.correlates[k];
    if c.window.Calculable? {
      if c.source.FromEvents? {
        EventsAreListed(img, rule, k, prev, anchor, buf, Kleene.True);
        EventsAreListed(img, rule, k, prev, anchor, buf, Kleene.Unknown);
        var cands := Candidates(img, rule, k, anchor, buf, []);
        ListsChoose(c.minMatch, Satisfying(img, rule, k, prev, cands, Kleene.True), Positions(img, rule, k, prev, anchor, buf, Kleene.True),
                    Satisfying(img, rule, k, prev, cands, Kleene.Unknown), Positions(img, rule, k, prev, anchor, buf, Kleene.Unknown), AsBounds(buf));
      } else {
        var nodes := img.nodes(trace, rule, k, anchor);
        NodesAreListed(img, rule, k, prev, nodes, Kleene.True);
        NodesAreListed(img, rule, k, prev, nodes, Kleene.Unknown);
        ListsChoose(c.minMatch, Satisfying(img, rule, k, prev, nodes, Kleene.True), NodePositions(img, rule, k, prev, nodes, Kleene.True),
                    Satisfying(img, rule, k, prev, nodes, Kleene.Unknown), NodePositions(img, rule, k, prev, nodes, Kleene.Unknown), nodes);
      }
    }
  }

  /** The bindings with which a body runs are the anchor and what each correlate binds. */
  lemma BindingsAreBindings(img: Image, rule: Rule, anchor: Event, buf: seq<Event>, trace: seq<Step>)
    ensures AreBindings(img, rule, anchor, buf, trace, Bindings(img, rule, anchor, buf, trace))
  {
    hide Binds;
    ResolveBindsAll(img, rule, |rule.correlates|, anchor, buf, trace);
  }

  lemma {:induction false} ResolveBindsAll(img: Image, rule: Rule, n: nat, anchor: Event, buf: seq<Event>, trace: seq<Step>)
    requires n <= |rule.correlates|
    ensures var bs := Resolve(img, rule, n, anchor, buf, trace);
            && |bs| == n + 1 && bs[0] == Present(EventBound(anchor))
            && forall k :: 0 <= k < n ==> BindsAt(img, rule, k, anchor, buf, trace, bs)
  {
    hide Binds, ResolveOne;
    if n > 0 {
      ResolveBindsAll(img, rule, n - 1, anchor, buf, trace);
      var prev, bs := Resolve(img, rule, n - 1, anchor, buf, trace), Resolve(img, rule, n, anchor, buf, trace);
      ResolveOneBinds(img, rule, n - 1, prev, anchor, buf, trace);
      assert bs[..n] == prev;
      forall k | 0 <= k < n ensures BindsAt(img, rule, k, anchor, buf, trace, bs) {
        if k < n - 1 { assert BindsAt(img, rule, k, anchor, buf, trace, prev) && bs[..k + 1] == prev[..k + 1] && bs[k + 1] == prev[k + 1]; }
      }
    }
  }

  /** The scan stops at the `minMatch`-th True candidate; nothing after it matters. */
  method ScanCandidates(img: Image, rule: Rule, k: nat, prev: seq<Binding>, cands: seq<Bound>, minMatch: Count) returns (b: Binding)
    ensures b == Decide(minMatch, Satisfying(img, rule, k, prev, cands, Kleene.True),
                        Satisfying(img, rule, k, prev, cands, Kleene.Unknown) != [])
  {
    var matchCount: Count := 0;
    var earliest: Option<Bound> := None;
    var sawUnknown := false;
    var i := 0;
    while i < |cands|
      invariant 0 <= i <= |cands|
      invariant var yes := Satisfying(img, rule, k, prev, cands[..i], Kleene.True);
                && matchCount == |yes| && (matchCount == 0 || matchCount < minMatch)
                && earliest == if yes == [] then None else Some(yes[0])
      invariant sawUnknown == (Satisfying(img, rule, k, prev, cands[..i], Kleene.Unknown) != [])
    {
      SatisfyingNext(img, rule, k, prev, cands, i, Kleene.True);
      SatisfyingNext(img, rule, k, prev, cands, i, Kleene.Unknown);
      var verdict := img.topology(rule, k, prev, cands[i]);
      i := i + 1;
      if verdict == Kleene.True {
        matchCount := matchCount + 1; // below minMatch, so the saturating addition never saturates
        if earliest.None? { earliest := Some(cands[i - 1]); }
        if matchCount >= minMatch { break; }
      } else if verdict == Kleene.Unknown {
        sawUnknown := true;
      }
    }
    if i == |cands| { assert cands[..i] == cands; }
    assert cands == cands[..i] + cands[i..];
    SatisfyingSplit(img, rule, k, prev, cands[..i], cands[i..], Kleene.True);
    if matchCount >= minMatch {
      b := if earliest.Some? then Present(earliest.value) else Unknown;
    } else {
      b := if sawUnknown then Unknown else Absent;
    }
  }

  /** Ring candidates of one kind, without the anchor itself. */
  method EventCandidates(window: seq<Event>, kind: nat, self: nat) returns (cands: seq<Bound>)
    ensures cands == Others(window, kind, self)
  {
    cands := [];
    var i := 0;
    while i < |window|
      invariant 0 <= i <= |window| && cands == Others(window[..i], kind, self)
    {
      assert window[..i + 1][..i] == window[..i];
      if window[i].kind == kind && window[i].id != self { cands := cands + [EventBound(window[i])]; }
      i := i + 1;
    }
    assert window[..i] == window;
  }

  /** `resolve_bindings` over one scope's ring, if there is one. */
  method ResolveBindings(img: Image, rule: Rule, anchor: Event, ring: Option<RingBuffer>, trace: seq<Step>) returns (bindings: seq<Binding>)
    requires ring.Some? ==> ring.value.Valid()
    ensures bindings == Bindings(img, rule, anchor, if ring.Some? then ring.value.buf else [], trace)
    ensures AreBindings(img, rule, anchor, if ring.Some? then ring.value.buf else [], trace, bindings)
  {
    hide AreBindings;
    BindingsAreBindings(img, rule, anchor, if ring.Some? then ring.value.buf else [], trace);
    ghost var buf := if ring.Some? then ring.value.buf else [];
    bindings := [Present(EventBound(anchor))];
    var k := 0;
    while k < |rule.correlates|
      invariant 0 <= k <= |rule.correlates|
      invariant bindings == Resolve(img, rule, k, anchor, buf, trace)
    {
      var c := rule.correlates[k];
      var b := Absent;
      if c.window.Calculable? {
        var cands := [];
        if c.source.FromEvents? {
          var window := [];
          if ring.Some? { window := ring.value.ScanWindow(anchor.time, c.window.back, c.window.forward); }
          cands := EventCandidates(window, c.source.kind, anchor.id);
        } else {
          cands := img.nodes(trace, rule, k, anchor);
        }
        b := ScanCandidates(img, rule, k, bindings, cands, c.minMatch);
      }
      bindings := bindings + [b];
      k := k + 1;
    }
  }
}
