/** Finite directed graphs: chains, reachability and finishing orders. */
module Digraph {

  type Graph = map<nat, set<nat>>

  function Succ(g: Graph, n: nat): set<nat> { if n in g then g[n] else {} }

  /** A chain of nodes, each a successor of the one before. */
  ghost predicate Chain(g: Graph, p: seq<nat>)
  {
    p != [] && forall i :: 0 <= i < |p| - 1 ==> p[i + 1] in Succ(g, p[i])
  }

  ghost predicate ChainTo(g: Graph, from: nat, to: nat, p: seq<nat>)
  {
    Chain(g, p) && |p| >= 2 && p[0] == from && p[|p| - 1] == to
  }

  /** `to` is reached from `from` over one edge or more. */
  ghost predicate Reaches(g: Graph, from: nat, to: nat) { exists p :: ChainTo(g, from, to, p) }

  /** A chain from `from` that comes back to a node it has passed. */
  ghost predicate Returns(g: Graph, from: nat, p: seq<nat>)
  {
    Chain(g, p) && p[0] == from && exists i :: 0 <= i < |p| - 1 && p[i] == p[|p| - 1]
  }

  ghost predicate RegionHasCycle(g: Graph, from: nat) { exists p :: Returns(g, from, p) }

  /** Every successor of a listed node is listed before it. */
  ghost predicate Ordered(g: Graph, order: seq<nat>)
  {
    forall j, u :: 0 <= j < |order| && u in Succ(g, order[j]) ==> u in order[..j]
  }

  ghost predicate ClosedUp(g: Graph, s: set<nat>) { forall n :: n in s ==> Succ(g, n) <= s }

  lemma {:induction false} ChainStays(g: Graph, s: set<nat>, p: seq<nat>, i: nat)
    requires ClosedUp(g, s) && Chain(g, p) && p[0] in s && i < |p|
    ensures p[i] in s
    decreases i
  {
    if i > 0 { ChainStays(g, s, p, i - 1); }
  }

  lemma {:induction false} ChainDescends(g: Graph, order: seq<nat>, p: seq<nat>, j: nat, i: nat)
    requires Ordered(g, order) && Chain(g, p) && j < |order| && order[j] == p[0] && 0 < i < |p|
    ensures p[i] in order[..j]
    decreases i
  {
    var u := p[1];
    assert u in Succ(g, p[0]);
    assert u in order[..j];
    if i > 1 {
      var k :| 0 <= k < j && order[k] == u;
      assert p[1..][i - 1] == p[i];
      ChainDescends(g, order, p[1..], k, i - 1);
    }
  }

  lemma {:induction false} FirstIndex(order: seq<nat>, x: nat) returns (j: nat)
    requires x in order
    ensures j < |order| && order[j] == x && x !in order[..j]
  {
    if order[0] == x {
      j := 0;
    } else {
      var k := FirstIndex(order[1..], x);
      j := k + 1;
      assert order[..j] == [order[0]] + order[1..][..k];
    }
  }

  lemma OrderedHasNoReturn(g: Graph, order: seq<nat>, s: set<nat>, from: nat)
    requires Ordered(g, order) && ClosedUp(g, s) && from in s
    requires forall n :: n in s ==> n in order
    ensures !RegionHasCycle(g, from)
  {
    if p :| Returns(g, from, p) {
      var i :| 0 <= i < |p| - 1 && p[i] == p[|p| - 1];
      ChainStays(g, s, p, i);
      var j := FirstIndex(order, p[i]);
      var q := p[i..];
      assert q[|q| - 1] == p[i];
      ChainDescends(g, order, q, j, |q| - 1);
    }
  }

  lemma ClosedFindsAll(g: Graph, s: set<nat>, from: nat, to: nat)
    requires ClosedUp(g, s) && from in s && Reaches(g, from, to)
    ensures exists n :: n in s && to in Succ(g, n)
  {
    var p :| ChainTo(g, from, to, p);
    ChainStays(g, s, p, |p| - 2);
    assert p[|p| - 2] in s && to in Succ(g, p[|p| - 2]);
  }

  // ----- sets of distinct nodes -----

  ghost predicate Distinct(p: seq<nat>) { forall i, j :: 0 <= i < j < |p| ==> p[i] != p[j] }

  ghost function Elements(p: seq<nat>): (s: set<nat>)
    ensures forall x :: x in s <==> x in p
  {
    if p == [] then {} else Elements(p[..|p| - 1]) + {p[|p| - 1]}
  }

  lemma {:induction false} DistinctCard(p: seq<nat>)
    requires Distinct(p)
    ensures |Elements(p)| == |p|
  {
    if p != [] {
      var q, last := p[..|p| - 1], p[|p| - 1];
      DistinctCard(q);
      assert last !in q;
    }
  }

  lemma {:induction false} SubsetCard(a: set<nat>, b: set<nat>)
    requires a <= b
    ensures |a| <= |b|
    decreases a
  {
    if a != {} {
      var x :| x in a;
      SubsetCard(a - {x}, b - {x});
    }
  }

  lemma PushChain(g: Graph, p: seq<nat>, next: nat)
    requires Chain(g, p) && next in Succ(g, p[|p| - 1])
    ensures Chain(g, p + [next]) && (p + [next])[0] == p[0]
  {
    var q := p + [next];
    forall i | 0 <= i < |q| - 1 ensures q[i + 1] in Succ(g, q[i]) {
      if i < |p| - 1 { assert p[i + 1] in Succ(g, p[i]); }
    }
  }

  lemma PrefixReaches(g: Graph, p: seq<nat>, i: nat)
    requires Chain(g, p) && 0 < i < |p|
    ensures Reaches(g, p[0], p[i])
  {
    assert ChainTo(g, p[0], p[i], p[..i + 1]);
  }

  lemma ReturnHere(g: Graph, p: seq<nat>, next: nat)
    requires Chain(g, p) && next in Succ(g, p[|p| - 1]) && next in p
    ensures Returns(g, p[0], p + [next])
  {
    PushChain(g, p, next);
    var i :| 0 <= i < |p| && p[i] == next;
    assert (p + [next])[i] == next;
  }

  lemma OrderedSnoc(g: Graph, order: seq<nat>, node: nat)
    requires Ordered(g, order) && forall u :: u in Succ(g, node) ==> u in order
    ensures Ordered(g, order + [node])
  {
    var q := order + [node];
    forall j, u | 0 <= j < |q| && u in Succ(g, q[j]) ensures u in q[..j] {
      if j < |order| { assert q[..j] == order[..j]; } else { assert q[..j] == order; }
    }
  }
}
