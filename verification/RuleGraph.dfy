/** The rule-dependency graph of crates/airpulse_dsl-verify/src/lib.rs and its three-colour
    cycle search. */
module RuleGraph {

  import opened Digraph

  /** Edge lists, one per rule. */
  type Edges = seq<seq<nat>>

  predicate EdgesOk(edges: Edges)
  {
    forall i, k :: 0 <= i < |edges| && 0 <= k < |edges[i]| ==> edges[i][k] < |edges|
  }

  function GraphOf(edges: Edges): Graph
  {
    map i: nat | i < |edges| :: set x | x in edges[i]
  }

  /** A nonempty walk along the edges. */
  ghost predicate Walk(edges: Edges, p: seq<nat>)
  {
    Chain(GraphOf(edges), p) && forall i :: 0 <= i < |p| ==> p[i] < |edges|
  }

  ghost predicate HasDirectedCycle(edges: Edges)
  {
    exists n :: Reaches(GraphOf(edges), n, n)
  }

  /** A finishing order of all nodes rules cycles out. */
  lemma OrderedIsAcyclic(edges: Edges, order: seq<nat>)
    requires Ordered(GraphOf(edges), order)
    requires forall i :: 0 <= i < |edges| ==> i in order
    ensures !HasDirectedCycle(edges)
  {
    var g := GraphOf(edges);
    if n :| Reaches(g, n, n) {
      var p :| ChainTo(g, n, n, p);
      assert p[1] in Succ(g, n);
      var j := FirstIndex(order, n);
      ChainDescends(g, order, p, j, |p| - 1);
    }
  }

  // ----- the search -----

  ghost function Whites(state: seq<nat>): set<nat>
  {
    set i | 0 <= i < |state| && state[i] == 0
  }

  /** Grey nodes are the path to the current node, black ones the finished order. */
  ghost predicate Coloured(edges: Edges, state: seq<nat>, path: seq<nat>, order: seq<nat>)
  {
    && |state| == |edges|
    && (forall i :: 0 <= i < |state| ==> (state[i] == 1 <==> i in path))
    && (forall i :: 0 <= i < |state| ==> (state[i] == 2 <==> i in order))
    && (forall i :: 0 <= i < |state| ==> state[i] <= 2)
    && (forall x :: x in path || x in order ==> x < |edges|)
    && (path == [] || Walk(edges, path))
    && Ordered(GraphOf(edges), order)
  }

  lemma BackEdgeCloses(edges: Edges, path: seq<nat>, node: nat, next: nat)
    requires Walk(edges, path) && path[|path| - 1] == node && next in Succ(GraphOf(edges), node) && next in path
    ensures HasDirectedCycle(edges)
  {
    var g := GraphOf(edges);
    PushChain(g, path, next);
    var i :| 0 <= i < |path| && path[i] == next;
    assert ChainTo(g, next, next, (path + [next])[i..]);
    assert Reaches(g, next, next);
  }

  method DfsCycle(node: nat, edges: Edges, state: array<nat>, ghost path: seq<nat>, ghost order: seq<nat>)
    returns (found: bool, ghost order': seq<nat>)
    requires EdgesOk(edges) && node < |edges|
    requires Coloured(edges, state[..], path, order) && state[node] == 0
    requires Walk(edges, path + [node])
    modifies state
    ensures found ==> HasDirectedCycle(edges)
    ensures !found ==> Coloured(edges, state[..], path, order') && order <= order' && node in order'
    ensures !found ==> Whites(state[..]) <= Whites(old(state[..]))
    decreases Whites(state[..])
  {
    ghost var before := state[..];
    state[node] := 1;
    ghost var path' := path + [node];
    assert node in Whites(before) && node !in Whites(state[..]);
    order' := order;
    var k := 0;
    while k < |edges[node]|
      invariant 0 <= k <= |edges[node]|
      invariant Coloured(edges, state[..], path', order') && order <= order'
      invariant Whites(state[..]) <= Whites(before) - {node}
      invariant forall i :: 0 <= i < k ==> edges[node][i] in order'
    {
      var next := edges[node][k];
      if state[next] == 1 {
        BackEdgeCloses(edges, path', node, next);
        return true, order';
      }
      if state[next] == 0 {
        PushChain(GraphOf(edges), path', next);
        found, order' := DfsCycle(next, edges, state, path', order');
        if found { return; }
      }
      k := k + 1;
    }
    Blacken(edges, state[..], path, node, order');
    state[node] := 2;
    order' := order' + [node];
    found := false;
  }

  lemma Blacken(edges: Edges, state: seq<nat>, path: seq<nat>, node: nat, order: seq<nat>)
    requires node < |edges| && Coloured(edges, state, path + [node], order) && node !in path && node !in order
    requires Walk(edges, path + [node])
    requires forall i :: 0 <= i < |edges[node]| ==> edges[node][i] in order
    ensures Coloured(edges, state[node := 2], path, order + [node])
    ensures Whites(state[node := 2]) == Whites(state)
  {
    OrderedSnoc(GraphOf(edges), order, node);
    var full := path + [node];
    forall i | 0 <= i < |path| ensures path[i] == full[i] {}
    forall i | 0 <= i < |path| - 1 ensures path[i + 1] in Succ(GraphOf(edges), path[i]) {
      assert full[i + 1] in Succ(GraphOf(edges), full[i]);
    }
  }

  /** `has_cycle` answers exactly whether the graph has a directed cycle; the ghost result
      is a topological order when it has none. */
  method HasCycle(edges: Edges) returns (found: bool, ghost order: seq<nat>)
    requires EdgesOk(edges)
    ensures found <==> HasDirectedCycle(edges)
    ensures !found ==> Ordered(GraphOf(edges), order) && forall i :: 0 <= i < |edges| ==> i in order
  {
    var state := new nat[|edges|](_ => 0);
    order := [];
    var i := 0;
    while i < |edges|
      invariant 0 <= i <= |edges|
      invariant Coloured(edges, state[..], [], order)
      invariant forall k :: 0 <= k < i ==> k in order
    {
      if state[i] == 0 {
        assert [] + [i] == [i];
        found, order := DfsCycle(i, edges, state, [], order);
        if found { return; }
      }
      i := i + 1;
    }
    OrderedIsAcyclic(edges, order);
    found := false;
  }

  // ----- what acyclicity gives -----

  lemma AcyclicWalkIsDistinct(edges: Edges, p: seq<nat>)
    requires !HasDirectedCycle(edges) && Walk(edges, p)
    ensures Distinct(p)
  {
    forall i, j | 0 <= i < j < |p| ensures p[i] != p[j] {
      if p[i] == p[j] { CutCycle(edges, p, i, j); }
    }
  }

  lemma CutCycle(edges: Edges, p: seq<nat>, i: nat, j: nat)
    requires Walk(edges, p) && i < j < |p| && p[i] == p[j]
    ensures HasDirectedCycle(edges)
  {
    assert ChainTo(GraphOf(edges), p[i], p[i], p[i..j + 1]);
    assert Reaches(GraphOf(edges), p[i], p[i]);
  }

  lemma {:induction false} DistinctIsShort(p: seq<nat>, n: nat)
    requires Distinct(p) && forall i :: 0 <= i < |p| ==> p[i] < n
    ensures |p| <= n
  {
    DistinctCard(p);
    SubsetCard(Elements(p), Below(n));
  }

  ghost function Below(n: nat): (s: set<nat>)
    ensures |s| == n
    ensures forall x: nat :: x in s <==> x < n
  {
    if n == 0 then {} else Below(n - 1) + {n - 1}
  }

  /** In an accepted graph a walk never repeats a node, so it visits at most all of them. */
  lemma AcyclicWalkIsShort(edges: Edges, p: seq<nat>)
    requires !HasDirectedCycle(edges) && Walk(edges, p)
    ensures Distinct(p) && |p| <= |edges|
  {
    AcyclicWalkIsDistinct(edges, p);
    DistinctIsShort(p, |edges|);
  }
}
