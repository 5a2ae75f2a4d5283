/** The in-memory topology oracle of crates/airpulse_dsl-evaluator/src/topology.rs. */
module Topology {
  import opened Digraph
  import opened Kleene

  type Scope = nat

  /** `down -> direct upstream neighbours`. */
  type Upstream = Graph

  datatype Diagnostic = UpstreamCycle(from: Scope) | HopBoundExceeded(from: Scope)

  // ----- the search as a function -----

  /** What the search has learned so far. */
  datatype Search = Search(done: set<Scope>, cycle: bool, overrun: bool, found: bool)

  const FRESH := Search({}, false, false, false)

  predicate IsLeast(s: set<nat>, m: nat) { m in s && forall x :: x in s ==> m <= x }

  lemma {:induction false} LeastExists(s: set<nat>)
    requires s != {}
    ensures exists m :: IsLeast(s, m)
  {
    var x :| x in s;
    var rest := s - {x};
    if rest == {} {
      assert s == {x};
      assert IsLeast(s, x);
    } else {
      LeastExists(rest);
      var m :| IsLeast(rest, m);
      assert s == rest + {x};
      assert IsLeast(s, if x < m then x else m);
    }
  }

  /** The iteration order of an ordered set. */
  function Ascending(s: set<nat>): (q: seq<nat>)
    ensures forall x :: x in q <==> x in s
  {
    if s == {} then []
    else
      LeastExists(s);
      var m :| IsLeast(s, m);
      [m] + Ascending(s - {m})
  }

  function SearchFrom(g: Upstream, target: Scope, node: Scope, hops: nat, path: set<Scope>, s: Search): Search
    decreases hops, 2
  {
    var after := SearchNexts(g, target, Ascending(Succ(g, node)), hops, path + {node}, s);
    after.(done := after.done + {node})
  }

  function SearchNexts(g: Upstream, target: Scope, nexts: seq<Scope>, hops: nat, path: set<Scope>, s: Search): Search
    decreases hops, 1, |nexts|
  {
    if nexts == [] then s
    else SearchNexts(g, target, nexts[1..], hops, path, SearchNext(g, target, nexts[0], hops, path, s))
  }

  function SearchNext(g: Upstream, target: Scope, next: Scope, hops: nat, path: set<Scope>, s: Search): Search
    decreases hops, 0
  {
    var seen := if next == target then s.(found := true) else s;
    if next in path then seen.(cycle := true)
    else if next in seen.done then seen
    else if hops == 0 then seen.(overrun := true)
    else SearchFrom(g, target, next, hops - 1, path, seen)
  }

  // ----- the search -----

  /** `onPath` holds the distinct scopes of `path`, a chain from the start. */
  ghost predicate PathIs(g: Upstream, start: Scope, onPath: set<Scope>, path: seq<Scope>)
  {
    && onPath == Elements(path) && Distinct(path)
    && (path != [] ==> Chain(g, path) && path[0] == start)
  }

  /** More distinct scopes in a row than the hop bound allows. */
  ghost predicate LongChain(g: Upstream, start: Scope, maxHops: nat, p: seq<Scope>)
  {
    Chain(g, p) && p[0] == start && Distinct(p) && |p| == maxHops + 2
  }

  /** At most `maxHops` edges up from `start`. */
  ghost predicate Near(g: Upstream, start: Scope, maxHops: nat, n: Scope)
  {
    n == start || exists p :: ChainTo(g, start, n, p) && |p| <= maxHops + 1
  }

  /** `dfs` with its path and done sets and its outcome flags. */
  class UpstreamSearch {
    const g: Upstream
    const start: Scope
    const target: Scope
    const maxHops: nat
    var onPath: set<Scope>
    var done: set<Scope>
    var cycle: bool
    var overrun: bool
    var found: bool
    // Why the flags hold, and the order in which scopes were finished.
    ghost var foundChain: seq<Scope>
    ghost var cycleChain: seq<Scope>
    ghost var overrunChain: seq<Scope>
    ghost var order: seq<Scope>

    constructor (g: Upstream, start: Scope, target: Scope, maxHops: nat)
      ensures this.g == g && this.start == start && this.target == target && this.maxHops == maxHops
      ensures onPath == {} && done == {} && !cycle && !overrun && !found && order == []
    {
      this.g, this.start, this.target, this.maxHops := g, start, target, maxHops;
      onPath, done, cycle, overrun, found, order := {}, {}, false, false, false, [];
    }

    ghost function Learned(): Search
      reads this
    {
      Search(done, cycle, overrun, found)
    }

    /** Flags are justified. */
    ghost predicate Sound()
      reads this
    {
      && (found ==> ChainTo(g, start, target, foundChain) && |foundChain| <= maxHops + 2)
      && (cycle ==> Returns(g, start, cycleChain))
      && (overrun ==> LongChain(g, start, maxHops, overrunChain))
    }

    /** Finished scopes are near, and fully explored unless the hop bound cut the search. */
    ghost predicate Complete()
      reads this
    {
      && done !! onPath
      && (forall n :: n in done ==> n in order && Near(g, start, maxHops, n))
      && (!overrun ==> forall n :: n in done ==> Succ(g, n) <= done + onPath)
      && (forall n :: n in done && target in Succ(g, n) ==> found)
      && (!overrun && !cycle ==> Ordered(g, order) && forall n :: n in order ==> n in done)
    }

    method Dfs(node: Scope, hops: nat, ghost path: seq<Scope>)
      requires Sound() && Complete() && PathIs(g, start, onPath, path)
      requires node !in onPath && node !in done
      requires Chain(g, path + [node]) && (path + [node])[0] == start
      requires |path| + hops == maxHops
      modifies this
      ensures Learned() == SearchFrom(g, target, node, hops, old(onPath), old(Learned()))
      ensures Sound() && Complete() && onPath == old(onPath)
      ensures node in done && old(done) <= done
      ensures (old(cycle) ==> cycle) && (old(overrun) ==> overrun) && (old(found) ==> found)
      decreases hops, 2
    {
      hide Sound, Complete, UpstreamSearch.Seen, Chain, PathIs, Elements, Succ, SearchNext;
      ghost var path' := path + [node];
      Enter(node, path);
      var nexts := Ascending(Succ(g, node));
      var i := 0;
      assert Elements(nexts[..0]) == {};
      while i < |nexts|
        invariant 0 <= i <= |nexts|
        invariant SearchNexts(g, target, nexts, hops, onPath, old(Learned())) == SearchNexts(g, target, nexts[i..], hops, onPath, Learned())
        invariant Sound() && Complete() && onPath == old(onPath) + {node} && PathIs(g, start, onPath, path')
        invariant Seen(node, Elements(nexts[..i]))
        invariant old(done) <= done && (old(cycle) ==> cycle) && (old(overrun) ==> overrun) && (old(found) ==> found)
      {
        assert nexts[i] in nexts && nexts[i..][1..] == nexts[i + 1..];
        VisitNeighbour(nexts[i], hops, path', Elements(nexts[..i]));
        assert nexts[..i + 1] == nexts[..i] + [nexts[i]];
        assert Elements(nexts[..i + 1]) == Elements(nexts[..i]) + {nexts[i]};
        i := i + 1;
      }
      assert nexts[..i] == nexts && Elements(nexts) == Succ(g, node);
      Leave(node, path');
      assert onPath == old(onPath);
    }

    method Enter(node: Scope, ghost path: seq<Scope>)
      requires Sound() && Complete() && PathIs(g, start, onPath, path)
      requires node !in onPath && node !in done
      requires Chain(g, path + [node]) && (path + [node])[0] == start
      modifies this`onPath
      ensures Sound() && Complete() && PathIs(g, start, onPath, path + [node]) && onPath == old(onPath) + {node}
      ensures Learned() == old(Learned()) && Seen(node, {})
    {
      hide Chain, Ordered, Near;
      onPath := onPath + {node};
      assert (path + [node])[..|path|] == path;
    }

    /** The neighbours `s` of `node` are accounted for. */
    ghost predicate Seen(node: Scope, s: set<Scope>)
      reads this
    {
      && (!overrun ==> s <= done + onPath)
      && (!overrun && !cycle ==> s <= done)
      && (target in s ==> found)
    }

    method VisitNeighbour(next: Scope, hops: nat, ghost path: seq<Scope>, ghost seen: set<Scope>)
      requires Sound() && Complete() && PathIs(g, start, onPath, path) && path != []
      requires next in Succ(g, path[|path| - 1]) && Seen(path[|path| - 1], seen)
      requires |path| + hops == maxHops + 1
      modifies this
      ensures Learned() == SearchNext(g, target, next, hops, onPath, old(Learned()))
      ensures Sound() && Complete() && onPath == old(onPath) && old(done) <= done
      ensures (old(cycle) ==> cycle) && (old(overrun) ==> overrun) && (old(found) ==> found)
      ensures Seen(path[|path| - 1], seen + {next})
      decreases hops, 1
    {
      hide Sound, Complete, Elements, Succ, Chain, SearchFrom, Distinct;
      ghost var node := path[|path| - 1];
      if next == target { MarkFound(path, next); }
      if next in onPath {
        MarkCycle(path, next);
      } else if next in done {
      } else if hops == 0 {
        MarkOverrun(path, next);
      } else {
        PushChain(g, path, next);
        Dfs(next, hops - 1, path);
      }
    }

    method MarkFound(ghost path: seq<Scope>, next: Scope)
      requires Sound() && Complete() && PathIs(g, start, onPath, path) && path != []
      requires next in Succ(g, path[|path| - 1]) && next == target && |path| <= maxHops + 1
      modifies this`found, this`foundChain
      ensures Sound() && Complete() && found
    {
      hide Succ, Near, Ordered, Distinct, Elements;
      PushChain(g, path, next);
      found := true;
      foundChain := path + [next];
    }

    method MarkCycle(ghost path: seq<Scope>, next: Scope)
      requires Sound() && Complete() && PathIs(g, start, onPath, path) && path != []
      requires next in Succ(g, path[|path| - 1]) && next in onPath
      modifies this`cycle, this`cycleChain
      ensures Sound() && Complete() && cycle
    {
      hide Succ, Near, Ordered, Distinct, Chain, Returns;
      ReturnHere(g, path, next);
      cycle := true;
      cycleChain := path + [next];
    }

    method MarkOverrun(ghost path: seq<Scope>, next: Scope)
      requires Sound() && Complete() && PathIs(g, start, onPath, path) && path != []
      requires next in Succ(g, path[|path| - 1]) && next !in onPath && |path| == maxHops + 1
      modifies this`overrun, this`overrunChain
      ensures Sound() && Complete() && overrun
    {
      hide Succ, Near, Ordered, Chain;
      PushChain(g, path, next);
      overrun := true;
      overrunChain := path + [next];
    }

    /** The end of a node's loop: off the path, and done. */
    method Leave(node: Scope, ghost path: seq<Scope>)
      requires Sound() && Complete() && node in onPath && Seen(node, Succ(g, node))
      requires PathIs(g, start, onPath, path) && path != [] && path[|path| - 1] == node && |path| <= maxHops + 1
      modifies this
      ensures Sound() && Complete() && onPath == old(onPath) - {node} && done == old(done) + {node}
      ensures cycle == old(cycle) && overrun == old(overrun) && found == old(found)
    {
      hide Elements, Chain, LongChain, Returns;
      PathIsNear(g, start, onPath, path, maxHops);
      onPath := onPath - {node};
      done := done + {node};
      if !overrun && !cycle { OrderedSnoc(g, order, node); }
      order := order + [node];
    }
  }

  lemma PathIsNear(g: Upstream, start: Scope, onPath: set<Scope>, path: seq<Scope>, maxHops: nat)
    requires PathIs(g, start, onPath, path) && path != [] && |path| <= maxHops + 1
    ensures Near(g, start, maxHops, path[|path| - 1])
  {
    if |path| >= 2 { assert ChainTo(g, start, path[|path| - 1], path); }
  }

  /** A search that is over: without overrun its flags are exact; and it did overrun if some
      scope lies beyond the hop bound. */
  lemma {:induction false} ExhaustiveIsExact(search: UpstreamSearch)
    requires search.Sound() && search.Complete() && search.onPath == {} && search.start in search.done
    ensures !search.overrun ==>
              && (search.found <==> Reaches(search.g, search.start, search.target))
              && (search.cycle <==> RegionHasCycle(search.g, search.start))
    ensures forall n :: Reaches(search.g, search.start, n) && !Near(search.g, search.start, search.maxHops, n) ==> search.overrun
  {
    hide Near, Ordered;
    if !search.overrun {
      assert ClosedUp(search.g, search.done);
      if Reaches(search.g, search.start, search.target) {
        ClosedFindsAll(search.g, search.done, search.start, search.target);
      }
      if !search.cycle {
        OrderedHasNoReturn(search.g, search.order, search.done, search.start);
      }
      forall n | Reaches(search.g, search.start, n) ensures Near(search.g, search.start, search.maxHops, n) {
        var p :| ChainTo(search.g, search.start, n, p);
        ChainStays(search.g, search.done, p, |p| - 1);
      }
    }
  }

  class StaticTopology {
    var known: set<Scope>
    // same_session, same_client, same_port, same_ap, same_vlan: normalized pairs.
    var relations: seq<set<(Scope, Scope)>>
    var upstream: Upstream
    const maxHops: nat
    var diagnostics: seq<Diagnostic>

    ghost predicate Valid()
      reads this
    {
      && |relations| == 5 && maxHops >= 1
      && (forall r, a, b :: 0 <= r < 5 && (a, b) in relations[r] ==> a <= b && a in known && b in known)
      && (forall n :: n in upstream ==> n in known && upstream[n] <= known)
    }

    ghost predicate Related(rel: nat, a: Scope, b: Scope)
      requires rel < |relations|
      reads this`relations
    {
      Norm(a, b) in relations[rel]
    }

    constructor (maxHops: nat)
      ensures Valid() && known == {} && upstream == map[] && diagnostics == []
      ensures forall rel, a, b :: 0 <= rel < 5 ==> !Related(rel, a, b)
      ensures this.maxHops == if maxHops == 0 then 1 else maxHops
    {
      known, relations, upstream, diagnostics := {}, [{}, {}, {}, {}, {}], map[], [];
      this.maxHops := if maxHops == 0 then 1 else maxHops;
    }

    method Declare(scope: Scope)
      requires Valid()
      modifies this`known
      ensures Valid() && known == old(known) + {scope}
    {
      known := known + {scope};
    }

    method Relate(rel: nat, a: Scope, b: Scope)
      requires Valid() && rel < 5
      modifies this`known, this`relations
      ensures Valid() && known == old(known) + {a, b}
      // Exactly that pair becomes related, in both directions.
      ensures forall r: nat, x, y :: r < 5 ==> (Related(r, x, y) <==> old(Related(r, x, y)) || (r == rel && ((x == a && y == b) || (x == b && y == a))))
    {
      known := known + {a, b};
      relations := relations[rel := relations[rel] + {Norm(a, b)}];
    }

    method UpstreamEdge(up: Scope, down: Scope)
      requires Valid()
      modifies this`known, this`upstream
      ensures Valid() && known == old(known) + {up, down}
      ensures upstream == Added(old(upstream), up, down)
      ensures forall n :: Succ(upstream, n) == Succ(old(upstream), n) + (if n == down then {up} else {})
    {
      known := known + {up, down};
      upstream := Added(upstream, up, down);
    }

    /** `same_*`: reflexive, symmetric, and Unknown only about scopes never declared. */
    method Query(rel: nat, a: Scope, b: Scope) returns (r: T3)
      requires Valid() && rel < 5
      ensures r.True? <==> a == b || Related(rel, a, b)
      ensures r.Unknown? <==> a != b && !(a in known && b in known)
    {
      if a == b || Norm(a, b) in relations[rel] {
        r := True;
      } else if a in known && b in known {
        r := False;
      } else {
        r := Unknown;
      }
    }

    /** A full search. */
    method Explore(up: Scope, down: Scope) returns (search: UpstreamSearch)
      requires Valid()
      ensures fresh(search) && search.g == upstream && search.start == down && search.target == up && search.maxHops == maxHops
      ensures search.Sound() && search.Complete() && search.onPath == {} && down in search.done
      ensures search.Learned() == SearchFrom(upstream, up, down, maxHops, {}, FRESH)
    {
      hide SearchFrom;
      search := new UpstreamSearch(upstream, down, up, maxHops);
      assert [] + [down] == [down];
      search.Dfs(down, maxHops, []);
    }

    /** `upstream_of`. `said` is what it adds to the diagnostics. */
    method UpstreamOf(up: Scope, down: Scope) returns (r: T3, ghost said: seq<Diagnostic>)
      requires Valid()
      modifies this`diagnostics
      ensures Valid() && diagnostics == old(diagnostics) + said
      ensures r.Unknown? <==> up != down && !(up in known && down in known)
      ensures up == down ==> r == False
      ensures up == down || r.Unknown? ==> said == []
      ensures up != down && !r.Unknown? ==> Tells(upstream, up, down, maxHops, r, said)
      ensures up != down && !r.Unknown? ==>
                var s := SearchFrom(upstream, up, down, maxHops, {}, FRESH); r == Lift(s.found && !s.cycle)
    {
      hide Tells;
      said := [];
      assert diagnostics == old(diagnostics) + said;
      if up == down { return False, said; }
      if up !in known || down !in known { return Unknown, said; }
      var search := Explore(up, down);
      ExhaustiveIsExact(search);
      Conclusion(search);
      if search.cycle {
        said := [UpstreamCycle(down)];
        diagnostics := diagnostics + [UpstreamCycle(down)];
        return False, said;
      }
      if search.overrun && !search.found {
        said := [HopBoundExceeded(down)];
        diagnostics := diagnostics + [HopBoundExceeded(down)];
        return False, said;
      }
      r := Lift(search.found);
    }
  }

  /** What the answer and the diagnostic of a query about two known scopes tell. Silence:
      the answer is exactly reachability. A cycle diagnostic: there is a cycle in the region. A
      hop diagnostic: there is a chain of more distinct scopes than the bound allows. True: a
      chain of at most `maxHops + 1` edges. Conversely, without such a long chain answer and
      diagnostics are exact; if some scope lies beyond the bound, False is not silent; and a
      direct neighbour is found unless there is a cycle. */
  ghost predicate Tells(g: Upstream, up: Scope, down: Scope, maxHops: nat, r: T3, said: seq<Diagnostic>)
  {
    && (said == [] || said == [UpstreamCycle(down)] || said == [HopBoundExceeded(down)])
    && (said == [] ==> r == Lift(Reaches(g, down, up)))
    && (said == [UpstreamCycle(down)] ==> r == False && RegionHasCycle(g, down))
    && (said == [HopBoundExceeded(down)] ==> r == False && exists p :: LongChain(g, down, maxHops, p))
    && (r == True ==> exists p :: ChainTo(g, down, up, p) && |p| <= maxHops + 2)
    && ((forall p :: !LongChain(g, down, maxHops, p)) ==>
          && r == Lift(Reaches(g, down, up) && !RegionHasCycle(g, down))
          && said == if RegionHasCycle(g, down) then [UpstreamCycle(down)] else [])
    && ((exists n :: Reaches(g, down, n) && !Near(g, down, maxHops, n)) ==> r == True || said != [])
    && (up in Succ(g, down) ==> r == True || said == [UpstreamCycle(down)])
  }

  lemma {:induction false} Conclusion(search: UpstreamSearch)
    requires search.Sound() && search.Complete() && search.start in search.done
    requires !search.overrun ==>
               && (search.found <==> Reaches(search.g, search.start, search.target))
               && (search.cycle <==> RegionHasCycle(search.g, search.start))
    requires forall n :: Reaches(search.g, search.start, n) && !Near(search.g, search.start, search.maxHops, n) ==> search.overrun
    ensures var s, down := search, search.start;
            if s.cycle then Tells(s.g, s.target, down, s.maxHops, False, [UpstreamCycle(down)])
            else if s.overrun && !s.found then Tells(s.g, s.target, down, s.maxHops, False, [HopBoundExceeded(down)])
            else Tells(s.g, s.target, down, s.maxHops, Lift(s.found), [])
  {
    hide Near, Ordered, Succ, Chain, Distinct, Returns, ChainTo, LongChain;
    assert search.cycle ==> Returns(search.g, search.start, search.cycleChain);
    assert search.overrun ==> LongChain(search.g, search.start, search.maxHops, search.overrunChain);
    assert search.found ==> ChainTo(search.g, search.start, search.target, search.foundChain);
    assert search.target in Succ(search.g, search.start) ==> search.found;
  }

  function Added(u: Upstream, up: Scope, down: Scope): Upstream { u[down := Succ(u, down) + {up}] }

  function Norm(a: Scope, b: Scope): (Scope, Scope) { if a <= b then (a, b) else (b, a) }

  /** The hop bound does hide real answers: with a bound of 1, a chain of three edges is
      not found although it is there. */
  method HopBoundHides() returns (t: StaticTopology, r: T3)
    ensures r == False && Reaches(t.upstream, 0, 3)
  {
    t := new StaticTopology(1);
    t.UpstreamEdge(1, 0);
    t.UpstreamEdge(2, 1);
    t.UpstreamEdge(3, 2);
    var g := t.upstream;
    assert ChainTo(g, 0, 3, [0, 1, 2, 3]);
    forall p | ChainTo(g, 0, 3, p) ensures |p| > 3 {
      assert p[1] in Succ(g, p[0]);
      if |p| >= 3 { assert p[2] in Succ(g, p[1]); }
    }
    ghost var said;
    r, said := t.UpstreamOf(3, 0);
  }

  lemma AscendingTwo(a: nat, b: nat)
    requires a < b
    ensures Ascending({a, b}) == [a, b] && Ascending({b}) == [b]
  {
    AscendingOne(b);
    var both: set<nat> := {a, b};
    LeastExists(both);
    var m: nat :| IsLeast(both, m);
    assert a in both && m <= a && m in both;
    assert both - {a} == {b};
    assert Ascending({a, b}) == [a] + Ascending({b});
  }

  lemma AscendingOne(b: nat)
    ensures Ascending({b}) == [b]
  {
    LeastExists({b});
    assert {b} - {b} == {};
    assert Ascending({b}) == [b] + Ascending({});
  }

  /** 0 has upstream neighbours 1 and 2, and 1 -> 2 -> 3 -> 4. */
  const SHORTCUT: Upstream := map[0 := {1, 2}, 1 := {2}, 2 := {3}, 3 := {4}]

  /** Scope 2 is first met at the end of its hops and then not visited again, although 0 has
      it as a direct neighbour. */
  lemma ShortcutIsMissed()
    ensures var s := SearchFrom(SHORTCUT, 4, 0, 2, {}, FRESH); !s.found && s.overrun
    ensures ChainTo(SHORTCUT, 0, 4, [0, 2, 3, 4])
  {
    var g := SHORTCUT;
    AscendingTwo(1, 2);
    AscendingOne(2);
    AscendingOne(3);
    var cut := FRESH.(overrun := true);
    assert SearchNext(g, 4, 3, 0, {0, 1, 2}, FRESH) == cut;
    OneNext(g, 4, 3, 0, {0, 1, 2}, FRESH);
    assert {0, 1} + {2} == {0, 1, 2};
    var two := cut.(done := {2});
    assert SearchFrom(g, 4, 2, 0, {0, 1}, FRESH) == two;
    assert SearchNext(g, 4, 2, 1, {0, 1}, FRESH) == two;
    OneNext(g, 4, 2, 1, {0, 1}, FRESH);
    assert {0} + {1} == {0, 1};
    var one := cut.(done := {2, 1});
    assert SearchFrom(g, 4, 1, 1, {0}, FRESH) == one;
    assert SearchNext(g, 4, 1, 2, {0}, FRESH) == one;
    assert SearchNext(g, 4, 2, 2, {0}, one) == one;
    OneNext(g, 4, 2, 2, {0}, one);
    assert [1, 2][1..] == [2];
    assert SearchNexts(g, 4, [1, 2], 2, {0}, FRESH) == one;
    assert {} + {0} == {0};
  }

  lemma OneNext(g: Upstream, target: Scope, next: Scope, hops: nat, path: set<Scope>, s: Search)
    ensures SearchNexts(g, target, [next], hops, path, s) == SearchNext(g, target, next, hops, path, s)
  {
    assert [next][1..] == [];
    assert SearchNexts(g, target, [], hops, path, SearchNext(g, target, next, hops, path, s)) == SearchNext(g, target, next, hops, path, s);
  }

  /** So the bound can hide even an upstream scope within it: three edges away with a bound of
      `max_hops + 1 = 3`. */
  method HopBoundMissesNear() returns (t: StaticTopology, r: T3)
    ensures r == False && t.maxHops == 2 && ChainTo(t.upstream, 0, 4, [0, 2, 3, 4])
  {
    hide ChainTo, SearchFrom, Tells;
    t := BuildShortcut();
    ShortcutIsMissed();
    ghost var said;
    r, said := t.UpstreamOf(4, 0);
  }

  method BuildShortcut() returns (t: StaticTopology)
    ensures fresh(t) && t.Valid() && t.upstream == SHORTCUT && t.maxHops == 2 && {0, 4} <= t.known
  {
    hide Added;
    t := new StaticTopology(2);
    t.UpstreamEdge(1, 0);
    t.UpstreamEdge(2, 0);
    t.UpstreamEdge(2, 1);
    t.UpstreamEdge(3, 2);
    t.UpstreamEdge(4, 3);
    ShortcutEdges();
  }

  lemma ShortcutEdges()
    ensures Added(Added(Added(Added(Added(map[], 1, 0), 2, 0), 2, 1), 3, 2), 4, 3) == SHORTCUT
  {
    hide Added;
    var m0: Upstream := map[];
    var m1: Upstream := map[0 := {1}];
    var m2: Upstream := map[0 := {1, 2}];
    var m3: Upstream := map[0 := {1, 2}, 1 := {2}];
    var m4: Upstream := map[0 := {1, 2}, 1 := {2}, 2 := {3}];
    AddedIs(m0, 1, 0, {1}, m1);
    AddedIs(m1, 2, 0, {1, 2}, m2);
    AddedIs(m2, 2, 1, {2}, m3);
    AddedIs(m3, 3, 2, {3}, m4);
    AddedIs(m4, 4, 3, {4}, SHORTCUT);
  }

  lemma AddedIs(u: Upstream, up: Scope, down: Scope, nexts: set<Scope>, u': Upstream)
    requires Succ(u, down) + {up} == nexts && u' == u[down := nexts]
    ensures Added(u, up, down) == u'
  {
  }
}
