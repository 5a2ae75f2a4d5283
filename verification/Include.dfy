/** `include` expansion of crates/airpulse_dsl-syntax/src/include.rs over a finite map of
    canonical paths to parsed files. */
module Include {
  import opened Digraph

  type Path = nat

  datatype SourceFile = SourceFile(includes: seq<Path>, rules: seq<string>)

  type FileSystem = map<Path, SourceFile>

  datatype Error = CycleFound(chain: seq<Path>) | Unreadable(path: Path)

  datatype Expanded = Expanded(imported: seq<string>, emitOwn: bool)

  datatype Result<T> = Ok(value: T) | Err(error: Error)

  datatype Loaded = Loaded(files: seq<Path>, rules: seq<string>)

  function IncludeGraph(fs: FileSystem): Graph
  {
    map p | p in fs :: set i | i in fs[p].includes
  }

  /** The rules of the listed files, in that order. */
  function Blocks(fs: FileSystem, order: seq<Path>): seq<string>
  {
    if order == [] then []
    else Blocks(fs, order[..|order| - 1])
         + if order[|order| - 1] in fs then fs[order[|order| - 1]].rules else []
  }

  lemma {:induction false} BlocksConcat(fs: FileSystem, a: seq<Path>, b: seq<Path>)
    ensures Blocks(fs, a + b) == Blocks(fs, a) + Blocks(fs, b)
  {
    if b == [] {
      assert a + b == a;
    } else {
      assert (a + b)[..|a + b| - 1] == a + b[..|b| - 1];
      BlocksConcat(fs, a, b[..|b| - 1]);
    }
  }

  lemma BlocksSnoc(fs: FileSystem, a: seq<Path>, p: Path)
    requires p in fs
    ensures Blocks(fs, a + [p]) == Blocks(fs, a) + fs[p].rules
  {
    assert (a + [p])[..|a|] == a;
  }

  /** The entry and everything it includes, directly or not. */
  ghost predicate InReach(fs: FileSystem, entry: Path, p: Path)
  {
    p == entry || Reaches(IncludeGraph(fs), entry, p)
  }

  /** The order in which files were finished. */
  ghost predicate Finished(fs: FileSystem, entry: Path, order: seq<Path>)
  {
    && Distinct(order)
    && Ordered(IncludeGraph(fs), order)
    && forall p :: p in order ==> p in fs && InReach(fs, entry, p)
  }

  /** The files being expanded, outermost first. */
  ghost predicate Active(fs: FileSystem, entry: Path, stack: seq<Path>)
  {
    && (stack != [] ==> Chain(IncludeGraph(fs), stack) && stack[0] == entry)
    && Distinct(stack)
    && forall p :: p in stack ==> p in fs
  }

  /** A cycle in reach of the entry that passes no file twice. */
  ghost predicate IsCycle(fs: FileSystem, entry: Path, chain: seq<Path>)
  {
    && Chain(IncludeGraph(fs), chain) && |chain| >= 2 && chain[0] == chain[|chain| - 1]
    && Distinct(chain[..|chain| - 1]) && InReach(fs, entry, chain[0])
  }

  // ----- how files are expanded -----

  /** A file met again after it was expanded, or expanded here with its include lines. */
  datatype Visit = Again(path: Path) | Expansion(path: Path, visits: seq<Visit>)

  /** The files a visit expands, each before those it includes. */
  function Opened(v: Visit): seq<Path>
    decreases v
  {
    if v.Again? then [] else [v.path] + OpenedBy(v.visits)
  }

  function OpenedBy(vs: seq<Visit>): seq<Path>
    decreases vs
  {
    if vs == [] then [] else OpenedBy(vs[..|vs| - 1]) + Opened(vs[|vs| - 1])
  }

  /** The same files, each behind those it includes. */
  function Closed(v: Visit): seq<Path>
    decreases v
  {
    if v.Again? then [] else ClosedBy(v.visits) + [v.path]
  }

  function ClosedBy(vs: seq<Visit>): seq<Path>
    decreases vs
  {
    if vs == [] then [] else ClosedBy(vs[..|vs| - 1]) + Closed(vs[|vs| - 1])
  }

  /** A visit after `before` was expanded: only a file not yet expanded is, and then by
      visiting its include lines from first to last. */
  ghost predicate Visits(fs: FileSystem, before: seq<Path>, v: Visit)
    decreases v
  {
    if v.path in before then v.Again? else v.Expansion? && v.path in fs && VisitsAll(fs, before, fs[v.path].includes, v.visits)
  }

  ghost predicate VisitsAll(fs: FileSystem, before: seq<Path>, includes: seq<Path>, vs: seq<Visit>)
    decreases vs
  {
    && |vs| == |includes|
    && (vs != [] ==>
          var n := |vs| - 1;
          VisitsAll(fs, before, includes[..n], vs[..n]) && vs[n].path == includes[n] && Visits(fs, before + ClosedBy(vs[..n]), vs[n]))
  }

  lemma VisitsNext(fs: FileSystem, before: seq<Path>, includes: seq<Path>, vs: seq<Visit>, v: Visit)
    requires VisitsAll(fs, before, includes, vs) && Visits(fs, before + ClosedBy(vs), v)
    ensures VisitsAll(fs, before, includes + [v.path], vs + [v])
    ensures ClosedBy(vs + [v]) == ClosedBy(vs) + Closed(v) && OpenedBy(vs + [v]) == OpenedBy(vs) + Opened(v)
  {
    assert (vs + [v])[..|vs|] == vs && (includes + [v.path])[..|vs|] == includes;
  }

  function Position(stack: seq<Path>, path: Path): (i: nat)
    requires path in stack
    ensures i < |stack| && stack[i] == path && path !in stack[..i]
  {
    if stack[0] == path then 0
    else
      var i := Position(stack[1..], path) + 1;
      assert stack[..i] == [stack[0]] + stack[1..][..i - 1];
      i
  }

  class Loader {
    const fs: FileSystem
    const entry: Path
    var stack: seq<Path>
    var files: seq<Path>
    var expandedOnce: set<Path>
    ghost var order: seq<Path>

    constructor (fs: FileSystem, entry: Path)
      ensures this.fs == fs && this.entry == entry
      ensures stack == [] && files == [] && expandedOnce == {} && order == []
    {
      this.fs, this.entry := fs, entry;
      stack, files, expandedOnce, order := [], [], {}, [];
    }

    ghost predicate Valid()
      reads this
    {
      && Active(fs, entry, stack)
      && Finished(fs, entry, order)
      && (forall p :: p in expandedOnce <==> p in order)
      && (forall p :: p in order ==> p !in stack)
      && Distinct(files)
      && (forall p :: p in files <==> p in order || p in stack)
      && (files != [] ==> files[0] == entry)
    }

    ghost predicate Justified(e: Error)
    {
      match e
      case CycleFound(chain) => IsCycle(fs, entry, chain) && RegionHasCycle(IncludeGraph(fs), entry)
      case Unreadable(p) => p !in fs && InReach(fs, entry, p)
    }

    /** `expand_file_from_include`. */
    method Expand(path: Path) returns (r: Result<Expanded>, ghost v: Visit)
      requires Valid()
      requires if stack == [] then path == entry && order == [] else path in Succ(IncludeGraph(fs), stack[|stack| - 1])
      modifies this
      ensures r.Ok? ==> Valid() && stack == old(stack) && v.path == path && Visits(fs, old(order), v) && r.value == Imports(fs, v)
      ensures r.Ok? ==> order == old(order) + Closed(v) && files == old(files) + Opened(v)
      ensures r.Err? ==> Justified(r.error)
      decreases fs.Keys - Elements(stack), 1
    {
      hide Ordered, Chain, Distinct, Elements, Active, InReach, IsCycle, RegionHasCycle, VisitsAll, ClosedBy, OpenedBy;
      v := Again(path);
      PathInReach(fs, entry, stack, path);
      if path !in fs { return Err(Unreadable(path)), v; }
      if path in stack {
        ReturnsToEntry(fs, entry, stack, path);
        return Err(CycleFound(stack[Position(stack, path)..] + [path])), v;
      }
      if path in expandedOnce { return Ok(Expanded([], false)), v; }
      r, v := Open(path);
    }

    /** A file met for the first time. */
    method Open(path: Path) returns (r: Result<Expanded>, ghost v: Visit)
      requires Valid() && path in fs && path !in stack && path !in order
      requires if stack == [] then path == entry && order == [] else path in Succ(IncludeGraph(fs), stack[|stack| - 1])
      modifies this
      ensures r.Ok? ==> Valid() && stack == old(stack) && v.path == path && Visits(fs, old(order), v) && r.value == Imports(fs, v)
      ensures r.Ok? ==> order == old(order) + Closed(v) && files == old(files) + Opened(v)
      ensures r.Err? ==> Justified(r.error)
      decreases fs.Keys - Elements(stack), 0
    {
      hide Ordered, Chain, Distinct, Elements, Active, InReach, IsCycle, RegionHasCycle, VisitsAll, ClosedBy, OpenedBy, Blocks, Loader.Valid;
      v := Again(path);
      StackShrinksRest(fs, stack, path);
      Push(path);
      var imported;
      ghost var visits;
      imported, visits := ExpandIncludes(fs[path].includes);
      if imported.Err? { return Err(imported.error), v; }
      AllVisited(fs, old(order), fs[path].includes, visits);
      Pop(path);
      v := Expansion(path, visits);
      r := Ok(Expanded(imported.value, true));
    }

    /** The loop over the `include` lines of the file on top of the stack. */
    method ExpandIncludes(includes: seq<Path>) returns (r: Result<seq<string>>, ghost visits: seq<Visit>)
      requires Valid() && stack != []
      requires forall i :: i in includes ==> i in Succ(IncludeGraph(fs), stack[|stack| - 1])
      modifies this
      ensures r.Ok? ==> Valid() && stack == old(stack) && VisitsAll(fs, old(order), includes, visits) && r.value == Blocks(fs, ClosedBy(visits))
      ensures r.Ok? ==> order == old(order) + ClosedBy(visits) && files == old(files) + OpenedBy(visits)
      ensures r.Err? ==> Justified(r.error)
      decreases fs.Keys - Elements(stack), 2
    {
      hide Elements, Succ, IncludeGraph, Blocks, Visits, Closed, Opened, Imports, Loader.Valid, VisitsAll, ClosedBy, OpenedBy, IsCycle, RegionHasCycle, InReach;
      var imported: seq<string> := [];
      visits := [];
      NothingVisited(fs, order);
      var i := 0;
      while i < |includes|
        invariant 0 <= i <= |includes|
        invariant Valid() && stack == old(stack) && imported == Blocks(fs, ClosedBy(visits))
        invariant VisitsAll(fs, old(order), includes[..i], visits)
        invariant order == old(order) + ClosedBy(visits) && files == old(files) + OpenedBy(visits)
      {
        var child;
        ghost var v;
        assert includes[i] in includes;
        child, v := Expand(includes[i]);
        if child.Err? { return Err(child.error), visits; }
        VisitsNext(fs, old(order), includes[..i], visits, v);
        ImportsNext(fs, old(order), visits, v);
        assert includes[..i + 1] == includes[..i] + [v.path];
        imported := imported + child.value.imported + (if child.value.emitOwn then fs[includes[i]].rules else []);
        visits := visits + [v];
        i := i + 1;
      }
      assert includes[..i] == includes;
      r := Ok(imported);
    }

    method Push(path: Path)
      requires Valid() && path in fs && path !in stack && path !in order
      requires if stack == [] then path == entry && order == [] else path in Succ(IncludeGraph(fs), stack[|stack| - 1])
      modifies this`stack, this`files
      ensures Valid() && stack == old(stack) + [path] && order == old(order) && files == old(files) + [path]
    {
      if stack != [] { PushChain(IncludeGraph(fs), stack, path); }
      stack := stack + [path];
      if path !in files { files := files + [path]; }
    }

    method Pop(path: Path)
      requires Valid() && stack != [] && stack[|stack| - 1] == path && path !in stack[..|stack| - 1]
      requires forall k :: 0 <= k < |fs[path].includes| ==> fs[path].includes[k] in order
      modifies this
      ensures Valid() && stack == old(stack[..|stack| - 1]) && order == old(order) + [path] && files == old(files)
    {
      PathInReach(fs, entry, stack[..|stack| - 1], path);
      OrderedSnoc(IncludeGraph(fs), order, path);
      stack := stack[..|stack| - 1];
      expandedOnce := expandedOnce + {path};
      order := order + [path];
    }
  }

  lemma PathInReach(fs: FileSystem, entry: Path, stack: seq<Path>, path: Path)
    requires Active(fs, entry, stack)
    requires if stack == [] then path == entry else path in Succ(IncludeGraph(fs), stack[|stack| - 1])
    ensures InReach(fs, entry, path)
  {
    if stack != [] {
      PushChain(IncludeGraph(fs), stack, path);
      assert ChainTo(IncludeGraph(fs), entry, path, stack + [path]);
    }
  }

  lemma ReturnsToEntry(fs: FileSystem, entry: Path, stack: seq<Path>, path: Path)
    requires Active(fs, entry, stack) && stack != [] && path in stack
    requires path in Succ(IncludeGraph(fs), stack[|stack| - 1])
    ensures RegionHasCycle(IncludeGraph(fs), entry)
    ensures IsCycle(fs, entry, stack[Position(stack, path)..] + [path])
  {
    hide Chain, Distinct, IncludeGraph, Succ, Reaches, RegionHasCycle;
    var i := Position(stack, path);
    assert stack[i..] + [path] == (stack + [path])[i..];
    ReturnsTo(IncludeGraph(fs), entry, stack, i, path);
  }

  lemma ReturnsTo(g: Graph, entry: Path, stack: seq<Path>, i: nat, path: Path)
    requires stack != [] && stack[0] == entry && Chain(g, stack) && Distinct(stack)
    requires i < |stack| && stack[i] == path && path in Succ(g, stack[|stack| - 1])
    ensures RegionHasCycle(g, entry)
    ensures var chain := (stack + [path])[i..];
            Chain(g, chain) && Distinct(chain[..|chain| - 1]) && (path == entry || Reaches(g, entry, path))
  {
    hide Chain, Distinct, Succ, Reaches;
    ReturnHere(g, stack, path);
    PushChain(g, stack, path);
    var all := stack + [path];
    assert all[..|stack|] == stack;
    TailIsCycle(g, all, i);
    if i > 0 { PrefixReaches(g, all, i); }
  }

  /** The part of a chain from the first visit to its last node on. */
  lemma TailIsCycle(g: Graph, all: seq<Path>, i: nat)
    requires Chain(g, all) && i < |all| - 1 && all[i] == all[|all| - 1] && Distinct(all[..|all| - 1])
    ensures Chain(g, all[i..]) && Distinct(all[i..][..|all| - i - 1])
  {
    assert all[i..][..|all| - i - 1] == all[..|all| - 1][i..];
  }

  lemma NothingVisited(fs: FileSystem, before: seq<Path>)
    ensures VisitsAll(fs, before, [], []) && ClosedBy([]) == [] && OpenedBy([]) == [] && Blocks(fs, []) == []
  {
  }

  /** Every include line is expanded by then. */
  lemma {:induction false} AllVisited(fs: FileSystem, before: seq<Path>, includes: seq<Path>, vs: seq<Visit>)
    requires VisitsAll(fs, before, includes, vs)
    ensures forall i :: i in includes ==> i in before + ClosedBy(vs)
    decreases |vs|
  {
    if vs != [] {
      var n := |vs| - 1;
      AllVisited(fs, before, includes[..n], vs[..n]);
      assert includes == includes[..n] + [includes[n]];
      assert includes[n] in before + ClosedBy(vs[..n]) || includes[n] in Closed(vs[n]);
    }
  }

  lemma StackShrinksRest(fs: FileSystem, stack: seq<Path>, path: Path)
    requires path in fs && path !in stack
    ensures fs.Keys - Elements(stack + [path]) < fs.Keys - Elements(stack)
  {
    assert path in fs.Keys - Elements(stack);
    assert path !in fs.Keys - Elements(stack + [path]);
  }

  /** What a visit hands to the including file. */
  function Imports(fs: FileSystem, v: Visit): Expanded
  {
    if v.Again? then Expanded([], false) else Expanded(Blocks(fs, ClosedBy(v.visits)), true)
  }

  lemma ImportsNext(fs: FileSystem, before: seq<Path>, vs: seq<Visit>, v: Visit)
    requires Visits(fs, before + ClosedBy(vs), v)
    ensures Imports(fs, v).emitOwn ==> v.path in fs
    ensures Blocks(fs, ClosedBy(vs) + Closed(v))
            == Blocks(fs, ClosedBy(vs)) + Imports(fs, v).imported + (if Imports(fs, v).emitOwn then fs[v.path].rules else [])
  {
    hide Blocks, VisitsAll, ClosedBy;
    if v.Expansion? {
      BlocksConcat(fs, ClosedBy(vs), Closed(v));
      BlocksSnoc(fs, ClosedBy(v.visits), v.path);
    } else {
      assert ClosedBy(vs) + [] == ClosedBy(vs);
    }
  }

  /** `load_ruleset`: expansion of the entry, then its own rules. */
  method LoadRuleset(fs: FileSystem, entry: Path) returns (r: Result<Loaded>, ghost order: seq<Path>, ghost v: Visit)
    ensures r.Ok? ==>
              // The emitted files are exactly those in reach, each once, included files
              // first, the entry last.
              && Finished(fs, entry, order) && order != [] && order[|order| - 1] == entry
              && (forall p :: InReach(fs, entry, p) <==> p in order)
              && r.value.rules == Blocks(fs, order)
              && Distinct(r.value.files) && (forall p :: p in r.value.files <==> p in order)
              && r.value.files != [] && r.value.files[0] == entry
    // They are opened and closed in the order of the include lines.
    ensures r.Ok? ==> v.path == entry && Visits(fs, [], v) && order == Closed(v) && r.value.files == Opened(v)
    ensures r.Ok? <==> !RegionHasCycle(IncludeGraph(fs), entry) && forall p :: InReach(fs, entry, p) ==> p in fs
    ensures r.Err? && r.error.CycleFound? ==> RegionHasCycle(IncludeGraph(fs), entry) && IsCycle(fs, entry, r.error.chain)
    ensures r.Err? && r.error.Unreadable? ==> r.error.path !in fs && InReach(fs, entry, r.error.path)
  {
    hide Visits, Closed, Opened, Blocks, Imports, Ordered, Chain, InReach, IsCycle, RegionHasCycle, Finished;
    var loader := new Loader(fs, entry);
    NothingIsValid(fs, entry);
    var e;
    e, v := loader.Expand(entry);
    order := loader.order;
    if e.Err? { return Err(e.error), order, v; }
    assert order == Closed(v) && loader.files == Opened(v);
    EntryIsExpanded(fs, v);
    AllInReach(fs, entry, order);
    r := Ok(Loaded(loader.files, e.value.imported + fs[entry].rules));
  }

  lemma NothingIsValid(fs: FileSystem, entry: Path)
    ensures Finished(fs, entry, []) && Active(fs, entry, [])
  {
  }

  lemma EntryIsExpanded(fs: FileSystem, v: Visit)
    requires Visits(fs, [], v)
    ensures v.path in fs && Closed(v) != [] && Closed(v)[|Closed(v)| - 1] == v.path && Opened(v) != [] && Opened(v)[0] == v.path
    ensures Blocks(fs, Closed(v)) == Imports(fs, v).imported + fs[v.path].rules
  {
    hide Blocks, VisitsAll;
    BlocksSnoc(fs, ClosedBy(v.visits), v.path);
  }

  lemma AllInReach(fs: FileSystem, entry: Path, order: seq<Path>)
    requires Finished(fs, entry, order) && entry in order
    ensures forall p :: InReach(fs, entry, p) <==> p in order
    ensures forall p :: p in order ==> p in fs
    ensures !RegionHasCycle(IncludeGraph(fs), entry)
  {
    var g := IncludeGraph(fs);
    var s := Elements(order);
    forall n, m | n in s && m in Succ(g, n) ensures m in s {
      var j :| 0 <= j < |order| && order[j] == n;
      assert m in order[..j];
    }
    assert ClosedUp(g, s);
    OrderedHasNoReturn(g, order, s, entry);
    forall p | Reaches(g, entry, p) ensures p in order {
      var c :| ChainTo(g, entry, p, c);
      ChainStays(g, s, c, |c| - 1);
    }
  }
}
