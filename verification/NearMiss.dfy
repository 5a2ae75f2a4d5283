/** "Did you mean" suggestions of crates/airpulse_dsl-syntax/src/parser.rs: the two-row edit
    distance and the choice among candidates. */
module NearMiss {

  import opened Options

  function Min(a: nat, b: nat): nat { if b < a then b else a }

  function Cost(x: char, y: char): nat { if x == y then 0 else 1 }

  function Init(s: string): string requires s != [] { s[..|s| - 1] }
  function Last(s: string): char requires s != [] { s[|s| - 1] }

  function Distance(a: string, b: string): nat
    decreases |a| + |b|
  {
    if a == [] then |b|
    else if b == [] then |a|
    else Min(Min(Distance(Init(a), b) + 1, Distance(a, Init(b)) + 1), Distance(Init(a), Init(b)) + Cost(Last(a), Last(b)))
  }

  // ----- an independent reading: the fewest single-character edits -----

  ghost predicate Inserted(a: string, b: string)
  {
    exists i, x :: 0 <= i <= |a| && b == a[..i] + [x] + a[i..]
  }

  ghost predicate Replaced(a: string, b: string)
  {
    exists i, x :: 0 <= i < |a| && b == a[..i] + [x] + a[i + 1..]
  }

  ghost predicate OneEdit(a: string, b: string) { Inserted(a, b) || Inserted(b, a) || Replaced(a, b) }

  /** A chain of single edits from `a` to `b`. */
  ghost predicate EditPath(p: seq<string>, a: string, b: string)
  {
    p != [] && p[0] == a && p[|p| - 1] == b && forall i :: 0 <= i < |p| - 1 ==> OneEdit(p[i], p[i + 1])
  }

  lemma {:induction false} DistanceBounds(a: string, b: string)
    ensures |a| <= |b| + Distance(a, b) && |b| <= |a| + Distance(a, b) && Distance(a, b) <= |a| + |b|
    decreases |a| + |b|
  {
    if a != [] && b != [] {
      DistanceBounds(Init(a), b);
      DistanceBounds(a, Init(b));
      DistanceBounds(Init(a), Init(b));
    }
  }

  /** Extending either string costs at most one, extending both equally nothing. */
  lemma {:induction false} DistanceSteps(a: string, b: string)
    ensures a != [] ==> Distance(a, b) <= Distance(Init(a), b) + 1
    ensures b != [] ==> Distance(a, b) <= Distance(a, Init(b)) + 1
    ensures a != [] && b != [] ==> Distance(a, b) <= Distance(Init(a), Init(b)) + Cost(Last(a), Last(b))
  {
    if b == [] && a != [] { DistanceBounds(Init(a), b); }
    if a == [] && b != [] { DistanceBounds(a, Init(b)); }
  }

  lemma {:induction false} Symmetric(a: string, b: string)
    ensures Distance(a, b) == Distance(b, a)
    decreases |a| + |b|
  {
    if a != [] && b != [] {
      Symmetric(Init(a), b);
      Symmetric(a, Init(b));
      Symmetric(Init(a), Init(b));
    }
  }

  lemma {:induction false} ZeroIffEqual(a: string, b: string)
    ensures Distance(a, b) == 0 <==> a == b
    decreases |a| + |b|
  {
    if a != [] && b != [] {
      ZeroIffEqual(Init(a), Init(b));
      assert a == Init(a) + [Last(a)] && b == Init(b) + [Last(b)];
    }
  }

  lemma {:induction false} Triangle(a: string, b: string, c: string)
    ensures Distance(a, c) <= Distance(a, b) + Distance(b, c)
    decreases |a| + |b| + |c|
  {
    DistanceBounds(a, c);
    DistanceBounds(a, b);
    DistanceBounds(b, c);
    if a != [] && b != [] && c != [] {
      DistanceSteps(a, c);
      Triangle(Init(a), b, c);
      Triangle(a, b, Init(c));
      Triangle(a, Init(b), c);
      Triangle(a, Init(b), Init(c));
      Triangle(Init(a), Init(b), c);
      Triangle(Init(a), Init(b), Init(c));
      SixCases(a, b, c);
    }
  }

  lemma {:induction false} SixCases(a: string, b: string, c: string)
    requires a != [] && b != [] && c != []
    requires Distance(Init(a), c) <= Distance(Init(a), b) + Distance(b, c)
    requires Distance(a, Init(c)) <= Distance(a, b) + Distance(b, Init(c))
    requires Distance(a, c) <= Distance(a, Init(b)) + Distance(Init(b), c)
    requires Distance(a, Init(c)) <= Distance(a, Init(b)) + Distance(Init(b), Init(c))
    requires Distance(Init(a), c) <= Distance(Init(a), Init(b)) + Distance(Init(b), c)
    requires Distance(Init(a), Init(c)) <= Distance(Init(a), Init(b)) + Distance(Init(b), Init(c))
    ensures Distance(a, c) <= Distance(a, b) + Distance(b, c)
  {
    hide Distance, Init;
    DistanceSteps(a, c);
    LastStep(a, b);
    LastStep(b, c);
    assert Cost(Last(a), Last(c)) <= Cost(Last(a), Last(b)) + Cost(Last(b), Last(c));
  }

  lemma {:induction false} LastStep(a: string, b: string)
    requires a != [] && b != []
    ensures Distance(a, b) == Min(Min(Distance(Init(a), b) + 1, Distance(a, Init(b)) + 1), Distance(Init(a), Init(b)) + Cost(Last(a), Last(b)))
  {
    hide Init, Last, Cost, Min;
  }

  /** A common suffix does not add to the distance. */
  lemma {:induction false} CommonSuffix(a: string, b: string, s: string)
    ensures Distance(a + s, b + s) <= Distance(a, b)
  {
    if s == [] {
      assert a + s == a && b + s == b;
    } else {
      CommonSuffix(a, b, Init(s));
      assert Init(a + s) == a + Init(s) && Init(b + s) == b + Init(s);
      DistanceSteps(a + s, b + s);
    }
  }

  lemma {:induction false} SameIsZero(a: string)
    ensures Distance(a, a) == 0
  {
    ZeroIffEqual(a, a);
  }

  lemma {:induction false} OneEditCostsOne(a: string, b: string)
    requires OneEdit(a, b)
    ensures Distance(a, b) <= 1
  {
    if Inserted(a, b) {
      InsertedCostsOne(a, b);
    } else if Inserted(b, a) {
      InsertedCostsOne(b, a);
      Symmetric(a, b);
    } else {
      ReplacedCostsOne(a, b);
    }
  }

  lemma ReplacedCostsOne(a: string, b: string)
    requires Replaced(a, b)
    ensures Distance(a, b) <= 1
  {
    hide Distance;
    var i, x :| 0 <= i < |a| && b == a[..i] + [x] + a[i + 1..];
    var p, q := a[..i] + [a[i]], a[..i] + [x];
    assert Init(p) == a[..i] && Init(q) == a[..i];
    SameIsZero(a[..i]);
    DistanceSteps(p, q);
    assert a == p + a[i + 1..];
    CommonSuffix(p, q, a[i + 1..]);
  }

  lemma InsertedCostsOne(a: string, b: string)
    requires Inserted(a, b)
    ensures Distance(a, b) <= 1
  {
    hide Distance;
    var i, x :| 0 <= i <= |a| && b == a[..i] + [x] + a[i..];
    var q := a[..i] + [x];
    assert Init(q) == a[..i];
    SameIsZero(a[..i]);
    DistanceSteps(a[..i], q);
    assert a == a[..i] + a[i..];
    CommonSuffix(a[..i], q, a[i..]);
  }

  /** No chain of edits is shorter than the distance. */
  lemma {:induction false} NoShorterPath(p: seq<string>, a: string, b: string)
    requires EditPath(p, a, b)
    ensures Distance(a, b) <= |p| - 1
  {
    if |p| == 1 {
      SameIsZero(a);
    } else {
      OneEditCostsOne(p[0], p[1]);
      NoShorterPath(p[1..], p[1], b);
      Triangle(a, p[1], b);
    }
  }

  lemma {:induction false} Appended(p: seq<string>, a: string, b: string, x: char) returns (q: seq<string>)
    requires EditPath(p, a, b)
    ensures EditPath(q, a + [x], b + [x]) && |q| == |p|
  {
    q := seq(|p|, i requires 0 <= i < |p| => p[i] + [x]);
    forall i | 0 <= i < |q| - 1 ensures OneEdit(q[i], q[i + 1]) { EditThenAppend(p[i], p[i + 1], x); }
  }

  lemma EditThenAppend(a: string, b: string, x: char)
    requires OneEdit(a, b)
    ensures OneEdit(a + [x], b + [x])
  {
    if Inserted(a, b) {
      InsertThenAppend(a, b, x);
    } else if Inserted(b, a) {
      InsertThenAppend(b, a, x);
    } else {
      var i, y :| 0 <= i < |a| && b == a[..i] + [y] + a[i + 1..];
      assert b + [x] == (a + [x])[..i] + [y] + (a + [x])[i + 1..];
    }
  }

  lemma InsertThenAppend(a: string, b: string, x: char)
    requires Inserted(a, b)
    ensures Inserted(a + [x], b + [x])
  {
    var i, y :| 0 <= i <= |a| && b == a[..i] + [y] + a[i..];
    assert b + [x] == (a + [x])[..i] + [y] + (a + [x])[i..];
  }

  lemma LastInserted(s: string)
    requires s != []
    ensures Inserted(Init(s), s)
  {
    assert s == Init(s)[..|s| - 1] + [Last(s)] + Init(s)[|s| - 1..];
  }

  lemma LastReplaced(s: string, x: char, y: char)
    ensures Replaced(s + [x], s + [y])
  {
    assert s + [y] == (s + [x])[..|s|] + [y] + (s + [x])[|s| + 1..];
  }

  lemma PathSnoc(p: seq<string>, a: string, b: string, c: string)
    requires EditPath(p, a, b) && OneEdit(b, c)
    ensures EditPath(p + [c], a, c)
  {
  }

  lemma PathCons(p: seq<string>, a: string, b: string, c: string)
    requires EditPath(p, b, c) && OneEdit(a, b)
    ensures EditPath([a] + p, a, c)
  {
    var q := [a] + p;
    forall i | 0 <= i < |q| - 1 ensures OneEdit(q[i], q[i + 1]) {
      if i > 0 { assert q[i] == p[i - 1] && q[i + 1] == p[i]; }
    }
  }

  /** Some chain of edits has exactly that length. */
  lemma {:induction false} ShortestPath(a: string, b: string) returns (p: seq<string>)
    ensures EditPath(p, a, b) && |p| == Distance(a, b) + 1
    decreases |a| + |b|
  {
    if a == [] && b == [] {
      p := [a];
    } else if a == [] || (b != [] && Distance(a, b) == Distance(a, Init(b)) + 1) {
      p := ShortestPath(a, Init(b));
      LastInserted(b);
      PathSnoc(p, a, Init(b), b);
      p := p + [b];
    } else if b == [] || Distance(a, b) == Distance(Init(a), b) + 1 {
      p := ShortestPath(Init(a), b);
      LastInserted(a);
      PathCons(p, a, Init(a), b);
      p := [a] + p;
    } else {
      p := Replacing(a, b);
    }
  }

  lemma {:induction false} Replacing(a: string, b: string) returns (p: seq<string>)
    requires a != [] && b != [] && Distance(a, b) == Distance(Init(a), Init(b)) + Cost(Last(a), Last(b))
    ensures EditPath(p, a, b) && |p| == Distance(a, b) + 1
    decreases |a| + |b|, 0
  {
    var q := ShortestPath(Init(a), Init(b));
    assert a == Init(a) + [Last(a)] && b == Init(b) + [Last(b)];
    p := Appended(q, Init(a), Init(b), Last(a));
    if Last(a) != Last(b) {
      LastReplaced(Init(b), Last(a), Last(b));
      PathSnoc(p, a, Init(b) + [Last(a)], b);
      p := p + [b];
    }
  }

  /** The distance is the least number of single-character edits. */
  lemma DistanceIsFewestEdits(a: string, b: string)
    ensures exists p :: EditPath(p, a, b) && |p| - 1 == Distance(a, b)
    ensures forall p :: EditPath(p, a, b) ==> Distance(a, b) <= |p| - 1
  {
    var p := ShortestPath(a, b);
    forall q | EditPath(q, a, b) ensures Distance(a, b) <= |q| - 1 { NoShorterPath(q, a, b); }
  }

  // ----- the two rows -----

  /** `row[j]` is the distance between the first `i` characters of `a` and the first `j` of `b`. */
  ghost predicate Row(row: seq<nat>, a: string, b: string, i: nat, n: nat)
  {
    i <= |a| && n <= |row| && n <= |b| + 1 && forall j :: 0 <= j < n ==> row[j] == Distance(a[..i], b[..j])
  }

  method Levenshtein(a: string, b: string) returns (d: nat)
    ensures d == Distance(a, b)
  {
    if a == b {
      SameIsZero(a);
      return 0;
    }
    if a == [] { return |b|; }
    if b == [] { return |a|; }
    var prev := new nat[|b| + 1](j => j);
    var cur := new nat[|b| + 1](j => 0);
    var i := 0;
    while i < |a|
      invariant 0 <= i <= |a|
      invariant prev != cur && prev.Length == cur.Length == |b| + 1 && fresh(prev) && fresh(cur)
      invariant Row(prev[..], a, b, i, |b| + 1)
    {
      FillRow(prev, cur, a, b, i);
      prev, cur := cur, prev;
      i := i + 1;
    }
    assert a[..i] == a && b[..|b|] == b;
    d := prev[|b|];
  }

  method FillRow(prev: array<nat>, cur: array<nat>, a: string, b: string, i: nat)
    requires i < |a| && prev != cur && prev.Length == cur.Length == |b| + 1
    requires Row(prev[..], a, b, i, |b| + 1)
    modifies cur
    ensures Row(cur[..], a, b, i + 1, |b| + 1)
  {
    hide Distance;
    cur[0] := i + 1;
    FirstCell(a, b, i + 1);
    var j := 0;
    while j < |b|
      invariant 0 <= j <= |b|
      invariant Row(cur[..], a, b, i + 1, j + 1)
    {
      var cost := if a[i] != b[j] then 1 else 0;
      NextCell(a, b, i, j);
      assert prev[..][j + 1] == prev[j + 1] && prev[..][j] == prev[j] && cur[..][j] == cur[j];
      ghost var before := cur[..];
      cur[j + 1] := Min(Min(prev[j + 1] + 1, cur[j] + 1), prev[j] + cost);
      assert cur[..] == before[j + 1 := cur[j + 1]];
      j := j + 1;
    }
  }

  lemma FirstCell(a: string, b: string, i: nat)
    requires i <= |a|
    ensures Distance(a[..i], b[..0]) == i
  {
  }

  lemma {:induction false} NextCell(a: string, b: string, i: nat, j: nat)
    requires i < |a| && j < |b|
    ensures Distance(a[..i + 1], b[..j + 1])
         == Min(Min(Distance(a[..i], b[..j + 1]) + 1, Distance(a[..i + 1], b[..j]) + 1), Distance(a[..i], b[..j]) + Cost(a[i], b[j]))
  {
    hide Distance;
    assert Init(a[..i + 1]) == a[..i] && Init(b[..j + 1]) == b[..j];
    LastStep(a[..i + 1], b[..j + 1]);
  }

  // ----- suggestions -----

  predicate Near(found: string, c: string) { 1 <= Distance(found, c) <= 2 }

  /** `c` is preferred to `d`: fewer edits, then the shorter name. */
  predicate Better(found: string, c: string, d: string)
  {
    Distance(found, c) < Distance(found, d) || (Distance(found, c) == Distance(found, d) && |c| < |d|)
  }

  /** The `k`-th candidate is near, no near one of the first `n` is better, and it beats every
      near one before it. */
  ghost predicate IsBest(found: string, candidates: seq<string>, k: nat, n: nat)
  {
    && k < n <= |candidates| && Near(found, candidates[k])
    && (forall j :: 0 <= j < n && Near(found, candidates[j]) ==> !Better(found, candidates[j], candidates[k]))
    && (forall j :: 0 <= j < k && Near(found, candidates[j]) ==> Better(found, candidates[k], candidates[j]))
  }

  /** Of the candidates one or two edits away, the `k`-th takes the fewest; of those as few
      edits away it is among the shortest, and of these the first. */
  ghost predicate Suggested(found: string, candidates: seq<string>, k: nat)
  {
    && k < |candidates| && (Distance(found, candidates[k]) == 1 || Distance(found, candidates[k]) == 2)
    && forall j :: 0 <= j < |candidates| && candidates[j] != found ==>
         var d, e := Distance(found, candidates[k]), Distance(found, candidates[j]);
         d <= e && (d == e ==> |candidates[k]| <= |candidates[j]| && (|candidates[k]| == |candidates[j]| ==> k <= j))
  }

  lemma BestIsSuggested(found: string, candidates: seq<string>, k: nat)
    requires IsBest(found, candidates, k, |candidates|)
    ensures Suggested(found, candidates, k)
  {
    hide Distance;
    forall j | 0 <= j < |candidates| ensures Distance(found, candidates[j]) == 0 <==> found == candidates[j] { ZeroIffEqual(found, candidates[j]); }
  }

  /** The best near candidate, the first of them on ties. `found` is already trimmed. */
  method SuggestNearMiss(found: string, candidates: seq<string>) returns (best: Option<string>)
    ensures best.None? <==> found == [] || found == "end of input" || forall c :: c in candidates ==> found == c || Distance(found, c) > 2
    ensures best.Some? ==> exists k :: 0 <= k < |candidates| && candidates[k] == best.value && Suggested(found, candidates, k)
  {
    hide Distance;
    if found == [] || found == "end of input" { return None; }
    best := None;
    var bestDistance := 0;
    var i := 0;
    ghost var k := 0;
    while i < |candidates|
      invariant 0 <= i <= |candidates|
      invariant best.None? ==> forall j :: 0 <= j < i ==> !Near(found, candidates[j])
      invariant best.Some? ==>
        k < i && candidates[k] == best.value && bestDistance == Distance(found, best.value) && IsBest(found, candidates, k, i)
    {
      var c := candidates[i];
      var d := Levenshtein(found, c);
      if d != 0 && d <= 2 {
        if best.None? || d < bestDistance || (d == bestDistance && |c| < |best.value|) {
          best, bestDistance, k := Some(c), d, i;
        }
      }
      i := i + 1;
    }
    if best.Some? { BestIsSuggested(found, candidates, k); }
    forall c | c in candidates ensures Distance(found, c) == 0 <==> found == c { ZeroIffEqual(found, c); }
  }
}
