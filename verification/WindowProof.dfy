/** Phase 6 of the verifier, crates/airpulse_dsl-verify/src/lib.rs: which correlate windows
    are calculable, what they lower to, and what acceptance promises the engine. */
module WindowProof {
  import opened AdglAst
  import opened EventTime
  import opened RuleImage

  /** `checked` distinguishes builds in which integer overflow panics from those in which it
      wraps around. */
  datatype Computed<+T> = Panicked | NotCalculable | Value(value: T)

  datatype Clause = Clause(binding: string, probe: Expr, start: Expr, end: Expr)

  datatype WindowedRule = WindowedRule(anchor: string, clauses: seq<Clause>)

  datatype Finding = MalformedProbe | ExceedsLookback | WindowNotCalculable

  function Wrap(n: int): Time { (n - TIME_MIN) % 0x1_0000_0000_0000_0000 + TIME_MIN }

  function Arith(checked: bool, n: int): Computed<Time>
  {
    if TIME_MIN <= n <= TIME_MAX then Value(n) else if checked then Panicked else Value(Wrap(n))
  }

  function AnchorOffset(checked: bool, anchor: string, e: Expr): Computed<Time>
  {
    match e
    case Field(base, field) => if base == Ident(anchor) && field == "time" then Value(0) else NotCalculable
    case Binary(op, left, right) =>
      if op == Add || op == Sub then
        var l := AnchorOffset(checked, anchor, left);
        if !l.Value? then l
        else if !right.DurationLit? then NotCalculable
        else Arith(checked, if op == Add then l.value + right.millis else l.value - right.millis)
      else NotCalculable
    case _ => NotCalculable
  }

  function CalculableWindow(checked: bool, anchor: string, start: Expr, end: Expr): Computed<(Time, Time)>
  {
    var s := AnchorOffset(checked, anchor, start);
    if !s.Value? then (if s.Panicked? then Panicked else NotCalculable)
    else
      var f := AnchorOffset(checked, anchor, end);
      if !f.Value? then (if f.Panicked? then Panicked else NotCalculable)
      else if s.value > 0 || f.value < 0 then NotCalculable
      else
        var offset: int := s.value;
        var back := Arith(checked, -offset);
        if back.Value? then Value((back.value, f.value)) else Panicked
  }

  function ClauseWindow(checked: bool, anchor: string, c: Clause): Computed<(Time, Time)>
  {
    CalculableWindow(checked, anchor, c.start, c.end)
  }

  function IsTimeProbe(e: Expr, binding: string): bool
  {
    e == Field(Ident(binding), "time")
  }

  // ----- the pass -----

  ghost predicate Panics(checked: bool, rules: seq<WindowedRule>)
  {
    exists r :: r in rules && RulePanics(checked, r)
  }

  function ClauseForward(checked: bool, anchor: string, c: Clause): Duration
  {
    var w := ClauseWindow(checked, anchor, c);
    if w.Value? && w.value.1 >= 0 then w.value.1 else 0
  }

  function RuleForward(checked: bool, anchor: string, cs: seq<Clause>): Duration
  {
    if cs == [] then 0
    else Latest(RuleForward(checked, anchor, cs[..|cs| - 1]), ClauseForward(checked, anchor, cs[|cs| - 1]))
  }

  function RulesetForward(checked: bool, rules: seq<WindowedRule>): Duration
  {
    if rules == [] then 0
    else var r := rules[|rules| - 1];
      Latest(RulesetForward(checked, rules[..|rules| - 1]), RuleForward(checked, r.anchor, r.clauses))
  }

  /** The longest forward window, folded clause by clause as the source does. */
  method MaxForwardWindow(checked: bool, rules: seq<WindowedRule>) returns (r: Computed<Duration>)
    ensures r.Panicked? <==> Panics(checked, rules)
    ensures !r.Panicked? ==> r == Value(RulesetForward(checked, rules))
  {
    var longest: Duration := 0;
    var i := 0;
    while i < |rules|
      invariant 0 <= i <= |rules| && longest == RulesetForward(checked, rules[..i])
      invariant forall k :: 0 <= k < i ==> !RulePanics(checked, rules[k])
    {
      var w := LongestOf(checked, rules[i], longest);
      if w.Panicked? {
        assert RulePanics(checked, rules[i]);
        return Panicked;
      }
      assert rules[..i + 1][..i] == rules[..i];
      longest := w.value;
      i := i + 1;
    }
    assert rules[..i] == rules;
    r := Value(longest);
  }

  ghost predicate RulePanics(checked: bool, rule: WindowedRule)
  {
    exists c :: c in rule.clauses && ClauseWindow(checked, rule.anchor, c).Panicked?
  }

  lemma NoForward(checked: bool, anchor: string)
    ensures RuleForward(checked, anchor, []) == 0
  {
  }

  lemma ForwardSnoc(checked: bool, anchor: string, cs: seq<Clause>, j: nat)
    requires j < |cs|
    ensures RuleForward(checked, anchor, cs[..j + 1]) == Latest(RuleForward(checked, anchor, cs[..j]), ClauseForward(checked, anchor, cs[j]))
  {
    assert cs[..j + 1][..j] == cs[..j];
  }

  method LongestOf(checked: bool, rule: WindowedRule, before: Duration) returns (r: Computed<Duration>)
    ensures r.Panicked? <==> RulePanics(checked, rule)
    ensures !r.Panicked? ==> r == Value(Latest(before, RuleForward(checked, rule.anchor, rule.clauses)))
  {
    hide ClauseWindow, RuleForward;
    var longest := before;
    var j := 0;
    NoForward(checked, rule.anchor);
    assert rule.clauses[..0] == [];
    while j < |rule.clauses|
      invariant 0 <= j <= |rule.clauses|
      invariant longest == Latest(before, RuleForward(checked, rule.anchor, rule.clauses[..j]))
      invariant forall m :: 0 <= m < j ==> !ClauseWindow(checked, rule.anchor, rule.clauses[m]).Panicked?
    {
      var w := ClauseWindow(checked, rule.anchor, rule.clauses[j]);
      if w.Panicked? { return Panicked; }
      ForwardSnoc(checked, rule.anchor, rule.clauses, j);
      if w.Value? && w.value.1 > longest { longest := w.value.1; }
      j := j + 1;
    }
    assert rule.clauses[..j] == rule.clauses;
    r := Value(longest);
  }

  predicate Fits(checked: bool, anchor: string, c: Clause, allowed: Time)
  {
    var w := ClauseWindow(checked, anchor, c);
    w.Value? && w.value.0 <= allowed && w.value.1 <= allowed
  }

  function AllowedWindow(checked: bool, rules: seq<WindowedRule>, maxLookback: Time): Time
  {
    Clamp(maxLookback - RulesetForward(checked, rules))
  }

  ghost predicate AcceptedClause(checked: bool, anchor: string, c: Clause, allowed: Time)
  {
    IsTimeProbe(c.probe, c.binding) && Fits(checked, anchor, c, allowed)
  }

  /** Phase 6. No finding means that every clause is well formed, calculable and within the
      lookback less the longest forward window of the whole ruleset. */
  method TemporalBounds(checked: bool, rules: seq<WindowedRule>, maxLookback: Duration) returns (r: Computed<seq<Finding>>)
    ensures r.Panicked? <==> Panics(checked, rules)
    ensures r.Panicked? || r.Value?
    ensures r.Value? ==>
      (r.value == [] <==> forall k, c :: k in rules && c in k.clauses ==>
                            AcceptedClause(checked, k.anchor, c, AllowedWindow(checked, rules, maxLookback)))
    ensures r.Value? ==> exists d: nat :: Longest(checked, rules, d) && r.value == AllFindings(checked, rules, d, maxLookback)
  {
    hide Longest, AllFindings, RuleFindings, AcceptedClause, AllowedWindow;
    var slack := MaxForwardWindow(checked, rules);
    if slack.Panicked? { return Panicked; }
    SlackIsLongest(checked, rules);
    NoFindingsIff(checked, rules, maxLookback);
    var allowed := Clamp(maxLookback - slack.value);
    var findings := [];
    NoRuleFindings(checked, slack.value, maxLookback);
    var i := 0;
    while i < |rules|
      invariant 0 <= i <= |rules|
      invariant findings == AllFindings(checked, rules[..i], slack.value, maxLookback)
    {
      NextRuleFindings(checked, rules, i, slack.value, maxLookback);
      var more := CheckRule(checked, rules[i], allowed, slack.value, maxLookback);
      findings := findings + more;
      i := i + 1;
    }
    assert rules[..i] == rules;
    r := Value(findings);
  }

  lemma NoRuleFindings(checked: bool, d: int, maxLookback: Duration)
    ensures AllFindings(checked, [], d, maxLookback) == []
  {
  }

  lemma NextRuleFindings(checked: bool, rules: seq<WindowedRule>, i: nat, d: int, maxLookback: Duration)
    requires i < |rules|
    ensures AllFindings(checked, rules[..i + 1], d, maxLookback)
         == AllFindings(checked, rules[..i], d, maxLookback) + RuleFindings(checked, rules[i].anchor, rules[i].clauses, d, maxLookback)
  {
    assert rules[..i + 1][..i] == rules[..i];
  }

  method CheckRule(checked: bool, rule: WindowedRule, allowed: Time, ghost d: Duration, ghost maxLookback: Duration) returns (findings: seq<Finding>)
    requires !RulePanics(checked, rule) && allowed == Clamp(maxLookback - d)
    ensures findings == RuleFindings(checked, rule.anchor, rule.clauses, d, maxLookback)
  {
    hide RuleFindings, ClauseFindings, ClauseWindow;
    findings := [];
    NoClauseFindings(checked, rule.anchor, d, maxLookback);
    var j := 0;
    while j < |rule.clauses|
      invariant 0 <= j <= |rule.clauses|
      invariant findings == RuleFindings(checked, rule.anchor, rule.clauses[..j], d, maxLookback)
    {
      NextClauseFindings(checked, rule.anchor, rule.clauses, j, d, maxLookback);
      var more := CheckClause(checked, rule.anchor, rule.clauses[j], allowed, d, maxLookback);
      findings := findings + more;
      j := j + 1;
    }
    assert rule.clauses[..j] == rule.clauses;
  }

  lemma NoClauseFindings(checked: bool, anchor: string, d: int, maxLookback: Duration)
    ensures RuleFindings(checked, anchor, [], d, maxLookback) == []
  {
  }

  lemma NextClauseFindings(checked: bool, anchor: string, cs: seq<Clause>, j: nat, d: int, maxLookback: Duration)
    requires j < |cs|
    ensures RuleFindings(checked, anchor, cs[..j + 1], d, maxLookback)
         == RuleFindings(checked, anchor, cs[..j], d, maxLookback) + ClauseFindings(checked, anchor, cs[j], d, maxLookback)
  {
    assert cs[..j + 1][..j] == cs[..j];
  }

  method CheckClause(checked: bool, anchor: string, c: Clause, allowed: Time, ghost d: Duration, ghost maxLookback: Duration)
    returns (findings: seq<Finding>)
    requires !ClauseWindow(checked, anchor, c).Panicked? && allowed == Clamp(maxLookback - d)
    ensures findings == ClauseFindings(checked, anchor, c, d, maxLookback)
  {
    hide ClauseFindings, ClauseWindow;
    FindingsOfClause(checked, anchor, c, d, maxLookback);
    findings := [];
    if !IsTimeProbe(c.probe, c.binding) { findings := findings + [MalformedProbe]; }
    var w := ClauseWindow(checked, anchor, c);
    if w.Value? {
      if w.value.0 > allowed || w.value.1 > allowed { findings := findings + [ExceedsLookback]; }
    } else {
      findings := findings + [WindowNotCalculable];
    }
  }

  // ----- what an offset means -----

  /** The offset as written, over unbounded integers; 0 where the form is not an offset. */
  function Written(e: Expr): int
  {
    match e
    case Binary(op, left, right) =>
      if right.DurationLit? then (if op == Sub then Written(left) - right.millis else Written(left) + right.millis) else 0
    case _ => 0
  }

  /** Value of a time expression when the anchor is at `t`, over unbounded integers. */
  function TimeOf(e: Expr, t: int): int
  {
    match e
    case Field(_, _) => t
    case DurationLit(d) => d
    case Binary(op, left, right) => if op == Sub then TimeOf(left, t) - TimeOf(right, t) else TimeOf(left, t) + TimeOf(right, t)
    case _ => 0
  }

  lemma {:induction false} WrapOfWrap(n: int, d: int)
    ensures Wrap(Wrap(n) + d) == Wrap(n + d)
  {
    var m := 0x1_0000_0000_0000_0000;
    var q := (n - TIME_MIN) / m;
    assert Wrap(n) == n - q * m;
    Shifted(n + d - TIME_MIN, q);
  }

  lemma WrapInRange(n: int)
    ensures TIME_MIN <= n <= TIME_MAX ==> Wrap(n) == n
  {
  }

  lemma Shifted(a: int, q: int)
    ensures (a - q * 0x1_0000_0000_0000_0000) % 0x1_0000_0000_0000_0000 == a % 0x1_0000_0000_0000_0000
  {
  }

  lemma ArithMeaning(checked: bool, v: int, written: int, d: int)
    requires v == Wrap(written) && Arith(checked, v + d).Value?
    ensures Arith(checked, v + d).value == Wrap(written + d)
    ensures checked ==> Arith(checked, v + d).value == v + d
  {
    WrapOfWrap(written, d);
    WrapInRange(v + d);
  }

  /** A calculable expression is the anchor time plus the written offset; the computed
      offset is that one, wrapped to 64 bits. */
  lemma {:induction false} OffsetMeaning(checked: bool, anchor: string, e: Expr, t: int)
    requires AnchorOffset(checked, anchor, e).Value?
    ensures TimeOf(e, t) == t + Written(e)
    ensures AnchorOffset(checked, anchor, e).value == Wrap(Written(e))
    ensures checked ==> AnchorOffset(checked, anchor, e).value == Written(e)
  {
    hide Wrap, Arith;
    if e.Binary? {
      OffsetMeaning(checked, anchor, e.left, t);
      var d := if e.op == Add then e.right.millis else -e.right.millis;
      ArithMeaning(checked, AnchorOffset(checked, anchor, e.left).value, Written(e.left), d);
    } else {
      WrapInRange(0);
    }
  }

  // ----- which clauses are calculable, and what their windows are -----

  /** The anchor's time, plus and minus durations. */
  predicate IsOffset(anchor: string, e: Expr)
  {
    match e
    case Field(base, field) => base == Ident(anchor) && field == "time"
    case Binary(op, left, right) => (op == Add || op == Sub) && right.DurationLit? && IsOffset(anchor, left)
    case _ => false
  }

  /** No sum on the way leaves 64 bits. */
  predicate StaysInRange(e: Expr)
  {
    e.Binary? ==> StaysInRange(e.left) && -0x8000_0000_0000_0000 <= Written(e) < 0x8000_0000_0000_0000
  }

  /** Some sum on the way does, before anything else stops the calculation. */
  predicate Overflows(anchor: string, e: Expr)
  {
    e.Binary? && (e.op == Add || e.op == Sub)
    && (Overflows(anchor, e.left) || (IsOffset(anchor, e) && !(-0x8000_0000_0000_0000 <= Written(e) < 0x8000_0000_0000_0000)))
  }

  /** `t` is what 64 bits keep of `n`. */
  predicate Keeps(n: int, t: Time) { (n - t) % 0x1_0000_0000_0000_0000 == 0 }

  lemma KeepsIs(n: int, t: Time)
    ensures Keeps(n, t) <==> t == Wrap(n)
  {
  }

  lemma {:induction false} OffsetIff(checked: bool, anchor: string, e: Expr)
    ensures AnchorOffset(checked, anchor, e).Value? <==> IsOffset(anchor, e) && (checked ==> StaysInRange(e))
    ensures AnchorOffset(checked, anchor, e).Panicked? <==> checked && Overflows(anchor, e)
    ensures IsOffset(anchor, e) ==> (StaysInRange(e) <==> !Overflows(anchor, e))
  {
    hide Wrap;
    if e.Binary? {
      OffsetIff(checked, anchor, e.left);
      if AnchorOffset(checked, anchor, e.left).Value? { OffsetMeaning(checked, anchor, e.left, 0); }
    }
  }

  /** The clause has a window from `back` before the anchor to `forward` behind it, the
      written offsets being cut to 64 bits. */
  ghost predicate Spans(checked: bool, anchor: string, c: Clause, back: Time, forward: Time)
  {
    && IsOffset(anchor, c.start) && IsOffset(anchor, c.end)
    && (checked ==> StaysInRange(c.start) && StaysInRange(c.end))
    && Keeps(Written(c.end), forward) && forward >= 0
    && exists start: Time :: Keeps(Written(c.start), start) && start <= 0
                             && if start == TIME_MIN then !checked && back == TIME_MIN else back == -start
  }

  lemma SpansIff(checked: bool, anchor: string, c: Clause, back: Time, forward: Time)
    ensures Spans(checked, anchor, c, back, forward) <==> ClauseWindow(checked, anchor, c) == Value((back, forward))
  {
    hide AnchorOffset, Wrap, IsOffset, StaysInRange, Keeps, Written, TimeOf;
    OffsetIff(checked, anchor, c.start);
    OffsetIff(checked, anchor, c.end);
    if AnchorOffset(checked, anchor, c.start).Value? && AnchorOffset(checked, anchor, c.end).Value? {
      OffsetMeaning(checked, anchor, c.start, 0);
      OffsetMeaning(checked, anchor, c.end, 0);
      var start := AnchorOffset(checked, anchor, c.start).value;
      forall t: Time ensures Keeps(Written(c.start), t) <==> t == start { KeepsIs(Written(c.start), t); }
      KeepsIs(Written(c.end), forward);
      assert Keeps(Written(c.start), start);
      var offset: int := start;
      WrapOfMin();
      WrapInRange(-offset);
    }
  }

  ghost predicate Longest(checked: bool, rules: seq<WindowedRule>, d: int)
  {
    && (forall k, c, b: Time, f: Time :: k in rules && c in k.clauses && Spans(checked, k.anchor, c, b, f) ==> f <= d)
    && (d == 0 || exists k, c, b: Time :: k in rules && c in k.clauses && 0 <= d <= TIME_MAX && Spans(checked, k.anchor, c, b, d))
  }

  lemma {:induction false} RuleForwardBounds(checked: bool, anchor: string, cs: seq<Clause>)
    ensures forall c, b: Time, f: Time :: c in cs && Spans(checked, anchor, c, b, f) ==> f <= RuleForward(checked, anchor, cs)
    ensures RuleForward(checked, anchor, cs) == 0 || exists c, b: Time :: c in cs && Spans(checked, anchor, c, b, RuleForward(checked, anchor, cs))
  {
    hide Spans, ClauseWindow;
    if cs != [] {
      var n := |cs| - 1;
      RuleForwardBounds(checked, anchor, cs[..n]);
      assert cs == cs[..n] + [cs[n]];
      forall b: Time, f: Time ensures Spans(checked, anchor, cs[n], b, f) <==> ClauseWindow(checked, anchor, cs[n]) == Value((b, f)) { SpansIff(checked, anchor, cs[n], b, f); }
      var w := ClauseWindow(checked, anchor, cs[n]);
      if w.Value? { assert Spans(checked, anchor, cs[n], w.value.0, w.value.1); }
    }
  }

  /** The slack is the longest forward window of all clauses that have one. */
  lemma {:induction false} SlackIsLongest(checked: bool, rules: seq<WindowedRule>)
    ensures Longest(checked, rules, RulesetForward(checked, rules))
  {
    hide Spans;
    if rules != [] {
      var n := |rules| - 1;
      SlackIsLongest(checked, rules[..n]);
      RuleForwardBounds(checked, rules[n].anchor, rules[n].clauses);
      assert rules == rules[..n] + [rules[n]];
    }
  }

  /** A clause is accepted exactly if it probes the time of its own binding and has a window
      that is, with the longest forward window `d`, no longer than the lookback on either
      side. */
  lemma AcceptedMeans(checked: bool, rules: seq<WindowedRule>, anchor: string, c: Clause, maxLookback: Duration, d: int)
    requires Longest(checked, rules, d)
    ensures AcceptedClause(checked, anchor, c, AllowedWindow(checked, rules, maxLookback))
            <==> c.probe == Field(Ident(c.binding), "time")
                 && exists back: Time, forward: Time :: Spans(checked, anchor, c, back, forward) && back + d <= maxLookback && forward + d <= maxLookback
  {
    hide Spans, ClauseWindow, RulesetForward;
    SlackIsLongest(checked, rules);
    LongestIsUnique(checked, rules, d, RulesetForward(checked, rules));
    forall b: Time, f: Time ensures Spans(checked, anchor, c, b, f) <==> ClauseWindow(checked, anchor, c) == Value((b, f)) { SpansIff(checked, anchor, c, b, f); }
    var w := ClauseWindow(checked, anchor, c);
    if w.Value? { assert Spans(checked, anchor, c, w.value.0, w.value.1); }
  }

  /** The findings about one clause, with the longest forward window `d`. */
  ghost function ClauseFindings(checked: bool, anchor: string, c: Clause, d: int, maxLookback: Duration): seq<Finding>
  {
    (if c.probe == Field(Ident(c.binding), "time") then [] else [MalformedProbe])
    + (if !HasWindow(checked, anchor, c) then [WindowNotCalculable]
       else if HasWindowWithin(checked, anchor, c, maxLookback - d) then []
       else [ExceedsLookback])
  }

  ghost predicate HasWindow(checked: bool, anchor: string, c: Clause)
  {
    exists back: Time, forward: Time :: Spans(checked, anchor, c, back, forward)
  }

  ghost predicate HasWindowWithin(checked: bool, anchor: string, c: Clause, limit: int)
  {
    exists back: Time, forward: Time :: Spans(checked, anchor, c, back, forward) && back <= limit && forward <= limit
  }

  ghost function RuleFindings(checked: bool, anchor: string, cs: seq<Clause>, d: int, maxLookback: Duration): seq<Finding>
  {
    if cs == [] then []
    else RuleFindings(checked, anchor, cs[..|cs| - 1], d, maxLookback) + ClauseFindings(checked, anchor, cs[|cs| - 1], d, maxLookback)
  }

  /** All findings, rule by rule and clause by clause. */
  ghost function AllFindings(checked: bool, rules: seq<WindowedRule>, d: int, maxLookback: Duration): seq<Finding>
  {
    if rules == [] then []
    else
      var k := rules[|rules| - 1];
      AllFindings(checked, rules[..|rules| - 1], d, maxLookback) + RuleFindings(checked, k.anchor, k.clauses, d, maxLookback)
  }

  lemma FindingsOfClause(checked: bool, anchor: string, c: Clause, d: Duration, maxLookback: Duration)
    requires !ClauseWindow(checked, anchor, c).Panicked?
    ensures var w, limit := ClauseWindow(checked, anchor, c), Clamp(maxLookback - d);
            ClauseFindings(checked, anchor, c, d, maxLookback)
            == (if IsTimeProbe(c.probe, c.binding) then [] else [MalformedProbe])
               + if !w.Value? then [WindowNotCalculable]
                 else if w.value.0 > limit || w.value.1 > limit then [ExceedsLookback]
                 else []
  {
    hide Spans, ClauseWindow;
    forall b: Time, f: Time ensures Spans(checked, anchor, c, b, f) <==> ClauseWindow(checked, anchor, c) == Value((b, f)) { SpansIff(checked, anchor, c, b, f); }
    var w := ClauseWindow(checked, anchor, c);
    if w.Value? { assert Spans(checked, anchor, c, w.value.0, w.value.1); }
  }

  lemma {:induction false} NoFindingsInRule(checked: bool, anchor: string, cs: seq<Clause>, d: Duration, maxLookback: Duration)
    ensures RuleFindings(checked, anchor, cs, d, maxLookback) == []
            <==> forall c :: c in cs ==> ClauseFindings(checked, anchor, c, d, maxLookback) == []
  {
    hide ClauseFindings;
    if cs != [] {
      var n := |cs| - 1;
      NoFindingsInRule(checked, anchor, cs[..n], d, maxLookback);
      assert cs == cs[..n] + [cs[n]];
    }
  }

  lemma {:induction false} NoFindingsAt(checked: bool, rules: seq<WindowedRule>, d: Duration, maxLookback: Duration)
    ensures AllFindings(checked, rules, d, maxLookback) == []
            <==> forall k, c :: k in rules && c in k.clauses ==> ClauseFindings(checked, k.anchor, c, d, maxLookback) == []
  {
    hide ClauseFindings, RuleFindings;
    if rules != [] {
      var n := |rules| - 1;
      NoFindingsAt(checked, rules[..n], d, maxLookback);
      NoFindingsInRule(checked, rules[n].anchor, rules[n].clauses, d, maxLookback);
      assert rules == rules[..n] + [rules[n]];
    }
  }

  lemma NoFindingsIff(checked: bool, rules: seq<WindowedRule>, maxLookback: Duration)
    requires !Panics(checked, rules)
    ensures AllFindings(checked, rules, RulesetForward(checked, rules), maxLookback) == []
            <==> forall k, c :: k in rules && c in k.clauses ==>
                   AcceptedClause(checked, k.anchor, c, AllowedWindow(checked, rules, maxLookback))
  {
    hide AllFindings, ClauseFindings, RulesetForward, ClauseWindow;
    var d := RulesetForward(checked, rules);
    NoFindingsAt(checked, rules, d, maxLookback);
    forall k, c | k in rules && c in k.clauses
      ensures ClauseFindings(checked, k.anchor, c, d, maxLookback) == [] <==> AcceptedClause(checked, k.anchor, c, AllowedWindow(checked, rules, maxLookback))
    {
      assert !RulePanics(checked, k);
      FindingsOfClause(checked, k.anchor, c, d, maxLookback);
    }
  }

  lemma LongestIsUnique(checked: bool, rules: seq<WindowedRule>, a: nat, b: nat)
    requires Longest(checked, rules, a) && Longest(checked, rules, b)
    ensures a == b
  {
    hide Spans;
  }

  // ----- lowering -----

  function Lowered(checked: bool, anchor: string, c: Clause): Window
  {
    var w := ClauseWindow(checked, anchor, c);
    if w.Value? then Calculable(if w.value.0 >= 0 then w.value.0 else 0, if w.value.1 >= 0 then w.value.1 else 0)
    else RuntimeCheck
  }

  /** Wherever the anchor is, the window starts and ends where the clause says. */
  ghost predicate Says(w: Window, c: Clause)
    requires w.Calculable?
  {
    forall t :: TimeOf(c.start, t) == t - w.back && TimeOf(c.end, t) == t + w.forward
  }

  /** The lowered window says what was written exactly when both written offsets fit. */
  lemma LoweredIsExactIff(checked: bool, anchor: string, c: Clause)
    requires ClauseWindow(checked, anchor, c).Value?
    ensures var w := Lowered(checked, anchor, c);
            w.Calculable? && (Says(w, c) <==> TIME_MIN < Written(c.start) <= 0 && 0 <= Written(c.end) <= TIME_MAX)
  {
    hide Lowered, ClauseWindow, Written, Wrap, Says;
    var w := Lowered(checked, anchor, c);
    LoweredOffsets(checked, anchor, c);
    SaysIff(checked, anchor, c, w);
    WrappedFits(Written(c.start), Written(c.end), w.back, w.forward);
  }

  lemma SaysIff(checked: bool, anchor: string, c: Clause, w: Window)
    requires ClauseWindow(checked, anchor, c).Value? && w.Calculable?
    ensures Says(w, c) <==> w.back == -Written(c.start) && w.forward == Written(c.end)
  {
    hide ClauseWindow, TimeOf, Written;
    if Says(w, c) {
      ClauseMeaning(checked, anchor, c, 0);
      assert TimeOf(c.start, 0) == 0 - w.back && TimeOf(c.end, 0) == 0 + w.forward;
    } else {
      var t :| !(TimeOf(c.start, t) == t - w.back && TimeOf(c.end, t) == t + w.forward);
      ClauseMeaning(checked, anchor, c, t);
    }
  }

  lemma ClauseMeaning(checked: bool, anchor: string, c: Clause, t: int)
    requires ClauseWindow(checked, anchor, c).Value?
    ensures TimeOf(c.start, t) == t + Written(c.start) && TimeOf(c.end, t) == t + Written(c.end)
  {
    hide TimeOf, Written, Wrap, AnchorOffset;
    OffsetMeaning(checked, anchor, c.start, t);
    OffsetMeaning(checked, anchor, c.end, t);
  }

  /** Wrapping loses nothing exactly when both offsets are in range. */
  lemma WrappedFits(start: int, end: int, back: int, forward: int)
    requires Wrap(start) <= 0 <= Wrap(end) == forward && back == if Wrap(start) == TIME_MIN then 0 else -Wrap(start)
    ensures (back == -start && forward == end) <==> (TIME_MIN < start <= 0 && 0 <= end <= TIME_MAX)
  {
    hide Wrap;
    WrapInRange(start);
    WrapInRange(end);
  }

  lemma LoweredOffsets(checked: bool, anchor: string, c: Clause)
    requires ClauseWindow(checked, anchor, c).Value?
    ensures var w := Lowered(checked, anchor, c);
            && w.Calculable? && Wrap(Written(c.start)) <= 0 <= w.forward == Wrap(Written(c.end))
            && w.back == if Wrap(Written(c.start)) == TIME_MIN then 0 else -Wrap(Written(c.start))
  {
    hide TimeOf, Written, Wrap, AnchorOffset;
    OffsetMeaning(checked, anchor, c.start, 0);
    OffsetMeaning(checked, anchor, c.end, 0);
    var offset: int := AnchorOffset(checked, anchor, c.start).value;
    WrapInRange(-offset);
    assert Wrap(-TIME_MIN) == TIME_MIN by { WrapOfMin(); }
  }

  lemma WrapOfMin()
    ensures Wrap(-TIME_MIN) == TIME_MIN
  {
  }

  /** Builds that panic on overflow lower every calculable window exactly. */
  lemma CheckedWindowsAreExact(anchor: string, c: Clause)
    requires ClauseWindow(true, anchor, c).Value?
    ensures Lowered(true, anchor, c).Calculable? && Says(Lowered(true, anchor, c), c)
  {
    hide TimeOf, Written, Wrap, AnchorOffset, Says;
    OffsetMeaning(true, anchor, c.start, 0);
    OffsetMeaning(true, anchor, c.end, 0);
    SaysIff(true, anchor, c, Lowered(true, anchor, c));
  }

  const TIME_OF_A := Field(Ident("a"), "time")

  const FAR := Binary(Sub, TIME_OF_A, DurationLit(TIME_MAX))

  const FARTHEST := Binary(Sub, FAR, DurationLit(1))

  lemma FarthestOffset(checked: bool)
    ensures AnchorOffset(checked, "a", TIME_OF_A) == Value(0)
    ensures AnchorOffset(checked, "a", FARTHEST) == Value(TIME_MIN) && Written(FARTHEST) == TIME_MIN
  {
    assert AnchorOffset(checked, "a", FAR) == Value(-TIME_MAX) && Written(FAR) == -TIME_MAX;
  }

  /** Wrap-around lets a start of `-2^63` ms through as a window without a past. */
  lemma WrappedBackIsLost() returns (anchor: string, c: Clause)
    ensures Fits(false, anchor, c, 0) && Lowered(false, anchor, c) == Calculable(0, 0)
    ensures Written(c.start) == TIME_MIN && ClauseWindow(true, anchor, c) == Panicked
  {
    hide AnchorOffset, Written, Wrap;
    anchor, c := "a", Clause("b", Field(Ident("b"), "time"), FARTHEST, TIME_OF_A);
    FarthestOffset(false);
    FarthestOffset(true);
    WrapOfMin();
  }

  // ----- acceptance is what the engine needs -----

  ghost predicate Lowers(checked: bool, source: WindowedRule, rule: Rule)
  {
    && |source.clauses| == |rule.correlates|
    && forall j :: 0 <= j < |source.clauses| ==> rule.correlates[j].window == Lowered(checked, source.anchor, source.clauses[j])
  }

  ghost predicate LowersAll(checked: bool, sources: seq<WindowedRule>, rules: seq<Rule>)
  {
    |sources| == |rules| && forall i :: 0 <= i < |rules| ==> Lowers(checked, sources[i], rules[i])
  }

  lemma {:induction false} SameRuleForward(checked: bool, anchor: string, clauses: seq<Clause>, cs: seq<Correlate>)
    requires |clauses| == |cs|
    requires forall j :: 0 <= j < |cs| ==> cs[j].window == Lowered(checked, anchor, clauses[j])
    ensures RuleForward(checked, anchor, clauses) == MaxForward(cs)
  {
    if cs != [] { SameRuleForward(checked, anchor, clauses[..|cs| - 1], cs[..|cs| - 1]); }
  }

  /** The verifier's slack is the engine's flush bound. */
  lemma {:induction false} SameForward(checked: bool, sources: seq<WindowedRule>, rules: seq<Rule>)
    requires LowersAll(checked, sources, rules)
    ensures RulesetForward(checked, sources) == ImageMaxForward(rules)
  {
    if rules != [] {
      var n := |rules| - 1;
      SameForward(checked, sources[..n], rules[..n]);
      SameRuleForward(checked, sources[n].anchor, sources[n].clauses, rules[n].correlates);
    }
  }

  /** An accepted ruleset lowers to rules without runtime windows, whose windows leave the
      longest forward window of slack below the lookback. */
  lemma AcceptedIsWithinLookback(checked: bool, sources: seq<WindowedRule>, rules: seq<Rule>, maxLookback: Duration)
    requires LowersAll(checked, sources, rules)
    requires forall k, c :: k in sources && c in k.clauses ==>
               AcceptedClause(checked, k.anchor, c, AllowedWindow(checked, sources, maxLookback))
    ensures WithinLookback(rules, maxLookback)
    ensures forall r, c :: r in rules && c in r.correlates ==> c.window.Calculable?
  {
    hide ImageMaxForward, RulesetForward, FitsLookback, Lowered, AcceptedClause;
    SameForward(checked, sources, rules);
    forall r, c | r in rules && c in r.correlates
      ensures c.window.Calculable? && FitsLookback(c.window, ImageMaxForward(rules), maxLookback)
    {
      var i :| 0 <= i < |rules| && rules[i] == r;
      var j :| 0 <= j < |r.correlates| && r.correlates[j] == c;
      var k, clause := sources[i], sources[i].clauses[j];
      assert Lowers(checked, k, r) && k in sources && clause in k.clauses;
      LoweredFits(checked, k.anchor, clause, RulesetForward(checked, sources), maxLookback);
    }
  }

  lemma LoweredFits(checked: bool, anchor: string, c: Clause, forward: Duration, maxLookback: Duration)
    requires AcceptedClause(checked, anchor, c, Clamp(maxLookback - forward))
    ensures Lowered(checked, anchor, c).Calculable? && FitsLookback(Lowered(checked, anchor, c), forward, maxLookback)
  {
    hide AnchorOffset, Wrap;
    ForwardIsNonNegative(checked, anchor, c);
  }

  lemma ForwardIsNonNegative(checked: bool, anchor: string, c: Clause)
    requires ClauseWindow(checked, anchor, c).Value?
    ensures ClauseWindow(checked, anchor, c).value.1 >= 0
  {
  }
}
