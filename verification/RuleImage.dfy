/** The parts of a verified rule that decide when it runs: windows, correlates and anchors
    of crates/airpulse_dsl-ir/src/rule.rs. */
module RuleImage {
  import opened EventTime

  datatype Window = Calculable(back: Duration, forward: Duration) | RuntimeCheck

  datatype Source = FromEvents(kind: nat) | FromGraph(kind: nat)

  type Count = n: nat | n <= 255

  datatype Correlate = Correlate(source: Source, window: Window, minMatch: Count)

  datatype Rule = Rule(id: nat, evidence: bool, anchorKind: nat, scopeType: nat, correlates: seq<Correlate>)

  function Forward(w: Window): Duration { if w.Calculable? then w.forward else 0 }

  function MaxForward(cs: seq<Correlate>): Duration
  {
    if cs == [] then 0 else Latest(MaxForward(cs[..|cs| - 1]), Forward(cs[|cs| - 1].window))
  }

  /** The longest forward window of all rules; the end-of-stream flush uses it. */
  function ImageMaxForward(rules: seq<Rule>): Duration
  {
    if rules == [] then 0 else Latest(ImageMaxForward(rules[..|rules| - 1]), MaxForward(rules[|rules| - 1].correlates))
  }

  ghost predicate FitsLookback(w: Window, slack: Duration, lookback: Duration)
  {
    w.Calculable? ==> w.back + slack <= lookback && w.forward + slack <= lookback
  }

  /** What phase 6 establishes for the garbage collector. */
  ghost predicate WithinLookback(rules: seq<Rule>, lookback: Duration)
  {
    forall r, c :: r in rules && c in r.correlates ==> FitsLookback(c.window, ImageMaxForward(rules), lookback)
  }

  lemma {:induction false} MaxForwardBounds(cs: seq<Correlate>)
    ensures forall c :: c in cs ==> Forward(c.window) <= MaxForward(cs)
    ensures MaxForward(cs) == 0 || exists c :: c in cs && Forward(c.window) == MaxForward(cs)
  {
    if cs != [] {
      MaxForwardBounds(cs[..|cs| - 1]);
      assert cs == cs[..|cs| - 1] + [cs[|cs| - 1]];
    }
  }

  lemma {:induction false} ImageMaxForwardBounds(rules: seq<Rule>)
    ensures forall r :: r in rules ==> MaxForward(r.correlates) <= ImageMaxForward(rules)
    ensures ImageMaxForward(rules) == 0 || exists r :: r in rules && MaxForward(r.correlates) == ImageMaxForward(rules)
  {
    if rules != [] {
      ImageMaxForwardBounds(rules[..|rules| - 1]);
      assert rules == rules[..|rules| - 1] + [rules[|rules| - 1]];
    }
  }

  /** An accepted rule's windows, seen from an anchor whose forward window is still open at
      `now`, start inside the lookback horizon; so does the anchor. */
  lemma OpenWindows(rules: seq<Rule>, r: Rule, reader: Rule, c: Correlate, t: Time, lookback: Duration, now: Time)
    requires WithinLookback(rules, lookback) && r in rules && reader in rules && c in reader.correlates && c.window.Calculable?
    requires now <= Add(t, MaxForward(r.correlates))
    ensures Sub(now, lookback) <= Sub(t, c.window.back)
  {
    ImageMaxForwardBounds(rules);
    OpenWindowIsKept(t, c.window.back, MaxForward(r.correlates), lookback, now);
  }

  lemma OpenAnchor(rules: seq<Rule>, r: Rule, t: Time, lookback: Duration, now: Time)
    requires WithinLookback(rules, lookback) && r in rules
    requires now <= Add(t, MaxForward(r.correlates))
    ensures Sub(now, lookback) <= t
  {
    MaxForwardBounds(r.correlates);
    if MaxForward(r.correlates) != 0 {
      var c :| c in r.correlates && Forward(c.window) == MaxForward(r.correlates);
      assert FitsLookback(c.window, ImageMaxForward(rules), lookback);
    }
    OpenWindowIsKept(t, 0, MaxForward(r.correlates), lookback, now);
  }
}
