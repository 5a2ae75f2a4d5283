/** Where a parse fails and with which error, told from the tokens around the place. */
module AdglFaults {
  import opened AdglAst
  import opened AdglLadder
  import opened AdglGrammar

  function At(ts: seq<Token>, n: int): Token { if 0 <= n < |ts| then ts[n] else Eof }

  predicate Probe(t: Token) { t == Kw("present") || t == Kw("absent") }

  predicate IsName(t: Token) { t.IdentTok? || t == Kw("event") || t == Kw("Cause") || t == Kw("Problem") }

  /** Behind a dot, and between the parentheses of `present` and `absent`, a name is due. */
  predicate NameDue(ts: seq<Token>, n: nat)
  {
    n >= 1 && (At(ts, n - 1) == Dot || (At(ts, n - 1) == LParen && Probe(At(ts, n - 2))))
  }

  /** At the start, and behind an operator or an opening or separating token, an operand. */
  ghost predicate OperandDue(ts: seq<Token>, n: nat)
  {
    !NameDue(ts, n) && (n == 0 || Precedes(At(ts, n - 1)))
  }

  ghost predicate Precedes(t: Token)
  {
    t == LParen || t == LBracket || t == Comma || t == Bang || t == Kw("not") || exists op :: Spells(op, t)
  }

  predicate Literal(t: Token) { t.IntTok? || t.DurTok? || t.StrTok? || t == Kw("true") || t == Kw("false") }

  predicate Starts(t: Token) { Literal(t) || IsName(t) || Probe(t) || t == LParen || t == Bang || t == Kw("not") }

  /** The last token of an operand. */
  predicate Closes(t: Token) { Literal(t) || IsName(t) || t == RParen || t == RBracket }

  /** The token at `n`, or the end of the input there, cannot stand behind those before it, and
      `x` is the error for that. */
  ghost predicate Misplaced(ts: seq<Token>, n: nat, x: ParseError)
  {
    match x
    case ReservedKeyword => NameDue(ts, n) && At(ts, n).Kw? && !IsName(At(ts, n))
    case ExpectedPrimary => OperandDue(ts, n) && !Starts(At(ts, n))
    case UnexpectedToken =>
      || (NameDue(ts, n) && !At(ts, n).Kw? && !IsName(At(ts, n)))
      || (Probe(At(ts, n - 1)) && At(ts, n) != LParen)
      || (n >= 2 && NameDue(ts, n - 1) && At(ts, n - 2) == LParen && At(ts, n) != RParen)
      || (Closes(At(ts, n - 1)) && Ends(At(ts, n)))
  }

  /** A result that leaves the tokens from `n` on, or an error about the one at `n`. */
  ghost predicate StopsAt<T>(r: Result<T>, ts: seq<Token>, n: nat)
  {
    n <= |ts| && match r
                 case Ok(_, rest) => n >= 1 && rest == ts[n..] && Closes(ts[n - 1])
                 case Err(x) => Misplaced(ts, n, x)
  }

  /** A parse that fails does so at some token that is misplaced in the way its error says. */
  lemma FailureIsMisplaced(ts: seq<Token>) returns (n: nat)
    requires ParseLevel(0, ts).Err?
    ensures n <= |ts| && Misplaced(ts, n, ParseLevel(0, ts).error)
  {
    hide ParseLevel, Misplaced;
    n := LevelStops(0, ts, 0);
    assert ts[0..] == ts;
  }

  lemma {:induction false} LevelStops(level: nat, ts: seq<Token>, i: nat) returns (n: nat)
    requires level <= UNARY && i <= |ts| && OperandDue(ts, i)
    ensures StopsAt(ParseLevel(level, ts[i..]), ts, n)
    decreases |ts| - i, 10 - level
  {
    hide Misplaced, OperandDue, ParseLevel, BinaryLoop, ParseUnary, Closes;
    if level == UNARY {
      UnaryIsTopLevel(ts[i..]);
      n := UnaryStops(ts, i);
    } else {
      Rung(level, ts[i..]);
      n := LevelStops(level + 1, ts, i);
      var r := ParseLevel(level + 1, ts[i..]);
      if r.Ok? { n := LoopStops(level, r.value, ts, n); }
    }
  }

  lemma {:induction false} LoopStops(level: nat, left: Expr, ts: seq<Token>, i: nat) returns (n: nat)
    requires level < UNARY && 1 <= i <= |ts| && Closes(ts[i - 1])
    ensures StopsAt(BinaryLoop(level, left, ts[i..]), ts, n)
    decreases |ts| - i, 0
  {
    hide Misplaced, ParseLevel, BinaryLoop, OpAt, Closes;
    NoOpAtEof(level);
    if i == |ts| || OpAt(level, ts[i]) == [] {
      LoopEnds(level, left, ts[i..]);
      n := i;
    } else {
      LoopRung(level, left, ts[i..]);
      OperatorIsDue(level, ts, i);
      assert ts[i..][1..] == ts[i + 1..];
      n := LevelStops(level + 1, ts, i + 1);
      var r := ParseLevel(level + 1, ts[i + 1..]);
      if r.Ok? { n := LoopStops(level, Binary(OpAt(level, ts[i])[0], left, r.value), ts, n); }
    }
  }

  lemma OperatorIsDue(level: nat, ts: seq<Token>, i: nat)
    requires level < UNARY && i < |ts| && OpAt(level, ts[i]) != []
    ensures OperandDue(ts, i + 1)
  {
    hide OpAt, Spells;
    AtMostOne(level, ts[i]);
    OpAtSpells(level, ts[i], OpAt(level, ts[i])[0]);
    OperatorIsNoParen(OpAt(level, ts[i])[0], ts[i]);
  }

  lemma OperatorIsNoParen(op: BinaryOp, t: Token)
    requires Spells(op, t)
    ensures t != Dot && t != LParen
  {
  }

  lemma {:induction false} UnaryStops(ts: seq<Token>, i: nat) returns (n: nat)
    requires i <= |ts| && OperandDue(ts, i)
    ensures StopsAt(ParseUnary(ts[i..]), ts, n)
    decreases |ts| - i, 3
  {
    hide Misplaced, ParsePostfix, Closes;
    if i < |ts| && IsNot(ts[i]) {
      assert ts[i..][1..] == ts[i + 1..];
      assert ts[i] == Bang || ts[i] == Kw("not");
      n := UnaryStops(ts, i + 1);
    } else {
      n := PostfixStopsAt(ts, i);
    }
  }

  lemma {:induction false} PostfixStopsAt(ts: seq<Token>, i: nat) returns (n: nat)
    requires i <= |ts| && OperandDue(ts, i) && !IsNot(At(ts, i))
    ensures StopsAt(ParsePostfix(ts[i..]), ts, n)
    decreases |ts| - i, 2
  {
    hide Misplaced, OperandDue, ParsePrimary, PostfixLoop, Closes;
    n := PrimaryStops(ts, i);
    var r := ParsePrimary(ts[i..]);
    if r.Ok? { n := SuffixesStop(r.value, ts, n); }
  }

  lemma {:induction false} SuffixesStop(e: Expr, ts: seq<Token>, i: nat) returns (n: nat)
    requires 1 <= i <= |ts| && Closes(ts[i - 1])
    ensures StopsAt(PostfixLoop(e, ts[i..]), ts, n)
    decreases |ts| - i, 1
  {
    hide Misplaced, ParseSuffix, Closes;
    n := i;
    if i < |ts| && StartsSuffix(ts[i]) {
      n := SuffixStops(e, ts, i);
      var r := ParseSuffix(e, ts[i..]);
      if r.Ok? { n := SuffixesStop(r.value, ts, n); }
    }
  }

  lemma OpenerIsDue(ts: seq<Token>, i: nat)
    requires 1 <= i <= |ts| && (ts[i - 1] == LParen || ts[i - 1] == LBracket || ts[i - 1] == Comma)
    requires ts[i - 1] == LParen ==> !Probe(At(ts, i - 2))
    ensures OperandDue(ts, i)
  {
    hide Spells;
  }

  lemma CloserIsNoProbe(t: Token)
    requires Closes(t)
    ensures !Probe(t)
  {
  }

  /** Behind a whole expression stands the token that closes it, or one that is misplaced. */
  lemma CloserStops(ts: seq<Token>, i: nat, n: nat)
    requires i <= |ts| && StopsAt(ParseLevel(0, ts[i..]), ts, n) && ParseLevel(0, ts[i..]).Ok?
    ensures Misplaced(ts, n, UnexpectedToken) && Head(ts[n..]) == At(ts, n)
  {
    hide ParseLevel, Closes, Ends, NameDue;
    ReadsExactly(ts[i..], ParseLevel(0, ts[i..]).value, ts[n..]);
  }

  lemma {:induction false} SuffixStops(e: Expr, ts: seq<Token>, i: nat) returns (n: nat)
    requires 1 <= i < |ts| && Closes(ts[i - 1]) && StartsSuffix(ts[i])
    ensures StopsAt(ParseSuffix(e, ts[i..]), ts, n)
    decreases |ts| - i, 0
  {
    hide Misplaced, ParseLevel, ParseArgs, ParseIdent, OperandDue, Closes, Probe;
    assert ts[i..][1..] == ts[i + 1..];
    CloserIsNoProbe(ts[i - 1]);
    if ts[i] == Dot {
      n := NameStops(ts, i + 1);
    } else if ts[i] == LParen {
      OpenerIsDue(ts, i + 1);
      n := ArgsStop(ts, i + 1);
    } else {
      OpenerIsDue(ts, i + 1);
      n := LevelStops(0, ts, i + 1);
      n := Closed(ts, i + 1, n, RBracket);
    }
  }

  /** What an expression in brackets leaves. */
  lemma Closed(ts: seq<Token>, i: nat, inner: nat, closer: Token) returns (n: nat)
    requires i <= |ts| && StopsAt(ParseLevel(0, ts[i..]), ts, inner) && (closer == RParen || closer == RBracket)
    ensures StopsAt(Enclosed(ParseLevel(0, ts[i..]), closer), ts, n)
  {
    hide ParseLevel, Misplaced;
    n := inner;
    if ParseLevel(0, ts[i..]).Ok? {
      CloserStops(ts, i, inner);
      if At(ts, inner) == closer { n := inner + 1; assert ts[inner..][1..] == ts[n..]; }
    }
  }

  function Enclosed(r: Result<Expr>, closer: Token): Result<Expr>
  {
    if r.Ok? then if r.rest != [] && r.rest[0] == closer then Ok(r.value, r.rest[1..]) else Err(UnexpectedToken) else r
  }

  lemma NameStops(ts: seq<Token>, i: nat) returns (n: nat)
    requires i <= |ts| && NameDue(ts, i)
    ensures StopsAt(ParseIdent(ts[i..]), ts, n) && (ParseIdent(ts[i..]).Ok? ==> n == i + 1 && IsName(ts[i]))
  {
    hide NameDue;
    n := i;
    if ParseIdent(ts[i..]).Ok? { n := i + 1; assert ts[i..][1..] == ts[n..]; }
  }

  lemma {:induction false} ArgsStop(ts: seq<Token>, i: nat) returns (n: nat)
    requires i <= |ts| && OperandDue(ts, i)
    ensures StopsAt(ParseArgs(ts[i..]), ts, n)
    decreases |ts| - i, 20
  {
    hide Misplaced, ParseLevel, ArgsLoop, OperandDue;
    if At(ts, i) == RParen {
      n := i + 1;
      assert ts[i..][1..] == ts[n..];
    } else {
      n := LevelStops(0, ts, i);
      var r := ParseLevel(0, ts[i..]);
      if r.Ok? {
        CloserStops(ts, i, n);
        n := ArgsLoopStops([r.value], ts, n);
      }
    }
  }

  lemma ArgsLoopSteps(args: seq<Expr>, ts: seq<Token>)
    ensures ArgsLoop(args, ts) == if ts != [] && ts[0] == Comma then
                                    var r := ParseLevel(0, ts[1..]);
                                    if r.Ok? then ArgsLoop(args + [r.value], r.rest) else Err(r.error)
                                  else if ts != [] && ts[0] == RParen then Ok(args, ts[1..])
                                  else Err(UnexpectedToken)
  {
    hide ParseLevel;
  }

  lemma {:induction false} ArgsLoopStops(args: seq<Expr>, ts: seq<Token>, i: nat) returns (n: nat)
    requires i <= |ts| && Misplaced(ts, i, UnexpectedToken)
    ensures StopsAt(ArgsLoop(args, ts[i..]), ts, n)
    decreases |ts| - i, 0
  {
    hide Misplaced, ParseLevel, ArgsLoop, OperandDue;
    ArgsLoopSteps(args, ts[i..]);
    n := i;
    if At(ts, i) == RParen {
      n := i + 1;
      assert ts[i..][1..] == ts[n..];
    } else if At(ts, i) == Comma {
      assert ts[i..][1..] == ts[i + 1..];
      OpenerIsDue(ts, i + 1);
      n := LevelStops(0, ts, i + 1);
      var r := ParseLevel(0, ts[i + 1..]);
      if r.Ok? {
        CloserStops(ts, i + 1, n);
        n := ArgsLoopStops(args + [r.value], ts, n);
      }
    }
  }

  lemma {:induction false} PrimaryStops(ts: seq<Token>, i: nat) returns (n: nat)
    requires i <= |ts| && OperandDue(ts, i) && !IsNot(At(ts, i))
    ensures StopsAt(ParsePrimary(ts[i..]), ts, n)
    decreases |ts| - i, 1
  {
    hide Misplaced, ParseLevel, ParseIdent, OperandDue;
    if At(ts, i) == LParen {
      assert ts[i..][1..] == ts[i + 1..];
      ParenIsDue(ts, i);
      n := LevelStops(0, ts, i + 1);
      n := Closed(ts, i + 1, n, RParen);
    } else if Probe(At(ts, i)) {
      n := ProbeStops(ts, i);
    } else if Literal(At(ts, i)) || IsName(At(ts, i)) {
      n := i + 1;
      assert ts[i..][1..] == ts[n..];
    } else {
      n := i;
      NoOperand(ts, i);
    }
  }

  lemma ParenIsDue(ts: seq<Token>, i: nat)
    requires i < |ts| && OperandDue(ts, i) && ts[i] == LParen
    ensures OperandDue(ts, i + 1)
  {
    if i >= 1 && Probe(ts[i - 1]) { ProbePrecedesNone(ts[i - 1]); }
  }

  lemma ProbePrecedesNone(t: Token)
    requires Probe(t)
    ensures !Precedes(t)
  {
  }

  lemma NoOperand(ts: seq<Token>, i: nat)
    requires OperandDue(ts, i) && !IsNot(At(ts, i)) && At(ts, i) != LParen && !Probe(At(ts, i)) && !Literal(At(ts, i)) && !IsName(At(ts, i))
    ensures Misplaced(ts, i, ExpectedPrimary)
  {
    hide OperandDue;
  }

  /** `present` or `absent` with what should follow. */
  lemma ProbeStops(ts: seq<Token>, i: nat) returns (n: nat)
    requires i < |ts| && Probe(ts[i])
    ensures StopsAt(ParsePrimary(ts[i..]), ts, n)
  {
    hide ParseLevel, ParseIdent, OperandDue, Ends;
    n := i + 1;
    assert ts[i..][1..] == ts[i + 1..];
    if At(ts, i + 1) == LParen {
      assert ts[i..][2..] == ts[i + 2..];
      n := NameStops(ts, i + 2);
      if ParseIdent(ts[i + 2..]).Ok? {
        if At(ts, i + 3) == RParen { n := i + 4; assert ts[i + 3..][1..] == ts[n..]; }
      }
    }
  }
}
