/** The expression grammar, as a relation between trees and token strings with a table of
    operators of its own.  The ladder reads the longest phrase at the front of its tokens, and
    nothing else. */
module AdglGrammar {
  import opened AdglAst
  import opened AdglLadder

  // ----- the grammar -----

  predicate Spells(op: BinaryOp, t: Token)
  {
    match op
    case Or => t == OrOr || t == Kw("or")
    case And => t == AndAnd || t == Kw("and")
    case Eq => t == EqEq
    case Ne => t == NotEq
    case Lt => t == Token.Lt
    case Le => t == Token.Le
    case Gt => t == Token.Gt
    case Ge => t == Token.Ge
    case In => t == Kw("in")
    case Add => t == Plus
    case Sub => t == Minus
    case Mul => t == Star
    case Div => t == Slash
    case Rem => t == Percent
  }

  /** How tightly an operator binds: `or`, `and`, comparisons, sums, products. */
  function Rank(op: BinaryOp): nat
  {
    if op.Or? then 0
    else if op.And? then 1
    else if op.Add? || op.Sub? then 3
    else if op.Mul? || op.Div? || op.Rem? then 4
    else 2
  }

  const PREFIX: nat := 5
  const SUFFIX: nat := 6

  /** `event`, `Cause` and `Problem` are names as well as keywords. */
  predicate Names(t: Token, name: string)
  {
    t == IdentTok(name) || (t == Kw(name) && (name == "event" || name == "Cause" || name == "Problem"))
  }

  /** `ts` is `e` written out so that it binds at least as tightly as `level`: in parentheses,
      or as its own construct, operators of one rank grouping to the left. */
  ghost predicate Phrase(level: nat, e: Expr, ts: seq<Token>)
    decreases |ts|, 3
  {
    InParens(e, ts) || Written(level, e, ts)
  }

  ghost predicate InParens(e: Expr, ts: seq<Token>)
    decreases |ts|, 2
  {
    |ts| >= 2 && ts[0] == LParen && ts[|ts| - 1] == RParen && Phrase(0, e, ts[1..|ts| - 1])
  }

  ghost predicate Written(level: nat, e: Expr, ts: seq<Token>)
    decreases |ts|, 2
  {
    match e
    case IntLit(v) => ts == [IntTok(v)]
    case DurationLit(v) => ts == [DurTok(v)]
    case StringLit(s) => ts == [StrTok(s)]
    case BoolLit(b) => ts == [Kw(if b then "true" else "false")]
    case Ident(name) => |ts| == 1 && Names(ts[0], name)
    case Present(name) => |ts| == 4 && ts[0] == Kw("present") && ts[1] == LParen && Names(ts[2], name) && ts[3] == RParen
    case Absent(name) => |ts| == 4 && ts[0] == Kw("absent") && ts[1] == LParen && Names(ts[2], name) && ts[3] == RParen
    case Not(x) => level <= PREFIX && ts != [] && (ts[0] == Bang || ts[0] == Kw("not")) && Phrase(PREFIX, x, ts[1..])
    case Binary(op, l, r) => level <= Rank(op) && exists i :: JoinedAt(op, l, r, ts, i)
    case Field(b, name) => exists i :: FieldAt(b, name, ts, i)
    case Call(c, args) => exists i :: CalledAt(c, args, ts, i)
    case Index(b, x) => exists i :: IndexedAt(b, x, ts, i)
  }

  ghost predicate FieldAt(b: Expr, name: string, ts: seq<Token>, i: int)
    decreases |ts|, 1
  {
    0 <= i && i + 2 == |ts| && ts[i] == Dot && Names(ts[i + 1], name) && Phrase(SUFFIX, b, ts[..i])
  }

  ghost predicate JoinedAt(op: BinaryOp, l: Expr, r: Expr, ts: seq<Token>, i: int)
    decreases |ts|, 1
  {
    0 <= i < |ts| && Spells(op, ts[i]) && Phrase(Rank(op), l, ts[..i]) && Phrase(Rank(op) + 1, r, ts[i + 1..])
  }

  ghost predicate CalledAt(c: Expr, args: seq<Expr>, ts: seq<Token>, i: int)
    decreases |ts|, 1
  {
    0 <= i < |ts| - 1 && ts[i] == LParen && ts[|ts| - 1] == RParen && Phrase(SUFFIX, c, ts[..i]) && Listed(args, ts[i + 1..|ts| - 1])
  }

  ghost predicate IndexedAt(b: Expr, x: Expr, ts: seq<Token>, i: int)
    decreases |ts|, 1
  {
    0 <= i < |ts| - 1 && ts[i] == LBracket && ts[|ts| - 1] == RBracket && Phrase(SUFFIX, b, ts[..i]) && Phrase(0, x, ts[i + 1..|ts| - 1])
  }

  /** Expressions separated by commas. */
  ghost predicate Listed(args: seq<Expr>, ts: seq<Token>)
    decreases |ts|, 5
  {
    if args == [] then ts == []
    else if |args| == 1 then Phrase(0, args[0], ts)
    else exists i :: CommaAt(args, ts, i)
  }

  ghost predicate CommaAt(args: seq<Expr>, ts: seq<Token>, i: int)
    requires args != []
    decreases |ts|, 4
  {
    0 <= i < |ts| && ts[i] == Comma && Phrase(0, args[0], ts[..i]) && Listed(args[1..], ts[i + 1..])
  }

  /** `t` cannot continue an expression. */
  ghost predicate Ends(t: Token)
  {
    t != Dot && t != LParen && t != LBracket && forall op :: !Spells(op, t)
  }

  // ----- the operator tables agree -----

  lemma OpAtSpells(m: nat, t: Token, op: BinaryOp)
    requires m < UNARY && OpAt(m, t) == [op]
    ensures Spells(op, t)
  {
  }

  /** `t` continues no operand of a level above `level`. */
  ghost predicate Quiet(level: nat, t: Token)
  {
    !StartsSuffix(t) && forall m :: level < m < UNARY ==> OpAt(m, t) == []
  }

  lemma SpelledIsQuiet(op: BinaryOp, t: Token)
    requires Spells(op, t)
    ensures OpAt(Rank(op), t) == [op] && Quiet(Rank(op), t) && t != Eof
  {
    forall m | Rank(op) < m < UNARY ensures OpAt(m, t) == [] { SpelledAtRank(op, t, m); }
    SpelledAtRank(op, t, Rank(op));
  }

  lemma SpelledAtRank(op: BinaryOp, t: Token, m: nat)
    requires Spells(op, t) && m < UNARY
    ensures OpAt(m, t) == if m == Rank(op) then [op] else []
  {
    match op
    case Or =>
    case And =>
    case In =>
    case _ =>
  }

  lemma EndsIsQuiet(t: Token)
    ensures Ends(t) <==> Quiet(0, t) && OpAt(0, t) == []
  {
    hide OpAt, Spells;
    if Quiet(0, t) && OpAt(0, t) == [] {
      forall op ensures !Spells(op, t) { if Spells(op, t) { SpelledIsQuiet(op, t); } }
    } else if Ends(t) {
      forall m | 0 <= m < UNARY ensures OpAt(m, t) == [] {
        if OpAt(m, t) != [] { AtMostOne(m, t); OpAtSpells(m, t, OpAt(m, t)[0]); }
      }
    }
  }

  lemma AtMostOne(m: nat, t: Token)
    ensures |OpAt(m, t)| <= 1
  {
  }

  // ----- one step of the ladder, whatever the tokens inside are -----

  lemma PostfixStops(e: Expr, k: seq<Token>)
    requires !StartsSuffix(Head(k))
    ensures PostfixLoop(e, k) == Ok(e, k)
  {
  }

  lemma UnaryFromPostfix(ts: seq<Token>, e: Expr, k: seq<Token>)
    requires ts != [] && !IsNot(ts[0]) && !StartsSuffix(Head(k))
    requires ParsePostfix(ts) == PostfixLoop(e, k)
    ensures ParseUnary(ts) == Ok(e, k)
  {
    PostfixStops(e, k);
  }

  /** A complete operand at level `m` is one at every lower level, where its loop goes on. */
  lemma {:induction false} Climb(m: nat, level: nat, ts: seq<Token>, e: Expr, k: seq<Token>)
    requires level < m <= UNARY && Quiet(level, Head(k))
    requires ParseLevel(m, ts) == Ok(e, k)
    ensures ParseLevel(level, ts) == BinaryLoop(level, e, k)
    decreases m - level
  {
    hide ParseLevel, BinaryLoop, OpAt;
    if level + 1 < m {
      Climb(m, level + 1, ts, e, k);
      LoopEnds(level + 1, e, k);
    }
    Rung(level, ts);
  }

  lemma UnaryIsTopLevel(ts: seq<Token>)
    ensures ParseLevel(UNARY, ts) == ParseUnary(ts)
  {
  }

  lemma ParenStep(e: Expr, inner: seq<Token>, k: seq<Token>)
    requires ParseLevel(0, inner) == Ok(e, [RParen] + k)
    ensures ParsePostfix([LParen] + inner) == PostfixLoop(e, k)
  {
    hide PostfixLoop, ParseLevel;
    assert ([LParen] + inner)[1..] == inner && ([RParen] + k)[1..] == k;
  }

  lemma AtomStep(e: Expr, ts: seq<Token>, k: seq<Token>)
    requires ParsePrimary(ts) == Ok(e, k)
    ensures ParsePostfix(ts) == PostfixLoop(e, k)
  {
  }

  lemma NameStep(t: Token, name: string, k: seq<Token>)
    requires Names(t, name)
    ensures ParseIdent([t] + k) == Ok(name, k)
  {
    assert ([t] + k)[1..] == k;
  }

  lemma FieldStep(b: Expr, t: Token, name: string, k: seq<Token>)
    requires Names(t, name)
    ensures PostfixLoop(b, [Dot, t] + k) == PostfixLoop(Field(b, name), k)
  {
    hide ParseLevel, ParseArgs, ParseIdent;
    NameStep(t, name, k);
    assert ([Dot, t] + k)[1..] == [t] + k;
  }

  lemma CallStep(c: Expr, args: seq<Expr>, inner: seq<Token>, k: seq<Token>)
    requires ParseArgs(inner) == Ok(args, k)
    ensures PostfixLoop(c, [LParen] + inner) == PostfixLoop(Call(c, args), k)
  {
    hide ParseLevel, ParseArgs, ParseIdent;
    assert ([LParen] + inner)[1..] == inner;
  }

  lemma IndexStep(b: Expr, x: Expr, inner: seq<Token>, k: seq<Token>)
    requires ParseLevel(0, inner) == Ok(x, [RBracket] + k)
    ensures PostfixLoop(b, [LBracket] + inner) == PostfixLoop(Index(b, x), k)
  {
    hide ParseLevel, ParseArgs, ParseIdent;
    assert ([LBracket] + inner)[1..] == inner && ([RBracket] + k)[1..] == k;
  }

  lemma BinaryStep(op: BinaryOp, t: Token, l: Expr, r: Expr, inner: seq<Token>, k: seq<Token>)
    requires Spells(op, t) && ParseLevel(Rank(op) + 1, inner) == Ok(r, k)
    ensures BinaryLoop(Rank(op), l, [t] + inner) == BinaryLoop(Rank(op), Binary(op, l, r), k)
  {
    hide ParseLevel, BinaryLoop, OpAt;
    SpelledIsQuiet(op, t);
    assert ([t] + inner)[1..] == inner;
    LoopRung(Rank(op), l, [t] + inner);
  }

  lemma NotStep(t: Token, x: Expr, inner: seq<Token>, k: seq<Token>)
    requires (t == Bang || t == Kw("not")) && ParseUnary(inner) == Ok(x, k)
    ensures ParseUnary([t] + inner) == Ok(Not(x), k)
  {
    assert ([t] + inner)[1..] == inner;
  }

  lemma ArgsStep(e: Expr, inner: seq<Token>, more: seq<Token>)
    requires inner != [] && inner[0] != RParen && ParseLevel(0, inner) == Ok(e, more)
    ensures ParseArgs(inner) == ArgsLoop([e], more)
  {
  }

  lemma CommaStep(seen: seq<Expr>, e: Expr, inner: seq<Token>, more: seq<Token>)
    requires ParseLevel(0, inner) == Ok(e, more)
    ensures ArgsLoop(seen, [Comma] + inner) == ArgsLoop(seen + [e], more)
  {
    hide ParseLevel;
    assert ([Comma] + inner)[1..] == inner;
  }

  lemma LastArg(seen: seq<Expr>, k: seq<Token>)
    ensures ArgsLoop(seen, [RParen] + k) == Ok(seen, k)
  {
    hide ParseLevel;
    assert ([RParen] + k)[1..] == k;
  }

  // ----- every phrase is read -----

  /** Phrases start with a token that no prefix operator is, unless they are one. */
  lemma {:induction false} PhraseStarts(level: nat, e: Expr, ts: seq<Token>)
    requires Phrase(level, e, ts)
    ensures ts != [] && ts[0] != RParen && (level == SUFFIX ==> !IsNot(ts[0]))
    decreases |ts|
  {
    hide Spells, Names, Listed;
    if !InParens(e, ts) {
      assert Written(level, e, ts);
      match e
      case Binary(op, l, r) =>
        var i :| JoinedAt(op, l, r, ts, i);
        PhraseStarts(Rank(op), l, ts[..i]);
      case Field(b, name) =>
        var i :| FieldAt(b, name, ts, i);
        PhraseStarts(SUFFIX, b, ts[..i]);
      case Call(c, args) =>
        var i :| CalledAt(c, args, ts, i);
        PhraseStarts(SUFFIX, c, ts[..i]);
      case Index(b, x) =>
        var i :| IndexedAt(b, x, ts, i);
        PhraseStarts(SUFFIX, b, ts[..i]);
      case _ => AtomStarts(level, e, ts);
    }
  }

  lemma AtomStarts(level: nat, e: Expr, ts: seq<Token>)
    requires Written(level, e, ts) && !e.Binary? && !e.Field? && !e.Call? && !e.Index?
    ensures ts != [] && ts[0] != RParen && (level == SUFFIX ==> !IsNot(ts[0]))
  {
    hide Phrase;
  }

  lemma AtomIsRead(e: Expr, ts: seq<Token>, k: seq<Token>)
    requires Written(SUFFIX, e, ts) && !e.Not? && !e.Binary? && !e.Field? && !e.Call? && !e.Index?
    ensures ParsePrimary(ts + k) == Ok(e, k)
  {
    hide ParseLevel, Phrase, InParens;
    if e.Present? || e.Absent? {
      assert (ts + k)[2..] == [ts[2]] + ([RParen] + k) && ([RParen] + k)[1..] == k;
      NameStep(ts[2], e.name, [RParen] + k);
      assert Head((ts + k)[1..]) == LParen;
    } else {
      assert ts == [ts[0]] && (ts + k)[1..] == k;
    }
  }

  lemma {:induction false} SuffixIsRead(e: Expr, ts: seq<Token>, k: seq<Token>)
    requires Phrase(SUFFIX, e, ts)
    ensures ParsePostfix(ts + k) == PostfixLoop(e, k)
    decreases |ts|, 2
  {
    hide ParsePostfix, PostfixLoop, ParseLevel, ParsePrimary, BinaryLoop;
    if InParens(e, ts) {
      ParensAreRead(e, ts, k);
    } else if e.Field? {
      assert Written(SUFFIX, e, ts);
      var i :| FieldAt(e.base, e.field, ts, i);
      SuffixIsRead(e.base, ts[..i], [Dot, ts[i + 1]] + k);
      FieldStep(e.base, ts[i + 1], e.field, k);
      assert ts + k == ts[..i] + ([Dot, ts[i + 1]] + k);
    } else if e.Call? {
      CallIsRead(e.callee, e.args, ts, k);
    } else if e.Index? {
      IndexIsRead(e.base, e.index, ts, k);
    } else {
      AtomIsRead(e, ts, k);
      AtomStep(e, ts + k, k);
    }
  }

  lemma {:induction false} ParensAreRead(e: Expr, ts: seq<Token>, k: seq<Token>)
    requires InParens(e, ts)
    ensures ParsePostfix(ts + k) == PostfixLoop(e, k)
    decreases |ts|, 1
  {
    hide ParsePostfix, PostfixLoop, ParseLevel, Phrase;
    var inner := ts[1..|ts| - 1];
    EndOfInner(RParen, k);
    WholeIsRead(e, inner, [RParen] + k);
    ParenStep(e, inner + ([RParen] + k), k);
    assert ts + k == [LParen] + (inner + ([RParen] + k));
  }

  lemma EndOfInner(t: Token, k: seq<Token>)
    requires t == RParen || t == RBracket || t == Comma
    ensures Ends(Head([t] + k))
  {
  }

  lemma {:induction false} CallIsRead(c: Expr, args: seq<Expr>, ts: seq<Token>, k: seq<Token>)
    requires Written(SUFFIX, Call(c, args), ts)
    ensures ParsePostfix(ts + k) == PostfixLoop(Call(c, args), k)
    decreases |ts|, 1
  {
    hide ParsePostfix, PostfixLoop, ParseArgs, Phrase, Listed;
    var i :| CalledAt(c, args, ts, i);
    var inner := ts[i + 1..|ts| - 1] + ([RParen] + k);
    SuffixIsRead(c, ts[..i], [LParen] + inner);
    ListIsRead(args, ts[i + 1..|ts| - 1], k);
    CallStep(c, args, inner, k);
    assert ts + k == ts[..i] + ([LParen] + inner);
  }

  lemma {:induction false} IndexIsRead(b: Expr, x: Expr, ts: seq<Token>, k: seq<Token>)
    requires Written(SUFFIX, Index(b, x), ts)
    ensures ParsePostfix(ts + k) == PostfixLoop(Index(b, x), k)
    decreases |ts|, 1
  {
    hide ParsePostfix, PostfixLoop, ParseLevel, Phrase, Ends;
    var i :| IndexedAt(b, x, ts, i);
    var inner := ts[i + 1..|ts| - 1] + ([RBracket] + k);
    SuffixIsRead(b, ts[..i], [LBracket] + inner);
    EndOfInner(RBracket, k);
    WholeIsRead(x, ts[i + 1..|ts| - 1], [RBracket] + k);
    IndexStep(b, x, inner, k);
    assert ts + k == ts[..i] + ([LBracket] + inner);
  }

  lemma {:induction false} PrefixIsRead(e: Expr, ts: seq<Token>, k: seq<Token>)
    requires Phrase(PREFIX, e, ts) && !StartsSuffix(Head(k))
    ensures ParseUnary(ts + k) == Ok(e, k)
    decreases |ts|, 3
  {
    hide ParseUnary, ParsePostfix, PostfixLoop, StartsSuffix;
    if !InParens(e, ts) && e.Not? {
      PrefixIsRead(e.operand, ts[1..], k);
      NotStep(ts[0], e.operand, ts[1..] + k, k);
      assert ts + k == [ts[0]] + (ts[1..] + k);
    } else {
      TightPhrase(e, ts);
      PhraseStarts(SUFFIX, e, ts);
      SuffixIsRead(e, ts, k);
      UnaryFromPostfix(ts + k, e, k);
    }
  }

  /** A phrase that is no bare `!` or operator can take a suffix. */
  lemma TightPhrase(e: Expr, ts: seq<Token>)
    requires Phrase(PREFIX, e, ts) && (InParens(e, ts) || !e.Not?)
    ensures Phrase(SUFFIX, e, ts)
  {
  }

  lemma {:induction false} LevelIsRead(level: nat, e: Expr, ts: seq<Token>, k: seq<Token>)
    requires level < UNARY && Phrase(level, e, ts) && Quiet(level, Head(k))
    ensures ParseLevel(level, ts + k) == BinaryLoop(level, e, k)
    decreases |ts|, 20 - level
  {
    hide ParseLevel, BinaryLoop, ParseUnary, OpAt;
    if InParens(e, ts) || !e.Binary? {
      LoosePhrase(level, e, ts);
      PrefixIsRead(e, ts, k);
      UnaryIsTopLevel(ts + k);
      Climb(UNARY, level, ts + k, e, k);
    } else if Rank(e.op) > level {
      LevelIsRead(level + 1, e, ts, k);
      LoopEnds(level + 1, e, k);
      Climb(level + 1, level, ts + k, e, k);
    } else {
      BinaryIsRead(e, ts, k);
    }
  }

  lemma LoosePhrase(level: nat, e: Expr, ts: seq<Token>)
    requires Phrase(level, e, ts) && (InParens(e, ts) || !e.Binary?) && level <= PREFIX
    ensures Phrase(PREFIX, e, ts)
  {
  }

  /** The left-associative step: the loop of the left operand picks up the operator. */
  lemma {:induction false} BinaryIsRead(e: Expr, ts: seq<Token>, k: seq<Token>)
    requires e.Binary? && Written(Rank(e.op), e, ts) && Quiet(Rank(e.op), Head(k))
    ensures ParseLevel(Rank(e.op), ts + k) == BinaryLoop(Rank(e.op), e, k)
    decreases |ts|, 1
  {
    hide ParseLevel, BinaryLoop, ParseUnary, Phrase, OpAt, Quiet;
    var level := Rank(e.op);
    var i :| JoinedAt(e.op, e.left, e.right, ts, i);
    var inner := ts[i + 1..] + k;
    SpelledIsQuiet(e.op, ts[i]);
    assert Head([ts[i]] + inner) == ts[i];
    LevelIsRead(level, e.left, ts[..i], [ts[i]] + inner);
    RightIsRead(level, e.right, ts[i + 1..], k);
    BinaryStep(e.op, ts[i], e.left, e.right, inner, k);
    assert ts + k == ts[..i] + ([ts[i]] + inner);
  }

  lemma {:induction false} RightIsRead(level: nat, r: Expr, ts: seq<Token>, k: seq<Token>)
    requires level < UNARY && Phrase(level + 1, r, ts) && Quiet(level, Head(k))
    ensures ParseLevel(level + 1, ts + k) == Ok(r, k)
    decreases |ts|, 30
  {
    hide ParseLevel, BinaryLoop, ParseUnary, Phrase, OpAt;
    if level + 1 < UNARY {
      LevelIsRead(level + 1, r, ts, k);
      LoopEnds(level + 1, r, k);
    } else {
      PrefixIsRead(r, ts, k);
      UnaryIsTopLevel(ts + k);
    }
  }

  lemma {:induction false} WholeIsRead(e: Expr, ts: seq<Token>, k: seq<Token>)
    requires Phrase(0, e, ts) && Ends(Head(k))
    ensures ParseLevel(0, ts + k) == Ok(e, k)
    decreases |ts|, 40
  {
    hide ParseLevel, BinaryLoop, Phrase;
    EndsIsQuiet(Head(k));
    LevelIsRead(0, e, ts, k);
    LoopEnds(0, e, k);
  }

  lemma {:induction false} ListIsRead(args: seq<Expr>, ts: seq<Token>, k: seq<Token>)
    requires Listed(args, ts)
    ensures ParseArgs(ts + ([RParen] + k)) == Ok(args, k)
    decreases |ts|, 50
  {
    hide ParseLevel, ParseArgs, ArgsLoop, Phrase, Ends;
    var end := [RParen] + k;
    EndOfInner(RParen, k);
    if args == [] {
      NoArgs(k);
      assert ts + end == end;
    } else if |args| == 1 {
      PhraseStarts(0, args[0], ts);
      WholeIsRead(args[0], ts, end);
      ArgsStep(args[0], ts + end, end);
      LastArg([args[0]], k);
      assert args == [args[0]];
    } else {
      SomeAreRead(args, ts, k);
    }
  }

  lemma NoArgs(k: seq<Token>)
    ensures ParseArgs([RParen] + k) == Ok([], k)
  {
    assert ([RParen] + k)[1..] == k;
  }

  lemma {:induction false} SomeAreRead(args: seq<Expr>, ts: seq<Token>, k: seq<Token>)
    requires Listed(args, ts) && |args| > 1
    ensures ParseArgs(ts + ([RParen] + k)) == Ok(args, k)
    decreases |ts|, 49
  {
    hide ParseLevel, ParseArgs, ArgsLoop, Phrase, Ends;
    var i :| CommaAt(args, ts, i);
    var more := [Comma] + (ts[i + 1..] + ([RParen] + k));
    EndOfInner(Comma, ts[i + 1..] + ([RParen] + k));
    PhraseStarts(0, args[0], ts[..i]);
    WholeIsRead(args[0], ts[..i], more);
    ArgsStep(args[0], ts[..i] + more, more);
    MoreIsRead([args[0]], args[1..], ts[i + 1..], k);
    assert ts + ([RParen] + k) == ts[..i] + more && [args[0]] + args[1..] == args;
  }

  /** The arguments after a comma. */
  lemma {:induction false} MoreIsRead(seen: seq<Expr>, args: seq<Expr>, ts: seq<Token>, k: seq<Token>)
    requires args != [] && Listed(args, ts)
    ensures ArgsLoop(seen, [Comma] + (ts + ([RParen] + k))) == Ok(seen + args, k)
    decreases |ts|, 50
  {
    hide ParseLevel, ArgsLoop, Phrase, Ends;
    var end := [RParen] + k;
    EndOfInner(RParen, k);
    if |args| == 1 {
      WholeIsRead(args[0], ts, end);
      CommaStep(seen, args[0], ts + end, end);
      LastArg(seen + [args[0]], k);
      assert args == [args[0]];
    } else {
      var i :| CommaAt(args, ts, i);
      var more := [Comma] + (ts[i + 1..] + end);
      EndOfInner(Comma, ts[i + 1..] + end);
      WholeIsRead(args[0], ts[..i], more);
      assert ts + end == ts[..i] + more;
      CommaStep(seen, args[0], ts + end, more);
      MoreIsRead(seen + [args[0]], args[1..], ts[i + 1..], k);
      assert seen + [args[0]] + args[1..] == seen + args;
    }
  }

  // ----- everything read is a phrase -----

  /** `used` is what a reader took from the front of `ts`. */
  predicate Took(ts: seq<Token>, used: seq<Token>, rest: seq<Token>) { ts == used + rest }

  lemma {:induction false} LevelReads(level: nat, ts: seq<Token>) returns (used: seq<Token>)
    requires level <= UNARY && ParseLevel(level, ts).Ok?
    ensures var r := ParseLevel(level, ts);
            Took(ts, used, r.rest) && Phrase(level, r.value, used) && !StartsSuffix(Head(r.rest))
            && forall m :: level <= m < UNARY ==> OpAt(m, Head(r.rest)) == []
    decreases |ts|, 10 - level
  {
    hide ParseLevel, BinaryLoop, ParseUnary, Phrase, OpAt, StartsSuffix;
    if level == UNARY {
      UnaryIsTopLevel(ts);
      used := UnaryReads(ts);
    } else {
      Rung(level, ts);
      var left := ParseLevel(level + 1, ts);
      used := LevelReads(level + 1, ts);
      Loosen(level, left.value, used);
      var more := LoopReads(level, left.value, used, left.rest);
      used := used + more;
    }
  }

  lemma Loosen(level: nat, e: Expr, ts: seq<Token>)
    requires Phrase(level + 1, e, ts)
    ensures Phrase(level, e, ts)
  {
  }

  lemma {:induction false} LoopReads(level: nat, left: Expr, before: seq<Token>, ts: seq<Token>) returns (used: seq<Token>)
    requires level < UNARY && Phrase(level, left, before) && BinaryLoop(level, left, ts).Ok?
    requires !StartsSuffix(Head(ts)) && forall m :: level < m < UNARY ==> OpAt(m, Head(ts)) == []
    ensures var r := BinaryLoop(level, left, ts);
            Took(ts, used, r.rest) && Phrase(level, r.value, before + used) && !StartsSuffix(Head(r.rest))
            && forall m :: level <= m < UNARY ==> OpAt(m, Head(r.rest)) == []
    decreases |ts|, 0
  {
    hide ParseLevel, BinaryLoop, Phrase, OpAt, StartsSuffix;
    if OpAt(level, Head(ts)) == [] {
      LoopEnds(level, left, ts);
      used := [];
      assert before + used == before;
    } else {
      NoOpAtEof(level);
      LoopRung(level, left, ts);
      AtMostOne(level, ts[0]);
      var op, right := OpAt(level, ts[0])[0], ParseLevel(level + 1, ts[1..]);
      var inner := LevelReads(level + 1, ts[1..]);
      OpAtIsSpelled(level, ts[0], op);
      Join(op, left, right.value, before, ts[0], inner);
      var more := LoopReads(level, Binary(op, left, right.value), before + [ts[0]] + inner, right.rest);
      used := [ts[0]] + inner + more;
      assert before + [ts[0]] + inner + more == before + used;
      assert ts == [ts[0]] + ts[1..];
    }
  }

  lemma OpAtIsSpelled(m: nat, t: Token, op: BinaryOp)
    requires m < UNARY && OpAt(m, t) == [op]
    ensures Spells(op, t) && Rank(op) == m
  {
  }

  lemma Join(op: BinaryOp, l: Expr, r: Expr, before: seq<Token>, t: Token, after: seq<Token>)
    requires Spells(op, t) && Phrase(Rank(op), l, before) && Phrase(Rank(op) + 1, r, after)
    ensures Phrase(Rank(op), Binary(op, l, r), before + [t] + after)
  {
    hide Spells;
    var ts := before + [t] + after;
    assert ts[..|before|] == before && ts[|before| + 1..] == after;
    assert JoinedAt(op, l, r, ts, |before|);
    assert Written(Rank(op), Binary(op, l, r), ts);
  }

  lemma {:induction false} UnaryReads(ts: seq<Token>) returns (used: seq<Token>)
    requires ParseUnary(ts).Ok?
    ensures var r := ParseUnary(ts); Took(ts, used, r.rest) && Phrase(PREFIX, r.value, used) && !StartsSuffix(Head(r.rest))
    decreases |ts|, 3
  {
    hide ParsePostfix, PostfixLoop, ParsePrimary, Phrase, StartsSuffix;
    if ts != [] && IsNot(ts[0]) {
      var inner := UnaryReads(ts[1..]);
      used := [ts[0]] + inner;
      assert ts == [ts[0]] + ts[1..];
      Prefix(ts[0], ParseUnary(ts[1..]).value, inner);
    } else {
      used := PostfixReads(ts);
      Loosen(PREFIX, ParsePostfix(ts).value, used);
    }
  }

  lemma Prefix(t: Token, x: Expr, inner: seq<Token>)
    requires IsNot(t) && Phrase(PREFIX, x, inner)
    ensures Phrase(PREFIX, Not(x), [t] + inner)
  {
    assert ([t] + inner)[1..] == inner;
    assert Written(PREFIX, Not(x), [t] + inner);
  }

  lemma {:induction false} PostfixReads(ts: seq<Token>) returns (used: seq<Token>)
    requires ParsePostfix(ts).Ok?
    ensures var r := ParsePostfix(ts); Took(ts, used, r.rest) && Phrase(SUFFIX, r.value, used) && !StartsSuffix(Head(r.rest))
    decreases |ts|, 2
  {
    hide PostfixLoop, ParsePrimary, Phrase, StartsSuffix;
    var e := ParsePrimary(ts);
    used := PrimaryReads(ts);
    var more := SuffixesRead(e.value, used, e.rest);
    used := used + more;
  }

  lemma {:induction false} SuffixesRead(e: Expr, before: seq<Token>, ts: seq<Token>) returns (used: seq<Token>)
    requires Phrase(SUFFIX, e, before) && PostfixLoop(e, ts).Ok?
    ensures var r := PostfixLoop(e, ts); Took(ts, used, r.rest) && Phrase(SUFFIX, r.value, before + used) && !StartsSuffix(Head(r.rest))
    decreases |ts|, 1
  {
    hide ParseSuffix, Phrase;
    if ts == [] || !StartsSuffix(ts[0]) {
      used := [];
      assert before + used == before;
    } else {
      var next := ParseSuffix(e, ts);
      var one := OneSuffixReads(e, before, ts);
      var more := SuffixesRead(next.value, before + one, next.rest);
      used := one + more;
      assert before + one + more == before + used;
    }
  }

  lemma {:induction false} OneSuffixReads(e: Expr, before: seq<Token>, ts: seq<Token>) returns (used: seq<Token>)
    requires Phrase(SUFFIX, e, before) && ts != [] && StartsSuffix(ts[0]) && ParseSuffix(e, ts).Ok?
    ensures var r := ParseSuffix(e, ts); Took(ts, used, r.rest) && Phrase(SUFFIX, r.value, before + used)
    decreases |ts|, 0
  {
    hide ParseLevel, ParseArgs, ParseIdent, Phrase, Listed;
    assert ts == [ts[0]] + ts[1..];
    if ts[0] == Dot {
      used := ts[..2];
      NameIsRead(ts[1..]);
      AttachField(e, before, ts[1], ParseIdent(ts[1..]).value);
      assert used == [Dot, ts[1]];
    } else if ts[0] == LParen {
      var inner := ArgsRead(ts[1..]);
      used := [LParen] + inner + [RParen];
      AttachArgs(e, ParseArgs(ts[1..]).value, before, inner);
    } else {
      var inner := LevelReads(0, ts[1..]);
      used := [LBracket] + inner + [RBracket];
      var x := ParseLevel(0, ts[1..]);
      AttachIndex(e, x.value, before, inner);
      assert x.rest == [RBracket] + x.rest[1..];
    }
  }

  lemma NameIsRead(ts: seq<Token>)
    requires ParseIdent(ts).Ok?
    ensures ts != [] && Names(ts[0], ParseIdent(ts).value) && ts == [ts[0]] + ParseIdent(ts).rest
  {
  }

  lemma AttachField(e: Expr, before: seq<Token>, t: Token, name: string)
    requires Phrase(SUFFIX, e, before) && Names(t, name)
    ensures Phrase(SUFFIX, Field(e, name), before + [Dot, t])
  {
    var ts := before + [Dot, t];
    assert ts[..|before|] == before;
    assert FieldAt(e, name, ts, |before|);
    assert Written(SUFFIX, Field(e, name), ts);
  }

  lemma AttachArgs(e: Expr, args: seq<Expr>, before: seq<Token>, inner: seq<Token>)
    requires Phrase(SUFFIX, e, before) && Listed(args, inner)
    ensures Phrase(SUFFIX, Call(e, args), before + ([LParen] + inner + [RParen]))
  {
    hide Listed;
    var ts := before + ([LParen] + inner + [RParen]);
    assert ts[..|before|] == before && ts[|before| + 1..|ts| - 1] == inner;
    assert CalledAt(e, args, ts, |before|);
    assert Written(SUFFIX, Call(e, args), ts);
  }

  lemma AttachIndex(e: Expr, x: Expr, before: seq<Token>, inner: seq<Token>)
    requires Phrase(SUFFIX, e, before) && Phrase(0, x, inner)
    ensures Phrase(SUFFIX, Index(e, x), before + ([LBracket] + inner + [RBracket]))
  {
    var ts := before + ([LBracket] + inner + [RBracket]);
    assert ts[..|before|] == before && ts[|before| + 1..|ts| - 1] == inner;
    assert IndexedAt(e, x, ts, |before|);
    assert Written(SUFFIX, Index(e, x), ts);
  }

  lemma {:induction false} ArgsRead(ts: seq<Token>) returns (used: seq<Token>)
    requires ParseArgs(ts).Ok?
    ensures var r := ParseArgs(ts); Took(ts, used + [RParen], r.rest) && Listed(r.value, used)
    decreases |ts|, 20
  {
    hide ParseLevel, ArgsLoop, Phrase;
    if Head(ts) == RParen {
      used := [];
      assert ts == [RParen] + ts[1..];
    } else {
      used := LevelReads(0, ts);
      var e := ParseLevel(0, ts);
      var more := MoreArgsRead([e.value], used, e.rest);
      used := used + more;
    }
  }

  lemma {:induction false} MoreArgsRead(args: seq<Expr>, before: seq<Token>, ts: seq<Token>) returns (used: seq<Token>)
    requires args != [] && Listed(args, before) && ArgsLoop(args, ts).Ok?
    ensures var r := ArgsLoop(args, ts); Took(ts, used + [RParen], r.rest) && Listed(r.value, before + used)
    decreases |ts|, 0
  {
    hide ParseLevel, Phrase, Listed, ArgsLoop;
    ArgsLoopStep(args, ts);
    if Head(ts) == Comma {
      var e := ParseLevel(0, ts[1..]);
      var inner := LevelReads(0, ts[1..]);
      ListSnoc(args, before, e.value, inner);
      var more := MoreArgsRead(args + [e.value], before + [Comma] + inner, e.rest);
      used := [Comma] + inner + more;
      assert before + [Comma] + inner + more == before + used;
      assert ts == [Comma] + ts[1..];
    } else {
      used := [];
      assert before + used == before && ts == [RParen] + ts[1..];
    }
  }

  lemma ArgsLoopStep(args: seq<Expr>, ts: seq<Token>)
    requires ArgsLoop(args, ts).Ok?
    ensures if Head(ts) == Comma then
              var e := ParseLevel(0, ts[1..]); e.Ok? && ArgsLoop(args, ts) == ArgsLoop(args + [e.value], e.rest)
            else ts != [] && ts[0] == RParen && ArgsLoop(args, ts) == Ok(args, ts[1..])
  {
    hide ParseLevel;
  }

  lemma {:induction false} ListSnoc(args: seq<Expr>, before: seq<Token>, e: Expr, inner: seq<Token>)
    requires args != [] && Listed(args, before) && Phrase(0, e, inner)
    ensures Listed(args + [e], before + [Comma] + inner)
    decreases |args|
  {
    hide Phrase;
    var all, ts := args + [e], before + [Comma] + inner;
    if |args| == 1 {
      assert all[1..] == [e] && ts[..|before|] == before && ts[|before| + 1..] == inner;
      assert CommaAt(all, ts, |before|);
    } else {
      var i :| CommaAt(args, before, i);
      ListSnoc(args[1..], before[i + 1..], e, inner);
      assert all[1..] == args[1..] + [e] && ts[..i] == before[..i] && ts[i + 1..] == before[i + 1..] + [Comma] + inner;
      assert CommaAt(all, ts, i);
    }
  }

  lemma {:induction false} PrimaryReads(ts: seq<Token>) returns (used: seq<Token>)
    requires ParsePrimary(ts).Ok?
    ensures var r := ParsePrimary(ts); Took(ts, used, r.rest) && Phrase(SUFFIX, r.value, used)
    decreases |ts|, 1
  {
    hide ParseLevel, Phrase, ParsePrimary, Written;
    if Head(ts) == LParen {
      ParensAtFront(ts);
      var e := ParseLevel(0, ts[1..]);
      var inner := LevelReads(0, ts[1..]);
      used := [LParen] + inner + [RParen];
      PutInParens(e.value, inner);
      assert ts == [ts[0]] + ts[1..] && e.rest == [RParen] + e.rest[1..];
    } else if Head(ts) == Kw("present") || Head(ts) == Kw("absent") {
      used := NamedAtomReads(ts);
    } else {
      used := PlainAtomReads(ts);
    }
  }

  lemma ParensAtFront(ts: seq<Token>)
    requires Head(ts) == LParen && ParsePrimary(ts).Ok?
    ensures var r := ParseLevel(0, ts[1..]); r.Ok? && Head(r.rest) == RParen && ParsePrimary(ts) == Ok(r.value, r.rest[1..])
  {
    hide ParseLevel;
  }

  lemma PutInParens(e: Expr, inner: seq<Token>)
    requires Phrase(0, e, inner)
    ensures Phrase(SUFFIX, e, [LParen] + inner + [RParen])
  {
    hide Written;
    var ts := [LParen] + inner + [RParen];
    assert ts[1..|ts| - 1] == inner;
    assert InParens(e, ts);
  }

  lemma PlainAtomReads(ts: seq<Token>) returns (used: seq<Token>)
    requires ParsePrimary(ts).Ok? && Head(ts) != LParen && Head(ts) != Kw("present") && Head(ts) != Kw("absent")
    ensures var r := ParsePrimary(ts); Took(ts, used, r.rest) && Phrase(SUFFIX, r.value, used)
  {
    hide ParseLevel, InParens;
    used := [ts[0]];
    assert Written(SUFFIX, ParsePrimary(ts).value, used);
  }

  lemma NamedAtomReads(ts: seq<Token>) returns (used: seq<Token>)
    requires ParsePrimary(ts).Ok? && (Head(ts) == Kw("present") || Head(ts) == Kw("absent"))
    ensures var r := ParsePrimary(ts); Took(ts, used, r.rest) && Phrase(SUFFIX, r.value, used)
  {
    hide ParseIdent, Phrase, Written;
    var id := NamedAtomParts(ts);
    NameIsRead(ts[2..]);
    used := [ts[0], LParen, ts[2], RParen];
    NamedIsWritten(if ts[0] == Kw("present") then Present(id.value) else Absent(id.value), ts[0], ts[2], id.value);
    assert id.rest == [RParen] + id.rest[1..] && ts == [ts[0], LParen] + ts[2..];
  }

  lemma NamedAtomParts(ts: seq<Token>) returns (id: Result<string>)
    requires ParsePrimary(ts).Ok? && (Head(ts) == Kw("present") || Head(ts) == Kw("absent"))
    ensures |ts| >= 2 && ts[1] == LParen && id == ParseIdent(ts[2..]) && id.Ok? && Head(id.rest) == RParen
    ensures ParsePrimary(ts) == Ok(if ts[0] == Kw("present") then Present(id.value) else Absent(id.value), id.rest[1..])
  {
    hide ParseLevel, ParseIdent;
    id := ParseIdent(ts[2..]);
  }

  lemma NamedIsWritten(e: Expr, kw: Token, t: Token, name: string)
    requires Names(t, name) && ((e == Present(name) && kw == Kw("present")) || (e == Absent(name) && kw == Kw("absent")))
    ensures Phrase(SUFFIX, e, [kw, LParen, t, RParen])
  {
    hide InParens, Names;
    assert Written(SUFFIX, e, [kw, LParen, t, RParen]);
  }

  // ----- the ladder reads exactly the grammar -----

  /** What is in front of `rest` is `e` written out, and `rest` cannot continue it. */
  ghost predicate ReadAs(e: Expr, ts: seq<Token>, rest: seq<Token>)
  {
    Ends(Head(rest)) && exists used :: Took(ts, used, rest) && Phrase(0, e, used)
  }

  /** The ladder reads tokens as `e` up to `rest` exactly in that case. */
  lemma ReadsExactly(ts: seq<Token>, e: Expr, rest: seq<Token>)
    ensures ReadAs(e, ts, rest) <==> ParseLevel(0, ts) == Ok(e, rest)
  {
    hide ParseLevel, Phrase, Ends;
    EndsIsQuiet(Head(rest));
    if ParseLevel(0, ts) == Ok(e, rest) {
      var used := LevelReads(0, ts);
      assert Took(ts, used, rest) && Phrase(0, e, used);
    }
    if ReadAs(e, ts, rest) {
      var used :| Took(ts, used, rest) && Phrase(0, e, used);
      WholeIsRead(e, used, rest);
    }
  }

  lemma EndOfInput()
    ensures Ends(Head([]))
  {
  }

  /** So a token string is one expression at most. */
  lemma OneReading(a: Expr, b: Expr, ts: seq<Token>)
    requires Phrase(0, a, ts) && Phrase(0, b, ts)
    ensures a == b
  {
    hide ParseLevel, Phrase, Ends;
    EndOfInput();
    WholeIsRead(a, ts, []);
    WholeIsRead(b, ts, []);
  }
}
