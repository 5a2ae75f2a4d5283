/** Printing expressions with the precedences of crates/ndsl-fmt/src/adgl.rs: the tokens
    printed, their round trip through the parser, and where the parentheses are. */
module AdglFormatter {
  import opened AdglAst
  import opened AdglLadder
  import opened AdglGrammar

  /** `expr_prec`: higher binds tighter. */
  function Prec(e: Expr): nat
  {
    match e
    case Not(_) => 12
    case Binary(op, _, _) => BinPrec(op)
    case _ => 13
  }

  function BinPrec(op: BinaryOp): nat
  {
    match op
    case Or => 3
    case And => 4
    case Add => 11 case Sub => 11
    case Mul => 12 case Div => 12 case Rem => 12
    case _ => 8
  }

  function OpToken(op: BinaryOp): Token
  {
    match op
    case Or => Kw("or") case And => Kw("and")
    case Eq => EqEq case Ne => NotEq case Lt => Token.Lt case Le => Token.Le case Gt => Token.Gt case Ge => Token.Ge
    case In => Kw("in")
    case Add => Plus case Sub => Minus case Mul => Star case Div => Slash case Rem => Percent
  }

  /** How the lexer reads a printed word. */
  function Word(name: string): Token { if IsKeyword(name) then Kw(name) else IdentTok(name) }

  /** The tokens appended by `emit_expr(out, e, parent)`. */
  function Tokens(e: Expr, parent: nat): seq<Token>
    decreases e, 1
  {
    if Prec(e) < parent then [LParen] + BareTokens(e) + [RParen] else BareTokens(e)
  }

  function AtomTokens(e: Expr): seq<Token>
  {
    match e
    case IntLit(v) => if v >= 0 then [IntTok(v)] else [Minus, IntTok(-v)]
    case DurationLit(v) => if v >= 0 then [DurTok(v)] else [Minus, DurTok(-v)]
    case StringLit(s) => [StrTok(s)]
    case Ident(name) => [Word(name)]
    case BoolLit(b) => [Kw(if b then "true" else "false")]
    case Present(name) => [Kw("present"), LParen, Word(name), RParen]
    case Absent(name) => [Kw("absent"), LParen, Word(name), RParen]
    case _ => []
  }

  function BareTokens(e: Expr): seq<Token>
    decreases e, 0
  {
    match e
    case Not(x) => [Bang] + Tokens(x, 13)
    case Binary(op, l, r) => Tokens(l, BinPrec(op)) + [OpToken(op)] + Tokens(r, BinPrec(op) + 1)
    case Field(b, name) => Tokens(b, 13) + [Dot, Word(name)]
    case Call(c, args) => Tokens(c, 13) + ([LParen] + ArgTokens(args) + [RParen])
    case Index(b, i) => Tokens(b, 13) + ([LBracket] + Tokens(i, 0) + [RBracket])
    case _ => AtomTokens(e)
  }

  function ArgTokens(args: seq<Expr>): seq<Token>
    decreases args, 2
  {
    if args == [] then []
    else if |args| == 1 then Tokens(args[0], 0)
    else ArgTokens(args[..|args| - 1]) + [Comma] + Tokens(args[|args| - 1], 0)
  }

  // ----- what is printed is a phrase -----

  /** The tightest level at which `e` needs no parentheses. */
  function LevelOf(e: Expr): nat
  {
    match e
    case Not(_) => PREFIX
    case Binary(op, _, _) => Rank(op)
    case _ => SUFFIX
  }

  predicate Wrapped(e: Expr, parent: nat) { Prec(e) < parent }

  /** An operand printed at its operator's precedence is wrapped or binds as tightly as the
      operator; one more than that precedence, and it is wrapped or binds more tightly. */
  lemma PrecMatchesRank(e: Expr, op: BinaryOp)
    ensures Wrapped(e, BinPrec(op)) || LevelOf(e) >= Rank(op)
    ensures Wrapped(e, BinPrec(op) + 1) || LevelOf(e) >= Rank(op) + 1
    ensures Wrapped(e, 13) || LevelOf(e) == SUFFIX
  {
  }

  lemma OpTokenSpells(op: BinaryOp)
    ensures Spells(op, OpToken(op))
  {
  }

  lemma WordNames(name: string)
    requires NameOk(name)
    ensures Names(Word(name), name)
  {
  }

  lemma {:induction false} TokensArePhrase(level: nat, e: Expr, parent: nat)
    requires WellFormed(e) && (Wrapped(e, parent) || LevelOf(e) >= level)
    ensures Phrase(level, e, Tokens(e, parent))
    decreases e, 1
  {
    hide Phrase, WellFormed;
    if Wrapped(e, parent) {
      BareIsPhrase(0, e);
      PutInParens(e, BareTokens(e));
      Tighter(level, e, Tokens(e, parent));
    } else {
      BareIsPhrase(level, e);
    }
  }

  lemma Tighter(level: nat, e: Expr, ts: seq<Token>)
    requires InParens(e, ts)
    ensures Phrase(level, e, ts)
  {
  }

  lemma {:induction false} BareIsPhrase(level: nat, e: Expr)
    requires WellFormed(e) && LevelOf(e) >= level
    ensures Phrase(level, e, BareTokens(e))
    decreases e, 0, 3
  {
    hide Phrase, Tokens;
    if e.Not? {
      PrecMatchesRank(e.operand, Or);
      TokensArePhrase(PREFIX, e.operand, 13);
      Prefix(Bang, e.operand, Tokens(e.operand, 13));
      Looser(PREFIX, level, e, BareTokens(e));
    } else if e.Binary? {
      BinaryIsPhrase(e);
      Looser(Rank(e.op), level, e, BareTokens(e));
    } else {
      SuffixIsPhrase(e);
      Looser(SUFFIX, level, e, BareTokens(e));
    }
  }

  lemma Looser(m: nat, level: nat, e: Expr, ts: seq<Token>)
    requires Phrase(m, e, ts) && level <= m
    ensures Phrase(level, e, ts)
  {
  }

  lemma {:induction false} BinaryIsPhrase(e: Expr)
    requires e.Binary? && WellFormed(e)
    ensures Phrase(Rank(e.op), e, BareTokens(e))
    decreases e, 0, 2
  {
    hide Phrase, Tokens, Rank, BinPrec, OpToken, Wrapped, LevelOf;
    var p := BinPrec(e.op);
    PrecMatchesRank(e.left, e.op);
    PrecMatchesRank(e.right, e.op);
    TokensArePhrase(Rank(e.op), e.left, p);
    TokensArePhrase(Rank(e.op) + 1, e.right, p + 1);
    OpTokenSpells(e.op);
    Join(e.op, e.left, e.right, Tokens(e.left, p), OpToken(e.op), Tokens(e.right, p + 1));
  }

  lemma {:induction false} SuffixIsPhrase(e: Expr)
    requires !e.Not? && !e.Binary? && WellFormed(e)
    ensures Phrase(SUFFIX, e, BareTokens(e))
    decreases e, 0, 2
  {
    hide Phrase, Tokens, Word, IsKeyword;
    if e.Field? {
      PrecMatchesRank(e.base, Or);
      TokensArePhrase(SUFFIX, e.base, 13);
      WordNames(e.field);
      AttachField(e.base, Tokens(e.base, 13), Word(e.field), e.field);
    } else if e.Call? {
      PrecMatchesRank(e.callee, Or);
      TokensArePhrase(SUFFIX, e.callee, 13);
      ArgsAreListed(e.args);
      AttachArgs(e.callee, e.args, Tokens(e.callee, 13), ArgTokens(e.args));
    } else if e.Index? {
      PrecMatchesRank(e.base, Or);
      TokensArePhrase(SUFFIX, e.base, 13);
      TokensArePhrase(0, e.index, 0);
      AttachIndex(e.base, e.index, Tokens(e.base, 13), Tokens(e.index, 0));
    } else {
      AtomIsPhrase(e);
    }
  }

  lemma AtomIsPhrase(e: Expr)
    requires !e.Not? && !e.Binary? && !e.Field? && !e.Call? && !e.Index? && WellFormed(e)
    ensures Phrase(SUFFIX, e, AtomTokens(e))
  {
    hide Word, IsKeyword, InParens;
    if e.Ident? || e.Present? || e.Absent? { WordNames(e.name); }
    assert Written(SUFFIX, e, AtomTokens(e));
  }

  lemma {:induction false} ArgsAreListed(args: seq<Expr>)
    requires forall a :: a in args ==> WellFormed(a)
    ensures Listed(args, ArgTokens(args))
    decreases args, 2
  {
    hide Phrase, Tokens, WellFormed;
    if |args| == 1 {
      TokensArePhrase(0, args[0], 0);
    } else if |args| > 1 {
      var init, last := args[..|args| - 1], args[|args| - 1];
      ArgsAreListed(init);
      TokensArePhrase(0, last, 0);
      ListSnoc(init, ArgTokens(init), last, Tokens(last, 0));
      assert init + [last] == args;
    }
  }

  /** Round trip: whatever precedence the caller passes, parsing the printed tokens gives
      the tree back and leaves exactly what followed. */
  lemma RoundTrip(e: Expr, parent: nat, rest: seq<Token>)
    requires WellFormed(e) && Ends(Head(rest))
    ensures ParseLevel(0, Tokens(e, parent) + rest) == Ok(e, rest)
  {
    hide Phrase, Tokens, WellFormed, ParseLevel, Ends;
    TokensArePhrase(0, e, parent);
    WholeIsRead(e, Tokens(e, parent), rest);
  }

  /** Two trees printed alike are the same tree. */
  lemma PrintIsInjective(a: Expr, b: Expr, p: nat, q: nat)
    requires WellFormed(a) && WellFormed(b) && Tokens(a, p) == Tokens(b, q)
    ensures a == b
  {
    hide Phrase, Tokens, WellFormed;
    TokensArePhrase(0, a, p);
    TokensArePhrase(0, b, q);
    OneReading(a, b, Tokens(a, p));
  }

  // ----- where the parentheses are -----

  /** The precedence passed for an operand, and the level at which the grammar wants it: the
      left and right operands of an operator, the operand of `!`, a base, a whole expression. */
  ghost predicate Operand(parent: nat, level: nat)
  {
    || (exists op :: parent == BinPrec(op) && level == Rank(op))
    || (exists op :: parent == BinPrec(op) + 1 && level == Rank(op) + 1)
    || (parent == 13 && (level == PREFIX || level == SUFFIX))
    || (parent == 0 && level == 0)
  }

  lemma WrappedWhereLoose(e: Expr, parent: nat, level: nat)
    requires Operand(parent, level)
    ensures level <= SUFFIX && (Wrapped(e, parent) <==> LevelOf(e) < level || (e.Not? && parent == 13 && level == PREFIX))
  {
    if e.Binary? { WrappedBinary(e.op, parent, level); }
  }

  lemma WrappedBinary(inner: BinaryOp, parent: nat, level: nat)
    requires Operand(parent, level)
    ensures BinPrec(inner) < parent <==> Rank(inner) < level
  {
  }

  /** Reading a bare operator expression as an operand with suffixes stops inside it. */
  lemma {:induction false} StopsInside(e: Expr, k: seq<Token>)
    requires e.Binary? && WellFormed(e) && BareTokens(e)[..1] == [LParen]
    ensures ParsePostfix(BareTokens(e) + k).Ok? && |ParsePostfix(BareTokens(e) + k).rest| > |k|
    decreases e
  {
    hide ParsePostfix, Phrase, PostfixLoop, Rank;
    var p := BinPrec(e.op);
    var more := [OpToken(e.op)] + (Tokens(e.right, p + 1) + k);
    assert BareTokens(e) + k == Tokens(e.left, p) + more;
    LeftIsFirst(e);
    if Wrapped(e.left, p) || LevelOf(e.left) == SUFFIX {
      TokensArePhrase(SUFFIX, e.left, p);
      SuffixIsRead(e.left, Tokens(e.left, p), more);
      OpTokenSpells(e.op);
      SpelledIsQuiet(e.op, OpToken(e.op));
      PostfixStops(e.left, more);
    } else if e.left.Binary? {
      StopsInside(e.left, more);
    }
  }

  lemma LeftIsFirst(e: Expr)
    requires e.Binary? && WellFormed(e)
    ensures var left := Tokens(e.left, BinPrec(e.op)); left != [] && left[..1] == BareTokens(e)[..1]
  {
    hide Phrase, Tokens;
    PrecMatchesRank(e.left, e.op);
    TokensArePhrase(Rank(e.op), e.left, BinPrec(e.op));
    PhraseStarts(Rank(e.op), e.left, Tokens(e.left, BinPrec(e.op)));
  }

  lemma {:induction false} BareIsBare(e: Expr)
    requires WellFormed(e) && (e.Not? || e.Binary?)
    ensures !InParens(e, BareTokens(e))
  {
    hide Phrase, ParsePostfix, PostfixLoop;
    if e.Binary? && InParens(e, BareTokens(e)) {
      Tighter(SUFFIX, e, BareTokens(e));
      SuffixIsRead(e, BareTokens(e), []);
      PostfixStops(e, []);
      StopsInside(e, []);
    }
  }

  /** An operand is printed in parentheses exactly where it could not stand without, and
      besides where a `!` is the operand of `!` or the right operand of a product. */
  lemma ParensWhereNeeded(e: Expr, parent: nat, level: nat)
    requires WellFormed(e) && Operand(parent, level)
    ensures Wrapped(e, parent) <==> !Phrase(level, e, BareTokens(e)) || (e.Not? && parent == 13 && level == PREFIX)
  {
    hide BareTokens, Operand, InParens;
    WrappedWhereLoose(e, parent, level);
    if LevelOf(e) >= level { BareIsPhrase(level, e); } else { BareIsBare(e); }
  }

  // ----- the trees in question are the parser's own -----

  /** A token the lexer yields, and of the spellings of an operator the one the printer writes. */
  predicate Printable(t: Token) { Lexed(t) && t != OrOr && t != AndAnd && t != Kw("not") }

  ghost predicate AllPrintable(ts: seq<Token>) { forall t :: t in ts ==> Printable(t) }

  lemma {:induction false} PrintedIsLexed(e: Expr, parent: nat)
    requires WellFormed(e)
    ensures AllPrintable(Tokens(e, parent))
    decreases e, 1
  {
    hide IsKeyword, WellFormed;
    BareIsLexed(e);
  }

  lemma {:induction false} BareIsLexed(e: Expr)
    requires WellFormed(e)
    ensures AllPrintable(BareTokens(e))
    decreases e, 0
  {
    hide IsKeyword, Tokens;
    FixedKeywords();
    if e.Not? {
      PrintedIsLexed(e.operand, 13);
    } else if e.Binary? {
      PrintedIsLexed(e.left, BinPrec(e.op));
      PrintedIsLexed(e.right, BinPrec(e.op) + 1);
      assert Printable(OpToken(e.op));
    } else if e.Field? {
      PrintedIsLexed(e.base, 13);
    } else if e.Call? {
      PrintedIsLexed(e.callee, 13);
      ArgsAreLexed(e.args);
    } else if e.Index? {
      PrintedIsLexed(e.base, 13);
      PrintedIsLexed(e.index, 0);
    }
  }

  lemma FixedKeywords()
    ensures IsKeyword("true") && IsKeyword("false") && IsKeyword("present") && IsKeyword("absent")
    ensures IsKeyword("or") && IsKeyword("and") && IsKeyword("in")
  {
  }

  lemma {:induction false} ArgsAreLexed(args: seq<Expr>)
    requires forall a :: a in args ==> WellFormed(a)
    ensures AllPrintable(ArgTokens(args))
    decreases args, 2
  {
    hide Tokens, Printable, WellFormed;
    if |args| == 1 {
      PrintedIsLexed(args[0], 0);
    } else if |args| > 1 {
      ArgsAreLexed(args[..|args| - 1]);
      PrintedIsLexed(args[|args| - 1], 0);
      CommaIsLexed();
    }
  }

  lemma CommaIsLexed()
    ensures Printable(Comma)
  {
  }

  /** A tree is well-formed exactly when the parser builds it from some token sequence. */
  lemma WellFormedIffProducible(e: Expr)
    ensures WellFormed(e) <==> exists ts :: AllLexed(ts) && ParseLevel(0, ts) == Ok(e, [])
  {
    hide WellFormed, ParseLevel, Tokens, Phrase;
    if WellFormed(e) {
      PrintedIsLexed(e, 0);
      EndOfInput();
      RoundTrip(e, 0, []);
      assert Tokens(e, 0) + [] == Tokens(e, 0);
    }
    forall ts | AllLexed(ts) && ParseLevel(0, ts) == Ok(e, []) ensures WellFormed(e) {
      var used := LevelReads(0, ts);
      assert used == ts;
      PhraseIsWellFormed(0, e, ts);
    }
  }

  lemma {:induction false} PhraseIsWellFormed(level: nat, e: Expr, ts: seq<Token>)
    requires Phrase(level, e, ts) && AllLexed(ts)
    ensures WellFormed(e)
    decreases |ts|, 1
  {
    hide Spells;
    if InParens(e, ts) {
      PhraseIsWellFormed(0, e, ts[1..|ts| - 1]);
    } else {
      assert Written(level, e, ts);
      if e.Not? {
        PhraseIsWellFormed(PREFIX, e.operand, ts[1..]);
      } else if e.Binary? {
        var i :| JoinedAt(e.op, e.left, e.right, ts, i);
        PhraseIsWellFormed(Rank(e.op), e.left, ts[..i]);
        PhraseIsWellFormed(Rank(e.op) + 1, e.right, ts[i + 1..]);
      } else {
        SuffixIsWellFormed(e, ts);
      }
    }
  }

  lemma {:induction false} SuffixIsWellFormed(e: Expr, ts: seq<Token>)
    requires Written(SUFFIX, e, ts) && !e.Not? && !e.Binary? && AllLexed(ts)
    ensures WellFormed(e)
    decreases |ts|, 0
  {
    hide Phrase, Listed, IsKeyword;
    if e.Field? {
      var i :| FieldAt(e.base, e.field, ts, i);
      NameIsOk(ts[i + 1], e.field);
      PhraseIsWellFormed(SUFFIX, e.base, ts[..i]);
    } else if e.Call? {
      var i :| CalledAt(e.callee, e.args, ts, i);
      PhraseIsWellFormed(SUFFIX, e.callee, ts[..i]);
      ListIsWellFormed(e.args, ts[i + 1..|ts| - 1]);
    } else if e.Index? {
      var i :| IndexedAt(e.base, e.index, ts, i);
      PhraseIsWellFormed(SUFFIX, e.base, ts[..i]);
      PhraseIsWellFormed(0, e.index, ts[i + 1..|ts| - 1]);
    } else if e.Ident? {
      NameIsOk(ts[0], e.name);
    } else if e.Present? || e.Absent? {
      NameIsOk(ts[2], e.name);
    } else {
      assert Lexed(ts[0]);
    }
  }

  lemma NameIsOk(t: Token, name: string)
    requires Names(t, name) && Lexed(t)
    ensures NameOk(name)
  {
  }

  lemma {:induction false} ListIsWellFormed(args: seq<Expr>, ts: seq<Token>)
    requires Listed(args, ts) && AllLexed(ts)
    ensures forall a :: a in args ==> WellFormed(a)
    decreases |ts|, 2
  {
    hide Phrase, WellFormed;
    if |args| == 1 {
      PhraseIsWellFormed(0, args[0], ts);
    } else if |args| > 1 {
      var i :| CommaAt(args, ts, i);
      PhraseIsWellFormed(0, args[0], ts[..i]);
      ListIsWellFormed(args[1..], ts[i + 1..]);
      forall a | a in args ensures WellFormed(a) { assert a == args[0] || a in args[1..]; }
    }
  }
}
