/** The expression ladder of crates/airpulse_dsl-syntax/src/parser.rs as functions on tokens. */
module AdglLadder {
  import opened AdglAst

  datatype Token =
    | IntTok(value: int) | DurTok(millis: int) | StrTok(text: string) | IdentTok(name: string) | Kw(name: string)
    | LParen | RParen | LBracket | RBracket | LBrace | RBrace | Colon | Comma | Dot | Assign
    | Plus | Minus | Star | Slash | Percent | Bang
    | Lt | Le | Gt | Ge | EqEq | NotEq | AndAnd | OrOr
    | Eof

  const KEYWORDS: set<string> := {
    "ruleset", "version", "requires", "mutually_exclusive", "evidence", "decision", "scope", "anchor",
    "correlate", "having", "infer", "emit", "action", "if", "else", "present", "absent", "and", "or", "not",
    "Cause", "Problem", "event", "in", "true", "false"
  }

  predicate IsKeyword(name: string) { name in KEYWORDS }

  // Keywords that may also stand for an identifier.
  predicate SoftKeyword(name: string) { name == "event" || name == "Cause" || name == "Problem" }

  /** Tokens the lexer can produce. */
  predicate Lexed(t: Token)
  {
    match t
    case IntTok(v) => v >= 0
    case DurTok(v) => v >= 0
    case IdentTok(name) => !IsKeyword(name)
    case Kw(name) => IsKeyword(name)
    case _ => true
  }

  ghost predicate AllLexed(ts: seq<Token>) { forall t :: t in ts ==> Lexed(t) }

  datatype ParseError = UnexpectedToken | ReservedKeyword | ExpectedPrimary

  datatype Result<T> = Ok(value: T, rest: seq<Token>) | Err(error: ParseError)

  function Head(ts: seq<Token>): Token { if ts == [] then Eof else ts[0] }

  /** The binary ladder: 0 `or`, 1 `and`, 2 comparisons, 3 additive, 4 multiplicative. */
  const UNARY: nat := 5

  function OpAt(level: nat, t: Token): seq<BinaryOp>
  {
    match t
    case OrOr => if level == 0 then [Or] else []
    case AndAnd => if level == 1 then [And] else []
    case EqEq => if level == 2 then [Eq] else []
    case NotEq => if level == 2 then [BinaryOp.Ne] else []
    case Lt => if level == 2 then [BinaryOp.Lt] else []
    case Le => if level == 2 then [BinaryOp.Le] else []
    case Gt => if level == 2 then [BinaryOp.Gt] else []
    case Ge => if level == 2 then [BinaryOp.Ge] else []
    case Plus => if level == 3 then [Add] else []
    case Minus => if level == 3 then [Sub] else []
    case Star => if level == 4 then [Mul] else []
    case Slash => if level == 4 then [Div] else []
    case Percent => if level == 4 then [Rem] else []
    case Kw(name) =>
      if level == 0 && name == "or" then [Or]
      else if level == 1 && name == "and" then [And]
      else if level == 2 && name == "in" then [In]
      else []
    case _ => []
  }

  predicate IsNot(t: Token) { t == Bang || t == Kw("not") }

  /** `parse_expr` is level 0; level 5 is `parse_unary`. */
  function ParseLevel(level: nat, ts: seq<Token>): (r: Result<Expr>)
    requires level <= UNARY
    ensures r.Ok? ==> |r.rest| < |ts|
    decreases |ts|, 10 - level
  {
    if level == UNARY then ParseUnary(ts)
    else
      match ParseLevel(level + 1, ts)
      case Err(e) => Err(e)
      case Ok(left, rest) => BinaryLoop(level, left, rest)
  }

  function BinaryLoop(level: nat, left: Expr, ts: seq<Token>): (r: Result<Expr>)
    requires level < UNARY
    ensures r.Ok? ==> |r.rest| <= |ts|
    decreases |ts|, 0
  {
    if ts == [] || OpAt(level, ts[0]) == [] then Ok(left, ts)
    else
      match ParseLevel(level + 1, ts[1..])
      case Err(e) => Err(e)
      case Ok(right, rest) => BinaryLoop(level, Binary(OpAt(level, ts[0])[0], left, right), rest)
  }

  lemma {:induction false} Rung(level: nat, ts: seq<Token>)
    requires level < UNARY
    ensures var r := ParseLevel(level + 1, ts);
            ParseLevel(level, ts) == if r.Ok? then BinaryLoop(level, r.value, r.rest) else r
  {
    hide ParseUnary, BinaryLoop, OpAt;
  }

  lemma {:induction false} LoopRung(level: nat, left: Expr, ts: seq<Token>)
    requires level < UNARY && ts != [] && OpAt(level, ts[0]) != []
    ensures var r := ParseLevel(level + 1, ts[1..]);
            BinaryLoop(level, left, ts) == if r.Ok? then BinaryLoop(level, Binary(OpAt(level, ts[0])[0], left, r.value), r.rest) else r
  {
    hide ParseUnary, ParseLevel, OpAt;
  }

  lemma NoOpAtEof(level: nat)
    ensures OpAt(level, Eof) == []
  {
  }

  lemma LoopEnds(level: nat, left: Expr, ts: seq<Token>)
    requires level < UNARY && OpAt(level, Head(ts)) == []
    ensures BinaryLoop(level, left, ts) == Ok(left, ts)
  {
    hide ParseUnary, ParseLevel;
  }

  function ParseUnary(ts: seq<Token>): (r: Result<Expr>)
    ensures r.Ok? ==> |r.rest| < |ts|
    decreases |ts|, 3
  {
    if ts != [] && IsNot(ts[0]) then
      match ParseUnary(ts[1..])
      case Err(e) => Err(e)
      case Ok(inner, rest) => Ok(Not(inner), rest)
    else ParsePostfix(ts)
  }

  function ParsePostfix(ts: seq<Token>): (r: Result<Expr>)
    ensures r.Ok? ==> |r.rest| < |ts|
    decreases |ts|, 2
  {
    match ParsePrimary(ts)
    case Err(e) => Err(e)
    case Ok(e, rest) => PostfixLoop(e, rest)
  }

  predicate StartsSuffix(t: Token) { t == Dot || t == LParen || t == LBracket }

  function PostfixLoop(e: Expr, ts: seq<Token>): (r: Result<Expr>)
    ensures r.Ok? ==> |r.rest| <= |ts|
    decreases |ts|, 1
  {
    if ts == [] || !StartsSuffix(ts[0]) then Ok(e, ts)
    else
      match ParseSuffix(e, ts)
      case Err(x) => Err(x)
      case Ok(e', rest) => PostfixLoop(e', rest)
  }

  /** One `.field`, `(args)` or `[index]`. */
  function ParseSuffix(e: Expr, ts: seq<Token>): (r: Result<Expr>)
    requires ts != [] && StartsSuffix(ts[0])
    ensures r.Ok? ==> |r.rest| < |ts|
    decreases |ts|, 0
  {
    match ts[0]
    case Dot =>
      (match ParseIdent(ts[1..])
       case Err(x) => Err(x)
       case Ok(name, rest) => Ok(Field(e, name), rest))
    case LParen =>
      (match ParseArgs(ts[1..])
       case Err(x) => Err(x)
       case Ok(args, rest) => Ok(Call(e, args), rest))
    case LBracket =>
      (match ParseLevel(0, ts[1..])
       case Err(x) => Err(x)
       case Ok(index, rest) =>
         if Head(rest) == RBracket then Ok(Index(e, index), rest[1..]) else Err(UnexpectedToken))
  }

  /** `parse_ident_any`. */
  function ParseIdent(ts: seq<Token>): (r: Result<string>)
    ensures r.Ok? ==> |r.rest| < |ts|
  {
    match Head(ts)
    case IdentTok(name) => Ok(name, ts[1..])
    case Kw(name) => if SoftKeyword(name) then Ok(name, ts[1..]) else Err(ReservedKeyword)
    case _ => Err(UnexpectedToken)
  }

  /** The rest of `parse_paren_expr_list` after its `(`. */
  function ParseArgs(ts: seq<Token>): (r: Result<seq<Expr>>)
    ensures r.Ok? ==> |r.rest| < |ts|
    decreases |ts|, 20
  {
    if Head(ts) == RParen then Ok([], ts[1..])
    else
      match ParseLevel(0, ts)
      case Err(x) => Err(x)
      case Ok(e, rest) => ArgsLoop([e], rest)
  }

  function ArgsLoop(args: seq<Expr>, ts: seq<Token>): (r: Result<seq<Expr>>)
    ensures r.Ok? ==> |r.rest| < |ts|
    decreases |ts|, 0
  {
    if Head(ts) == Comma then
      match ParseLevel(0, ts[1..])
      case Err(x) => Err(x)
      case Ok(e, rest) => ArgsLoop(args + [e], rest)
    else if Head(ts) == RParen then Ok(args, ts[1..])
    else Err(UnexpectedToken)
  }

  function ParsePrimary(ts: seq<Token>): (r: Result<Expr>)
    ensures r.Ok? ==> |r.rest| < |ts|
    decreases |ts|, 1
  {
    match Head(ts)
    case IntTok(v) => Ok(IntLit(v), ts[1..])
    case DurTok(v) => Ok(DurationLit(v), ts[1..])
    case StrTok(s) => Ok(StringLit(s), ts[1..])
    case IdentTok(name) => Ok(Ident(name), ts[1..])
    case Kw(name) =>
      if name == "true" then Ok(BoolLit(true), ts[1..])
      else if name == "false" then Ok(BoolLit(false), ts[1..])
      else if name == "present" || name == "absent" then
        if Head(ts[1..]) != LParen then Err(UnexpectedToken)
        else
          match ParseIdent(ts[2..])
          case Err(x) => Err(x)
          case Ok(id, rest) =>
            if Head(rest) != RParen then Err(UnexpectedToken)
            else Ok(if name == "present" then Present(id) else Absent(id), rest[1..])
      else if SoftKeyword(name) then Ok(Ident(name), ts[1..])
      else Err(ExpectedPrimary)
    case LParen =>
      (match ParseLevel(0, ts[1..])
       case Err(x) => Err(x)
       case Ok(e, rest) => if Head(rest) == RParen then Ok(e, rest[1..]) else Err(UnexpectedToken))
    case _ => Err(ExpectedPrimary)
  }

  // ----- which trees the parser builds -----

  predicate NameOk(name: string) { !IsKeyword(name) || SoftKeyword(name) }

  /** Trees with lexable literals and names. */
  predicate WellFormed(e: Expr)
  {
    match e
    case IntLit(v) => v >= 0
    case DurationLit(v) => v >= 0
    case StringLit(_) => true
    case BoolLit(_) => true
    case Ident(name) => NameOk(name)
    case Present(name) => NameOk(name)
    case Absent(name) => NameOk(name)
    case Not(x) => WellFormed(x)
    case Binary(_, l, r) => WellFormed(l) && WellFormed(r)
    case Field(b, name) => WellFormed(b) && NameOk(name)
    case Call(c, args) => WellFormed(c) && forall a :: a in args ==> WellFormed(a)
    case Index(b, i) => WellFormed(b) && WellFormed(i)
  }
}
