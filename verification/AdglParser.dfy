/** The expression parser of crates/airpulse_dsl-syntax/src/parser.rs as an object. */
module AdglParser {
  import opened AdglAst
  import opened AdglLadder
  import opened AdglGrammar
  import AdglFaults

  datatype Outcome<T> = Parsed(value: T) | Failed(error: ParseError)

  class ParserState {
    const tokens: seq<Token>
    var idx: nat

    ghost predicate Valid()
      reads this
    {
      // The lexer ends the token list with `Eof`, where the cursor stays.
      && |tokens| > 0 && tokens[|tokens| - 1] == Eof
      && (forall i :: 0 <= i < |tokens| - 1 ==> tokens[i] != Eof)
      && idx < |tokens|
    }

    /** What is left to read, without the final `Eof`. */
    ghost function Remaining(): seq<Token>
      requires Valid()
      reads this
    {
      tokens[idx..|tokens| - 1]
    }

    constructor (tokens: seq<Token>)
      requires |tokens| > 0 && tokens[|tokens| - 1] == Eof
      requires forall i :: 0 <= i < |tokens| - 1 ==> tokens[i] != Eof
      ensures Valid() && Remaining() == tokens[..|tokens| - 1]
    {
      this.tokens := tokens;
      idx := 0;
    }

    function Peek(): (t: Token)
      requires Valid()
      reads this
      ensures t == Head(Remaining())
    {
      tokens[if idx < |tokens| - 1 then idx else |tokens| - 1]
    }

    method Next()
      requires Valid()
      modifies this`idx
      ensures Valid()
      ensures Remaining() == if old(Remaining()) == [] then [] else old(Remaining())[1..]
    {
      if idx + 1 < |tokens| { idx := idx + 1; }
    }

    method ParseExpr() returns (r: Outcome<Expr>)
      requires Valid()
      modifies this`idx
      ensures Valid()
      ensures match ParseLevel(0, old(Remaining()))
              case Ok(e, rest) => r == Parsed(e) && Remaining() == rest
              case Err(x) => r == Failed(x)
      ensures r.Parsed? ==> ReadAs(r.value, old(Remaining()), Remaining())
      ensures r.Failed? ==> forall e, rest :: !ReadAs(e, old(Remaining()), rest)
      // The error fits some token, which cannot stand where it does.
      ensures r.Failed? ==> exists n: nat :: n <= |old(Remaining())| && AdglFaults.Misplaced(old(Remaining()), n, r.error)
      decreases |Remaining()|, 11
    {
      hide ParseLevel, ReadAs, AdglFaults.Misplaced;
      ghost var ts := Remaining();
      if ParseLevel(0, ts).Err? { ghost var n := AdglFaults.FailureIsMisplaced(ts); }
      forall e, rest ensures ReadAs(e, ts, rest) <==> ParseLevel(0, ts) == Ok(e, rest) { ReadsExactly(ts, e, rest); }
      r := ParseBinary(0);
    }

    /** The five `parse_logic_or` … `parse_multiplicative` loops, one per level. */
    method ParseBinary(level: nat) returns (r: Outcome<Expr>)
      requires Valid() && level <= UNARY
      modifies this`idx
      ensures Valid()
      ensures match ParseLevel(level, old(Remaining()))
              case Ok(e, rest) => r == Parsed(e) && Remaining() == rest
              case Err(x) => r == Failed(x)
      decreases |Remaining()|, 10 - level
    {
      if level == UNARY {
        r := ParseNot();
        return;
      }
      hide ParseUnary, ParseLevel, BinaryLoop, OpAt;
      Rung(level, Remaining());
      r := ParseBinary(level + 1);
      if r.Failed? { return; }
      var left := r.value;
      while OpAt(level, Peek()) != []
        invariant Valid() && |Remaining()| < |old(Remaining())|
        invariant ParseLevel(level, old(Remaining())) == BinaryLoop(level, left, Remaining())
        decreases |Remaining()|
      {
        var op := OpAt(level, Peek())[0];
        NoOpAtEof(level);
        LoopRung(level, left, Remaining());
        Next();
        r := ParseBinary(level + 1);
        if r.Failed? { return; }
        left := Binary(op, left, r.value);
      }
      LoopEnds(level, left, Remaining());
      r := Parsed(left);
    }

    method ParseNot() returns (r: Outcome<Expr>)
      requires Valid()
      modifies this`idx
      ensures Valid()
      ensures match ParseUnary(old(Remaining()))
              case Ok(e, rest) => r == Parsed(e) && Remaining() == rest
              case Err(x) => r == Failed(x)
      decreases |Remaining()|, 3
    {
      if IsNot(Peek()) {
        Next();
        r := ParseNot();
        if r.Parsed? { r := Parsed(Not(r.value)); }
      } else {
        r := ParseSuffixes();
      }
    }

    method ParseSuffixes() returns (r: Outcome<Expr>)
      requires Valid()
      modifies this`idx
      ensures Valid()
      ensures match ParsePostfix(old(Remaining()))
              case Ok(e, rest) => r == Parsed(e) && Remaining() == rest
              case Err(x) => r == Failed(x)
      decreases |Remaining()|, 2
    {
      r := ParseAtom();
      if r.Failed? { return; }
      var e := r.value;
      while StartsSuffix(Peek())
        invariant Valid() && |Remaining()| < |old(Remaining())|
        invariant ParsePostfix(old(Remaining())) == PostfixLoop(e, Remaining())
        decreases |Remaining()|
      {
        r := ParseOneSuffix(e);
        if r.Failed? { return; }
        e := r.value;
      }
      r := Parsed(e);
    }

    method ParseOneSuffix(e: Expr) returns (r: Outcome<Expr>)
      requires Valid() && StartsSuffix(Peek())
      modifies this`idx
      ensures Valid()
      ensures match ParseSuffix(e, old(Remaining()))
              case Ok(e', rest) => r == Parsed(e') && Remaining() == rest
              case Err(x) => r == Failed(x)
      decreases |Remaining()|, 0
    {
      var t := Peek();
      Next();
      if t.Dot? {
        var name := ParseName();
        if name.Failed? { return Failed(name.error); }
        r := Parsed(Field(e, name.value));
      } else if t.LParen? {
        var args := ParseArguments();
        if args.Failed? { return Failed(args.error); }
        r := Parsed(Call(e, args.value));
      } else {
        r := ParseExpr();
        if r.Failed? { return; }
        if !Peek().RBracket? { return Failed(UnexpectedToken); }
        Next();
        r := Parsed(Index(e, r.value));
      }
    }

    method ParseName() returns (r: Outcome<string>)
      requires Valid()
      modifies this`idx
      ensures Valid()
      ensures match ParseIdent(old(Remaining()))
              case Ok(name, rest) => r == Parsed(name) && Remaining() == rest
              case Err(x) => r == Failed(x)
    {
      var t := Peek();
      if t.IdentTok? || (t.Kw? && SoftKeyword(t.name)) {
        Next();
        r := Parsed(t.name);
      } else if t.Kw? {
        r := Failed(ReservedKeyword);
      } else {
        r := Failed(UnexpectedToken);
      }
    }

    method ParseArguments() returns (r: Outcome<seq<Expr>>)
      requires Valid()
      modifies this`idx
      ensures Valid()
      ensures match ParseArgs(old(Remaining()))
              case Ok(args, rest) => r == Parsed(args) && Remaining() == rest
              case Err(x) => r == Failed(x)
      decreases |Remaining()|, 20
    {
      var args: seq<Expr> := [];
      if !Peek().RParen? {
        var first := ParseExpr();
        if first.Failed? { return Failed(first.error); }
        args := [first.value];
        while Peek().Comma?
          invariant Valid() && |Remaining()| < |old(Remaining())|
          invariant ParseArgs(old(Remaining())) == ArgsLoop(args, Remaining())
          decreases |Remaining()|
        {
          Next();
          var more := ParseExpr();
          if more.Failed? { return Failed(more.error); }
          args := args + [more.value];
        }
      }
      if !Peek().RParen? { return Failed(UnexpectedToken); }
      Next();
      r := Parsed(args);
    }

    method ParseAtom() returns (r: Outcome<Expr>)
      requires Valid()
      modifies this`idx
      ensures Valid()
      ensures match ParsePrimary(old(Remaining()))
              case Ok(e, rest) => r == Parsed(e) && Remaining() == rest
              case Err(x) => r == Failed(x)
      decreases |Remaining()|, 1
    {
      var t := Peek();
      match t
      case IntTok(v) => Next(); r := Parsed(IntLit(v));
      case DurTok(v) => Next(); r := Parsed(DurationLit(v));
      case StrTok(s) => Next(); r := Parsed(StringLit(s));
      case IdentTok(name) => Next(); r := Parsed(Ident(name));
      case Kw(name) => r := ParseKeywordAtom(name);
      case LParen =>
        Next();
        r := ParseExpr();
        if r.Failed? { return; }
        if !Peek().RParen? { return Failed(UnexpectedToken); }
        Next();
      case _ => r := Failed(ExpectedPrimary);
    }

    method ParseKeywordAtom(name: string) returns (r: Outcome<Expr>)
      requires Valid() && Peek() == Kw(name)
      modifies this`idx
      ensures Valid()
      ensures match ParsePrimary(old(Remaining()))
              case Ok(e, rest) => r == Parsed(e) && Remaining() == rest
              case Err(x) => r == Failed(x)
    {
      if name == "true" || name == "false" {
        Next();
        r := Parsed(BoolLit(name == "true"));
      } else if name == "present" || name == "absent" {
        Next();
        if !Peek().LParen? { return Failed(UnexpectedToken); }
        Next();
        var id := ParseName();
        if id.Failed? { return Failed(id.error); }
        if !Peek().RParen? { return Failed(UnexpectedToken); }
        Next();
        r := Parsed(if name == "present" then Present(id.value) else Absent(id.value));
      } else if SoftKeyword(name) {
        Next();
        r := Parsed(Ident(name));
      } else {
        r := Failed(ExpectedPrimary);
      }
    }
  }
}
