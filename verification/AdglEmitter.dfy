/** The expression printer of crates/ndsl-fmt/src/adgl.rs, appending tokens to its output. */
module AdglEmitter {
  import opened AdglAst
  import opened AdglLadder
  import opened AdglFormatter

  class Emitter {
    var out: seq<Token>

    constructor ()
      ensures out == []
    {
      out := [];
    }

    /** `emit_expr`: appends the printed expression to the output. */
    method EmitExpr(e: Expr, parent: nat)
      modifies this
      ensures out == old(out) + Tokens(e, parent)
      decreases e, 1
    {
      hide BareTokens;
      var wrap := Prec(e) < parent;
      if wrap { out := out + [LParen]; }
      EmitBare(e);
      if wrap { out := out + [RParen]; }
    }

    method EmitBare(e: Expr)
      modifies this
      ensures out == old(out) + BareTokens(e)
      decreases e, 0, 1
    {
      hide Tokens, ArgTokens, IsKeyword;
      match e {
        case Not(x) =>
          out := out + [Bang];
          EmitExpr(x, 13);
        case Binary(op, l, r) =>
          EmitExpr(l, BinPrec(op));
          out := out + [OpToken(op)];
          EmitExpr(r, BinPrec(op) + 1);
        case Field(b, name) =>
          EmitExpr(b, 13);
          out := out + [Dot, Word(name)];
        case Call(c, args) => EmitCall(c, args);
        case Index(b, i) => EmitIndex(b, i);
        case _ => out := out + AtomTokens(e);
      }
    }

    method EmitCall(c: Expr, args: seq<Expr>)
      modifies this
      ensures out == old(out) + BareTokens(Call(c, args))
      decreases Call(c, args), 0, 0
    {
      hide Tokens, ArgTokens;
      EmitExpr(c, 13);
      out := out + [LParen];
      EmitArgs(args);
      out := out + [RParen];
    }

    method EmitIndex(b: Expr, i: Expr)
      modifies this
      ensures out == old(out) + BareTokens(Index(b, i))
      decreases Index(b, i), 0, 0
    {
      hide Tokens, ArgTokens;
      EmitExpr(b, 13);
      out := out + [LBracket];
      EmitExpr(i, 0);
      out := out + [RBracket];
    }

    method EmitArgs(args: seq<Expr>)
      modifies this
      ensures out == old(out) + ArgTokens(args)
      decreases args, 2
    {
      var i := 0;
      while i < |args|
        invariant 0 <= i <= |args|
        invariant out == old(out) + ArgTokens(args[..i])
      {
        if i > 0 { out := out + [Comma]; }
        EmitExpr(args[i], 0);
        assert args[..i + 1][..i] == args[..i];
        i := i + 1;
      }
      assert args[..i] == args;
    }
  }
}
