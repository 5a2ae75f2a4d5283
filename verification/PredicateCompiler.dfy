/** The predicate compiler of crates/airpulse_dsl-verify/src/lib.rs: expression trees to
    straight-line slot code, each value in a fresh register. */
module PredicateCompiler {
  import opened AdglAst
  import opened Options
  import P = PredicateIr
  import Kleene

  /** Diagnostics the compiler can raise. */
  datatype Diag = MaxSlotsExceeded | BareIdentifier | BadFieldBase | UnknownName | IntListUse | CallInPredicate | IndexInPredicate

  datatype PathInfo = PathInfo(field: nat, isIntList: bool)

  /** What the compiler knows of a rule: its bindings' families, their positions, and the
      catalog's field table. */
  datatype Env = Env(
    families: map<string, P.Family>,
    positions: map<string, nat>,
    resolve: (string, string) -> Option<PathInfo>,
    stringKey: string -> int)

  function Position(env: Env, name: string): nat
  {
    if name in env.positions then env.positions[name] else 0
  }

  function SlotOpOf(op: BinaryOp): P.SlotOp
    requires !op.In?
  {
    match op
    case Or => P.Or case And => P.And
    case Eq => P.CmpEq case Ne => P.CmpNe case Lt => P.CmpLt case Le => P.CmpLe case Gt => P.CmpGt case Ge => P.CmpGe
    case Add => P.Add case Sub => P.Sub case Mul => P.Mul case Div => P.Div case Rem => P.Mod
  }

  // ----- meaning of an expression, independent of slots -----

  /** Expressions the predicate language covers. */
  predicate Supported(e: Expr, env: Env)
  {
    match e
    case IntLit(_) => true
    case DurationLit(_) => true
    case StringLit(_) => true
    case BoolLit(_) => true
    case Ident(name) => name == "scope"
    case Present(_) => true
    case Absent(_) => true
    case Not(x) => Supported(x, env)
    case Binary(op, l, r) => !op.In? && Supported(l, env) && Supported(r, env)
    case Field(base, field) =>
      && base.Ident? && base.name in env.families
      && env.resolve(base.name, field).Some? && !env.resolve(base.name, field).value.isIntList
    case Call(_, _) => false
    case Index(_, _) => false
  }

  /** Registers an expression needs: one per node that yields a value. */
  function Size(e: Expr): nat
  {
    match e
    case Not(x) => Size(x) + 1
    case Binary(_, l, r) => Size(l) + Size(r) + 1
    case _ => 1
  }

  /** Eager, left-to-right Kleene evaluation straight from the tree. */
  function Meaning(e: Expr, env: Env, ctx: P.PredCtx): P.Result<P.Slot>
    requires Supported(e, env)
  {
    match e
    case IntLit(v) => P.Ok(P.IntSlot(v))
    case DurationLit(ms) => P.Ok(P.IntSlot(if ms >= 0 then ms else 0))
    case StringLit(s) => P.Ok(P.IntSlot(env.stringKey(s)))
    case BoolLit(b) => P.Ok(P.IntSlot(if b then 1 else 0))
    case Ident(_) => P.Ok(P.IntSlot(ctx.scopeKey))
    case Present(name) => (var t :- P.Presence(ctx, Position(env, name)); P.Ok(P.Truth(t)))
    case Absent(name) => (var t :- P.Presence(ctx, Position(env, name)); P.Ok(P.Truth(t.Not())))
    case Field(base, field) =>
      P.Load(ctx, env.families[base.name], Position(env, base.name), env.resolve(base.name, field).value.field)
    case Not(x) => (var v :- Meaning(x, env, ctx); P.ApplyNot(v))
    case Binary(op, l, r) =>
      var a :- Meaning(l, env, ctx);
      var b :- Meaning(r, env, ctx);
      P.Apply(SlotOpOf(op), a, b)
  }

  // ----- the same meaning operator by operator -----

  /** The value of `l op r` for the values of the operands. */
  ghost predicate Combines(op: BinaryOp, l: P.Slot, r: P.Slot, res: P.Result<P.Slot>)
  {
    var known := P.Ints(l, r);
    match op
    case Or => P.Joins("OR", l, r, false, res)
    case And => P.Joins("AND", l, r, true, res)
    case Eq => P.Relates("CMP_EQ", l, r, known && l.i == r.i, res)
    case Ne => P.Relates("CMP_NE", l, r, known && l.i != r.i, res)
    case Lt => P.Relates("CMP_LT", l, r, known && l.i < r.i, res)
    case Le => P.Relates("CMP_LE", l, r, known && l.i <= r.i, res)
    case Gt => P.Relates("CMP_GT", l, r, known && l.i > r.i, res)
    case Ge => P.Relates("CMP_GE", l, r, known && l.i >= r.i, res)
    case In => false
    case Add => P.Totals("ADD", l, r, if known then l.i + r.i else 0, res)
    case Sub => P.Totals("SUB", l, r, if known then l.i - r.i else 0, res)
    case Mul => P.Totals("MUL", l, r, if known then l.i * r.i else 0, res)
    case Div => P.Divides("DIV", l, r, false, res)
    case Rem => P.Divides("MOD", l, r, true, res)
  }

  /** Where a name is bound; an unknown name counts as the anchor. */
  ghost predicate StandsAt(env: Env, name: string, i: nat)
  {
    i == if name in env.positions then env.positions[name] else 0
  }

  /** `res` is the value of `e`, or the first error from left to right. */
  ghost predicate Denotes(e: Expr, env: Env, ctx: P.PredCtx, res: P.Result<P.Slot>)
    decreases e, 0
  {
    match e
    case IntLit(v) => res == P.Ok(P.IntSlot(v))
    case DurationLit(ms) => res == P.Ok(P.IntSlot(if ms > 0 then ms else 0))
    case StringLit(s) => res == P.Ok(P.IntSlot(env.stringKey(s)))
    case BoolLit(b) => res == P.Ok(P.IntSlot(if b then 1 else 0))
    case Ident(name) => name == "scope" && res == P.Ok(P.IntSlot(ctx.scopeKey))
    case Present(name) => exists i: nat :: StandsAt(env, name, i) && P.Tells(ctx, i, true, res)
    case Absent(name) => exists i: nat :: StandsAt(env, name, i) && P.Tells(ctx, i, false, res)
    case Field(base, field) =>
      && base.Ident? && base.name in env.families && env.resolve(base.name, field).Some?
      && exists i: nat :: StandsAt(env, base.name, i)
                          && P.Loads(ctx, env.families[base.name], i, env.resolve(base.name, field).value.field, res)
    case Not(x) => exists v :: Denotes(x, env, ctx, v) && if v.Err? then res == v else P.Negates(v.value, res)
    case Binary(op, l, r) =>
      exists a :: Denotes(l, env, ctx, a) && if a.Err? then res == a else DenotesRight(op, a.value, r, env, ctx, res)
    case Call(_, _) => false
    case Index(_, _) => false
  }

  ghost predicate DenotesRight(op: BinaryOp, l: P.Slot, r: Expr, env: Env, ctx: P.PredCtx, res: P.Result<P.Slot>)
    decreases r, 1
  {
    exists b :: Denotes(r, env, ctx, b) && if b.Err? then res == b else Combines(op, l, b.value, res)
  }

  lemma CombinesIsApply(op: BinaryOp, l: P.Slot, r: P.Slot, res: P.Result<P.Slot>)
    requires !op.In?
    ensures Combines(op, l, r, res) <==> res == P.Apply(SlotOpOf(op), l, r)
  {
    hide P.Apply, P.Totals, P.Relates, P.Joins, P.Divides;
    P.YieldsIsApply(SlotOpOf(op), l, r, res);
  }

  lemma {:induction false} DenotesIsMeaning(e: Expr, env: Env, ctx: P.PredCtx, res: P.Result<P.Slot>)
    requires Supported(e, env)
    ensures Denotes(e, env, ctx, res) <==> res == Meaning(e, env, ctx)
    decreases e, 1
  {
    hide P.Apply, P.ApplyNot, P.Negates, Combines;
    if e.Not? {
      var v := Meaning(e.operand, env, ctx);
      forall w ensures Denotes(e.operand, env, ctx, w) <==> w == v { DenotesIsMeaning(e.operand, env, ctx, w); }
      assert Denotes(e.operand, env, ctx, v);
      if v.Ok? { P.NegatesIs(v.value, res); }
    } else if e.Binary? {
      BinaryDenotes(e, env, ctx, res);
    } else {
      LeafDenotes(e, env, ctx, res);
    }
  }

  lemma LeafDenotes(e: Expr, env: Env, ctx: P.PredCtx, res: P.Result<P.Slot>)
    requires Supported(e, env) && !e.Not? && !e.Binary?
    ensures Denotes(e, env, ctx, res) <==> res == Meaning(e, env, ctx)
  {
    hide P.Loads, P.Load, P.Tells, P.Presence;
    var name := if e.Present? || e.Absent? || e.Ident? then e.name else if e.Field? && e.base.Ident? then e.base.name else "";
    var i := Position(env, name);
    assert StandsAt(env, name, i);
    if e.Present? || e.Absent? {
      P.TellsIs(ctx, i, e.Present?, res);
    } else if e.Field? {
      P.LoadsIs(ctx, env.families[name], i, env.resolve(name, e.field).value.field, res);
    }
  }

  lemma {:induction false} BinaryDenotes(e: Expr, env: Env, ctx: P.PredCtx, res: P.Result<P.Slot>)
    requires e.Binary? && Supported(e, env)
    ensures Denotes(e, env, ctx, res) <==> res == Meaning(e, env, ctx)
    decreases e, 0
  {
    hide P.Apply, Combines, SlotOpOf;
    var a, b := Meaning(e.left, env, ctx), Meaning(e.right, env, ctx);
    forall w ensures Denotes(e.left, env, ctx, w) <==> w == a { DenotesIsMeaning(e.left, env, ctx, w); }
    forall w ensures Denotes(e.right, env, ctx, w) <==> w == b { DenotesIsMeaning(e.right, env, ctx, w); }
    assert Denotes(e.left, env, ctx, a) && Denotes(e.right, env, ctx, b);
    if a.Ok? {
      if b.Ok? { CombinesIsApply(e.op, a.value, b.value, res); }
      assert DenotesRight(e.op, a.value, e.right, env, ctx, res) <==> res == Meaning(e, env, ctx);
    }
  }

  /** `r` is the truth of `e`: of its value, as a condition. */
  ghost predicate IsTruth(e: Expr, env: Env, ctx: P.PredCtx, r: P.Result<Kleene.T3>)
  {
    exists v :: Denotes(e, env, ctx, v) && if v.Err? then r == P.Err(v.error) else P.Concludes(v.value, r)
  }

  // ----- the compiler as a function -----

  /** The allocator, the code and the diagnostics, threaded through the compiler. */
  datatype State = State(next: nat, ops: seq<P.PredOp>, diags: seq<Diag>) {
    function Report(d: Diag): State { this.(diags := diags + [d]) }
    function Push(op: P.PredOp): State { this.(ops := ops + [op]) }
  }

  /** `SlotAllocator::alloc`: register 0 with a diagnostic once the sixteen are used up;
      the counter saturates at 255. */
  function Alloc(st: State): (P.SlotIdx, State)
  {
    var st' := st.(next := if st.next < 255 then st.next + 1 else 255);
    if st.next < P.MAX_SLOTS then (st.next, st') else (0, st'.Report(MaxSlotsExceeded))
  }

  /** What a node without operands leads to: one opcode, or none and maybe a diagnostic. */
  datatype LeafOutcome = Emits | Rejects(diag: Diag) | GivesUp

  function OutcomeOf(e: Expr, env: Env): LeafOutcome
  {
    match e
    case Ident(name) => if name == "scope" then Emits else Rejects(BareIdentifier)
    case Field(base, field) =>
      if !base.Ident? then Rejects(BadFieldBase)
      else if base.name !in env.families then Rejects(UnknownName)
      else (match env.resolve(base.name, field)
            case None => GivesUp
            case Some(info) => if info.isIntList then Rejects(IntListUse) else Emits)
    case Call(_, _) => Rejects(CallInPredicate)
    case Index(_, _) => Rejects(IndexInPredicate)
    case _ => Emits
  }

  function LeafOp(e: Expr, env: Env, dst: P.SlotIdx): P.PredOp
    requires OutcomeOf(e, env).Emits? && !e.Not? && !e.Binary?
  {
    match e
    case IntLit(v) => P.LoadConst(v, dst)
    case DurationLit(ms) => P.LoadDuration(if ms >= 0 then ms else 0, dst)
    case StringLit(s) => P.LoadConst(env.stringKey(s), dst)
    case BoolLit(b) => P.LoadConst(if b then 1 else 0, dst)
    case Ident(_) => P.LoadScopeKey(dst)
    case Present(name) => P.PresentOp(Position(env, name), dst)
    case Absent(name) => P.AbsentOp(Position(env, name), dst)
    case Field(base, field) =>
      P.LoadField(env.families[base.name], Position(env, base.name), env.resolve(base.name, field).value.field, dst)
  }

  function Compile(e: Expr, env: Env, st: State): (Option<P.SlotIdx>, State)
    decreases e
  {
    match e
    case Not(x) =>
      var (src, st1) := Compile(x, env, st);
      if src.None? then (None, st1)
      else
        var (dst, st2) := Alloc(st1);
        (Some(dst), st2.Push(P.NotOp(src.value, dst)))
    case Binary(op, l, r) =>
      var (lhs, st1) := Compile(l, env, st);
      if lhs.None? then (None, st1)
      else
        var (rhs, st2) := Compile(r, env, st1);
        if rhs.None? then (None, st2)
        else
          var (dst, st3) := Alloc(st2);
          if op.In? then (None, st3.Report(IntListUse))
          else (Some(dst), st3.Push(P.Compute(SlotOpOf(op), lhs.value, rhs.value, dst)))
    case _ =>
      (match OutcomeOf(e, env)
       case Emits =>
         var (dst, st1) := Alloc(st);
         (Some(dst), st1.Push(LeafOp(e, env, dst)))
       case Rejects(d) => (None, st.Report(d))
       case GivesUp => (None, st))
  }

  const START := State(0, [], [])

  function CompilePredicate(e: Expr, env: Env): (P.Predicate, seq<Diag>)
  {
    var (result, st) := Compile(e, env, START);
    (P.Predicate(st.ops, if result.Some? then result.value else 0), st.diags)
  }

  // ----- what the compiler produces -----

  /** Exactly one diagnostic per register missing from the file. */
  function Shortage(next: nat, size: nat): nat
  {
    if next >= P.MAX_SLOTS then size
    else if next + size > P.MAX_SLOTS then next + size - P.MAX_SLOTS
    else 0
  }

  function Repeat(d: Diag, n: nat): seq<Diag>
  {
    if n == 0 then [] else Repeat(d, n - 1) + [d]
  }

  lemma {:induction false} RepeatAdd(d: Diag, m: nat, n: nat)
    ensures Repeat(d, m + n) == Repeat(d, m) + Repeat(d, n)
  {
    if n > 0 { RepeatAdd(d, m, n - 1); }
  }

  function Advance(next: nat, size: nat): nat
  {
    if next + size <= 255 then next + size else 255
  }

  /** A supported expression always compiles, and exhaustion is reported once for every
      register by which `next + Size(e)` exceeds sixteen. */
  ghost predicate CompilesWithShortage(e: Expr, env: Env, st: State)
  {
    var (r, st') := Compile(e, env, st);
    && r.Some?
    && st'.next == Advance(st.next, Size(e))
    && st'.diags == st.diags + Repeat(MaxSlotsExceeded, Shortage(st.next, Size(e)))
  }

  lemma {:induction false} SupportedCompiles(e: Expr, env: Env, st: State)
    requires Supported(e, env) && st.next <= 255
    ensures CompilesWithShortage(e, env, st)
    decreases e
  {
    match e
    case Not(x) =>
      SupportedCompiles(x, env, st);
      OneMore(Compile(x, env, st).1, st, Size(x));
    case Binary(op, l, r) =>
      SupportedCompiles(l, env, st);
      var st1 := Compile(l, env, st).1;
      SupportedCompiles(r, env, st1);
      Joined(st, st1, Compile(r, env, st1).1, Size(l), Size(r));
      OneMore(Compile(r, env, st1).1, st, Size(l) + Size(r));
    case _ => AllocReports(st);
  }

  ghost predicate ShortBy(st: State, st': State, n: nat)
  {
    && st'.next == Advance(st.next, n)
    && st'.diags == st.diags + Repeat(MaxSlotsExceeded, Shortage(st.next, n))
  }

  lemma Joined(st: State, st1: State, st2: State, m: nat, n: nat)
    requires st.next <= 255 && ShortBy(st, st1, m) && ShortBy(st1, st2, n)
    ensures ShortBy(st, st2, m + n)
  {
    ShortageAdds(st.next, m, n);
    RepeatAdd(MaxSlotsExceeded, Shortage(st.next, m), Shortage(st1.next, n));
  }

  lemma OneMore(st1: State, st: State, n: nat)
    requires st.next <= 255 && ShortBy(st, st1, n)
    ensures ShortBy(st, Alloc(st1).1, n + 1)
  {
    AllocReports(st1);
    Joined(st, st1, Alloc(st1).1, n, 1);
  }

  lemma ShortageAdds(next: nat, a: nat, b: nat)
    requires next <= 255
    ensures Shortage(next, a + b) == Shortage(next, a) + Shortage(Advance(next, a), b)
    ensures Advance(Advance(next, a), b) == Advance(next, a + b)
  {
  }

  lemma AllocReports(st: State)
    requires st.next <= 255
    ensures Alloc(st).1.ops == st.ops && ShortBy(st, Alloc(st).1, 1)
  {
    assert Repeat(MaxSlotsExceeded, 1) == [MaxSlotsExceeded];
  }

  /** Conversely, an expression that compiles to a register is supported. */
  lemma {:induction false} CompiledIsSupported(e: Expr, env: Env, st: State)
    requires Compile(e, env, st).0.Some?
    ensures Supported(e, env)
    decreases e
  {
    match e
    case Not(x) => CompiledIsSupported(x, env, st);
    case Binary(op, l, r) =>
      CompiledIsSupported(l, env, st);
      CompiledIsSupported(r, env, Compile(l, env, st).1);
    case _ =>
  }

  /** A clean compilation is exactly a supported expression that fits the register file. */
  lemma CleanIffFits(e: Expr, env: Env, st: State)
    requires st.next <= P.MAX_SLOTS
    ensures var (r, st') := Compile(e, env, st);
            (r.Some? && st'.diags == st.diags) <==> (Supported(e, env) && st.next + Size(e) <= P.MAX_SLOTS)
  {
    var (r, st') := Compile(e, env, st);
    if r.Some? { CompiledIsSupported(e, env, st); }
    if Supported(e, env) {
      SupportedCompiles(e, env, st);
      RepeatLength(MaxSlotsExceeded, Shortage(st.next, Size(e)));
    }
  }

  lemma RepeatLength(d: Diag, n: nat)
    ensures |Repeat(d, n)| == n
  {
  }

  // ----- what is rejected, and why -----

  /** The first node from left to right that the language does not cover draws `d`; a path that
      the catalog does not resolve draws nothing. */
  ghost predicate Faulty(e: Expr, env: Env, d: seq<Diag>)
  {
    match e
    case Ident(name) => name != "scope" && d == [BareIdentifier]
    case Field(base, field) =>
      if !base.Ident? then d == [BadFieldBase]
      else if base.name !in env.families then d == [UnknownName]
      else if env.resolve(base.name, field).None? then d == []
      else env.resolve(base.name, field).value.isIntList && d == [IntListUse]
    case Call(_, _) => d == [CallInPredicate]
    case Index(_, _) => d == [IndexInPredicate]
    case Not(x) => Faulty(x, env, d)
    case Binary(op, l, r) =>
      if !Supported(l, env) then Faulty(l, env, d)
      else if !Supported(r, env) then Faulty(r, env, d)
      else op.In? && d == [IntListUse]
    case _ => false
  }

  /** Where the registers suffice, an expression outside the language yields no register and the
      diagnostic of its first fault. */
  lemma {:induction false} FaultIsReported(e: Expr, env: Env, st: State) returns (d: seq<Diag>)
    requires !Supported(e, env) && st.next + Size(e) <= P.MAX_SLOTS
    ensures Faulty(e, env, d) && Compile(e, env, st).0.None? && Compile(e, env, st).1.diags == st.diags + d
    decreases e
  {
    if e.Not? {
      d := FaultIsReported(e.operand, env, st);
    } else if e.Binary? {
      d := FaultInBinary(e, env, st);
    } else {
      d := Compile(e, env, st).1.diags[|st.diags|..];
    }
  }

  lemma {:induction false} FaultInBinary(e: Expr, env: Env, st: State) returns (d: seq<Diag>)
    requires e.Binary? && !Supported(e, env) && st.next + Size(e) <= P.MAX_SLOTS
    ensures Faulty(e, env, d) && Compile(e, env, st).0.None? && Compile(e, env, st).1.diags == st.diags + d
    decreases e, 0
  {
    hide LeafOp, SlotOpOf, OutcomeOf;
    var st1 := Compile(e.left, env, st).1;
    if !Supported(e.left, env) {
      d := FaultIsReported(e.left, env, st);
    } else {
      Enough(e.left, env, st);
      if !Supported(e.right, env) {
        d := FaultIsReported(e.right, env, st1);
      } else {
        Enough(e.right, env, st1);
        d := [IntListUse];
      }
    }
  }

  /** A supported expression that fits takes one register per node and reports nothing. */
  lemma Enough(e: Expr, env: Env, st: State)
    requires Supported(e, env) && st.next + Size(e) <= P.MAX_SLOTS
    ensures var (r, st') := Compile(e, env, st); r.Some? && st'.next == st.next + Size(e) && st'.diags == st.diags
  {
    hide Compile, Supported;
    SupportedCompiles(e, env, st);
    assert Repeat(MaxSlotsExceeded, 0) == [];
    assert st.diags + [] == st.diags;
  }

  // ----- single assignment -----

  predicate ReadsBelow(op: P.PredOp, n: nat)
  {
    match op
    case Compute(_, l, r, _) => l < n && r < n
    case NotOp(src, _) => src < n
    case TopoCall(_, a, b, _) => a < n && b < n
    case WinIn(x, lo, hi, _) => x < n && lo < n && hi < n
    case _ => true
  }

  /** Op `i` writes register `first + i` and reads only registers below it: each register
      is written once, and before it is read. */
  ghost predicate SingleAssignment(ops: seq<P.PredOp>, first: nat)
  {
    forall i :: 0 <= i < |ops| ==> ops[i].dst == first + i && ReadsBelow(ops[i], first + i)
  }

  /** The code of a fitting expression whose first free register is `first`. */
  function Code(e: Expr, env: Env, first: nat): (ops: seq<P.PredOp>)
    requires Supported(e, env) && first + Size(e) <= P.MAX_SLOTS
    ensures |ops| == Size(e)
    decreases e
  {
    if e.Not? then
      var n := first + Size(e.operand);
      Code(e.operand, env, first) + [P.NotOp(n - 1, n)]
    else if e.Binary? then
      var m := first + Size(e.left);
      var n := m + Size(e.right);
      Code(e.left, env, first) + Code(e.right, env, m) + [P.Compute(SlotOpOf(e.op), m - 1, n - 1, n)]
    else [LeafOp(e, env, first)]
  }

  /** On a fitting expression the compiler appends `Code` and answers its last register. */
  lemma {:induction false} CompileIsCode(e: Expr, env: Env, st: State)
    requires Supported(e, env) && st.next + Size(e) <= P.MAX_SLOTS
    ensures Compile(e, env, st) ==
            (Some(st.next + Size(e) - 1), State(st.next + Size(e), st.ops + Code(e, env, st.next), st.diags))
    decreases e, 1
  {
    hide SlotOpOf, P.RunOps;
    match e
    case Not(x) =>
      CompileIsCode(x, env, st);
      Assoc(st.ops, Code(x, env, st.next), [P.NotOp(st.next + Size(x) - 1, st.next + Size(x))]);
    case Binary(op, l, r) => BinaryIsCode(e, env, st);
    case _ => LeafIsCode(e, env, st);
  }

  lemma LeafIsCode(e: Expr, env: Env, st: State)
    requires !e.Not? && !e.Binary? && Supported(e, env) && st.next < P.MAX_SLOTS
    ensures Compile(e, env, st) == (Some(st.next), State(st.next + 1, st.ops + Code(e, env, st.next), st.diags))
  {
    hide LeafOp;
  }

  lemma {:induction false} BinaryIsCode(e: Expr, env: Env, st: State)
    requires e.Binary? && Supported(e, env) && st.next + Size(e) <= P.MAX_SLOTS
    ensures Compile(e, env, st) ==
            (Some(st.next + Size(e) - 1), State(st.next + Size(e), st.ops + Code(e, env, st.next), st.diags))
    decreases e, 0
  {
    hide Code, Size, Supported, SlotOpOf, Compile;
    BinaryParts(e, env, st.next);
    var m := st.next + Size(e.left);
    var n := m + Size(e.right);
    var a, b := Code(e.left, env, st.next), Code(e.right, env, m);
    CompileIsCode(e.left, env, st);
    var st1 := State(m, st.ops + a, st.diags);
    CompileIsCode(e.right, env, st1);
    var st2 := State(n, st.ops + a + b, st.diags);
    BinaryEmits(e, env, st, m - 1, st1, n - 1, st2);
    Assoc(st.ops, a, b);
    Assoc(st.ops, a + b, [P.Compute(SlotOpOf(e.op), m - 1, n - 1, n)]);
  }

  lemma {:induction false} BinaryEmits(e: Expr, env: Env, st: State, l: P.SlotIdx, st1: State, r: P.SlotIdx, st2: State)
    requires e.Binary? && !e.op.In? && st2.next < P.MAX_SLOTS
    requires Compile(e.left, env, st) == (Some(l), st1) && Compile(e.right, env, st1) == (Some(r), st2)
    ensures Compile(e, env, st) ==
            (Some(st2.next), State(st2.next + 1, st2.ops + [P.Compute(SlotOpOf(e.op), l, r, st2.next)], st2.diags))
  {
  }

  lemma Assoc(a: seq<P.PredOp>, b: seq<P.PredOp>, c: seq<P.PredOp>)
    ensures a + b + c == a + (b + c)
  {
  }

  lemma SingleAssignmentConcat(a: seq<P.PredOp>, b: seq<P.PredOp>, first: nat)
    requires SingleAssignment(a, first) && SingleAssignment(b, first + |a|)
    ensures SingleAssignment(a + b, first)
  {
    forall i | 0 <= i < |a + b|
      ensures (a + b)[i].dst == first + i && ReadsBelow((a + b)[i], first + i)
    {
      if i >= |a| { assert (a + b)[i] == b[i - |a|]; }
    }
  }

  /** The three parts of the code of a binary expression. */
  lemma {:induction false} BinaryParts(e: Expr, env: Env, first: nat)
    requires e.Binary? && Supported(e, env) && first + Size(e) <= P.MAX_SLOTS
    ensures Supported(e.left, env) && Supported(e.right, env) && !e.op.In?
    ensures Size(e) == Size(e.left) + Size(e.right) + 1 && 1 <= Size(e.left) && 1 <= Size(e.right)
    ensures var m := first + Size(e.left); var n := m + Size(e.right);
            Code(e, env, first) == Code(e.left, env, first) + Code(e.right, env, m) + [P.Compute(SlotOpOf(e.op), m - 1, n - 1, n)]
  {
  }

  /** What a binary expression means, in terms of its operands. */
  lemma {:induction false} BinaryMeaning(e: Expr, env: Env, ctx: P.PredCtx)
    requires e.Binary? && Supported(e, env) && Supported(e.left, env) && Supported(e.right, env) && !e.op.In?
    ensures Meaning(e, env, ctx) == Joint(SlotOpOf(e.op), Meaning(e.left, env, ctx), Meaning(e.right, env, ctx))
  {
  }

  /** The first error, or the operation on both values. */
  function Joint(op: P.SlotOp, a: P.Result<P.Slot>, b: P.Result<P.Slot>): P.Result<P.Slot>
  {
    if a.Err? then a else if b.Err? then b else P.Apply(op, a.value, b.value)
  }

  lemma {:induction false} BinarySingleAssignment(e: Expr, env: Env, first: nat)
    requires e.Binary? && Supported(e, env) && first + Size(e) <= P.MAX_SLOTS
    ensures SingleAssignment(Code(e, env, first), first)
    decreases e, 0
  {
    hide Supported, Size, Code, SingleAssignment;
    BinaryParts(e, env, first);
    var m := first + Size(e.left);
    var n := m + Size(e.right);
    var a, b := Code(e.left, env, first), Code(e.right, env, m);
    CodeIsSingleAssignment(e.left, env, first);
    CodeIsSingleAssignment(e.right, env, m);
    SingleAssignmentConcat(a, b, first);
    OneAssignment(SlotOpOf(e.op), m - 1, n - 1, n);
    SingleAssignmentConcat(a + b, [P.Compute(SlotOpOf(e.op), m - 1, n - 1, n)], first);
  }

  lemma OneAssignment(op: P.SlotOp, l: P.SlotIdx, r: P.SlotIdx, n: P.SlotIdx)
    requires l < n && r < n
    ensures SingleAssignment([P.Compute(op, l, r, n)], n)
  {
  }

  lemma {:induction false} CodeIsSingleAssignment(e: Expr, env: Env, first: nat)
    requires Supported(e, env) && first + Size(e) <= P.MAX_SLOTS
    ensures SingleAssignment(Code(e, env, first), first)
    decreases e, 1
  {
    hide Meaning, P.RunOps;
    if e.Not? {
      var n := first + Size(e.operand);
      CodeIsSingleAssignment(e.operand, env, first);
      SingleAssignmentConcat(Code(e.operand, env, first), [P.NotOp(n - 1, n)], first);
    } else if e.Binary? {
      BinarySingleAssignment(e, env, first);
    }
  }

  // ----- correctness -----

  /** What running the code of `e` does to the registers. */
  ghost predicate Computes(e: Expr, env: Env, first: nat, slots: P.Slots, ctx: P.PredCtx)
    requires Supported(e, env) && first + Size(e) <= P.MAX_SLOTS
  {
    Outcome(Meaning(e, env, ctx), P.RunOps(Code(e, env, first), slots, ctx), first, first + Size(e) - 1, slots)
  }

  /** The same error, or the value in register `last` and nothing below `first` changed. */
  ghost predicate Outcome(meaning: P.Result<P.Slot>, out: P.Result<P.Slots>, first: nat, last: nat, slots: P.Slots)
    requires first <= last < P.MAX_SLOTS
  {
    match meaning
    case Err(error) => out == P.Err(error)
    case Ok(v) => out.Ok? && out.value[last] == v && forall i :: 0 <= i < first ==> out.value[i] == slots[i]
  }

  lemma RunSingle(op: P.PredOp, slots: P.Slots, ctx: P.PredCtx)
    ensures P.RunOps([op], slots, ctx) ==
            match P.OpValue(op, slots, ctx)
            case Ok(v) => P.Ok(slots[op.dst := v])
            case Err(e) => P.Err(e)
  {
    assert [op][1..] == [];
  }

  lemma {:induction false} CodeCorrect(e: Expr, env: Env, first: nat, slots: P.Slots, ctx: P.PredCtx)
    requires Supported(e, env) && first + Size(e) <= P.MAX_SLOTS
    ensures Computes(e, env, first, slots, ctx)
    decreases e, 1
  {
    match e
    case Not(x) => NotCorrect(e, env, first, slots, ctx);
    case Binary(op, l, r) => BinaryCorrect(e, env, first, slots, ctx);
    case _ => RunSingle(LeafOp(e, env, first), slots, ctx);
  }

  lemma {:induction false} NotCorrect(e: Expr, env: Env, first: nat, slots: P.Slots, ctx: P.PredCtx)
    requires e.Not? && Supported(e, env) && first + Size(e) <= P.MAX_SLOTS
    ensures Computes(e, env, first, slots, ctx)
    decreases e, 0
  {
    hide P.RunOps, Outcome;
    var n := first + Size(e.operand);
    CodeCorrect(e.operand, env, first, slots, ctx);
    NotRun(Code(e.operand, env, first), Meaning(e.operand, env, ctx), first, n, slots, ctx);
  }

  lemma NotRun(code: seq<P.PredOp>, a: P.Result<P.Slot>, first: nat, n: P.SlotIdx, slots: P.Slots, ctx: P.PredCtx)
    requires first < n && Outcome(a, P.RunOps(code, slots, ctx), first, n - 1, slots)
    ensures Outcome(if a.Err? then a else P.ApplyNot(a.value), P.RunOps(code + [P.NotOp(n - 1, n)], slots, ctx), first, n, slots)
  {
    hide P.RunOps;
    P.RunOpsConcat(code, [P.NotOp(n - 1, n)], slots, ctx);
    var mid := P.RunOps(code, slots, ctx);
    if mid.Ok? { RunSingle(P.NotOp(n - 1, n), mid.value, ctx); }
  }

  lemma {:induction false} BinaryCorrect(e: Expr, env: Env, first: nat, slots: P.Slots, ctx: P.PredCtx)
    requires e.Binary? && Supported(e, env) && first + Size(e) <= P.MAX_SLOTS
    ensures Computes(e, env, first, slots, ctx)
    decreases e, 0
  {
    hide P.RunOps, Meaning, Supported, Size, Code, Computes;
    BinaryParts(e, env, first);
    var m := first + Size(e.left);
    CodeCorrect(e.left, env, first, slots, ctx);
    var mid := P.RunOps(Code(e.left, env, first), slots, ctx);
    if mid.Ok? { CodeCorrect(e.right, env, m, mid.value, ctx); }
    BinaryStep(e, env, first, m, slots, mid, ctx);
  }

  lemma {:induction false} BinaryStep(e: Expr, env: Env, first: nat, m: nat, slots: P.Slots, mid: P.Result<P.Slots>, ctx: P.PredCtx)
    requires e.Binary? && Supported(e, env) && first + Size(e) <= P.MAX_SLOTS && m == first + Size(e.left)
    requires Supported(e.left, env) && Supported(e.right, env) && m + Size(e.right) < P.MAX_SLOTS
    requires Computes(e.left, env, first, slots, ctx) && mid == P.RunOps(Code(e.left, env, first), slots, ctx)
    requires mid.Ok? ==> Computes(e.right, env, m, mid.value, ctx)
    ensures Computes(e, env, first, slots, ctx)
  {
    hide P.RunOps, Meaning, Supported, Size, Code, SlotOpOf, Outcome, Joint;
    BinaryParts(e, env, first);
    BinaryMeaning(e, env, ctx);
    JointRun(Code(e.left, env, first), Code(e.right, env, m), SlotOpOf(e.op),
             Meaning(e.left, env, ctx), Meaning(e.right, env, ctx), first, m, m + Size(e.right), slots, ctx);
  }

  lemma {:induction false} JointRun(left: seq<P.PredOp>, right: seq<P.PredOp>, op: P.SlotOp, a: P.Result<P.Slot>, b: P.Result<P.Slot>,
                                    first: nat, m: P.SlotIdx, n: P.SlotIdx, slots: P.Slots, ctx: P.PredCtx)
    requires first < m < n && Outcome(a, P.RunOps(left, slots, ctx), first, m - 1, slots)
    requires var mid := P.RunOps(left, slots, ctx); mid.Ok? ==> Outcome(b, P.RunOps(right, mid.value, ctx), m, n - 1, mid.value)
    ensures Outcome(Joint(op, a, b), P.RunOps(left + right + [P.Compute(op, m - 1, n - 1, n)], slots, ctx), first, n, slots)
  {
    hide P.RunOps, Outcome, Joint, LastOp;
    var mid := P.RunOps(left, slots, ctx);
    var both := if mid.Ok? then P.RunOps(right, mid.value, ctx) else mid;
    RunBinary(left, right, op, m - 1, n - 1, n, slots, ctx);
    JointOutcome(op, a, b, mid, both, first, m, n, slots);
  }

  lemma JointOutcome(op: P.SlotOp, a: P.Result<P.Slot>, b: P.Result<P.Slot>, mid: P.Result<P.Slots>, both: P.Result<P.Slots>,
                     first: nat, m: P.SlotIdx, n: P.SlotIdx, slots: P.Slots)
    requires first < m < n && Outcome(a, mid, first, m - 1, slots)
    requires if mid.Ok? then Outcome(b, both, m, n - 1, mid.value) else both == mid
    ensures Outcome(Joint(op, a, b), LastOp(op, m - 1, n - 1, n, both), first, n, slots)
  {
    hide P.Apply;
  }

  /** Left code, right code, then one operation on their results. */
  lemma {:induction false} RunBinary(left: seq<P.PredOp>, right: seq<P.PredOp>, op: P.SlotOp, l: P.SlotIdx, r: P.SlotIdx, n: P.SlotIdx,
                                     slots: P.Slots, ctx: P.PredCtx)
    ensures var mid := P.RunOps(left, slots, ctx);
            P.RunOps(left + right + [P.Compute(op, l, r, n)], slots, ctx) ==
            LastOp(op, l, r, n, if mid.Ok? then P.RunOps(right, mid.value, ctx) else mid)
  {
    hide P.OpValue, P.Apply, P.RunOps;
    var last := P.Compute(op, l, r, n);
    P.RunOpsConcat(left + right, [last], slots, ctx);
    P.RunOpsConcat(left, right, slots, ctx);
    var mid := P.RunOps(left, slots, ctx);
    if mid.Ok? {
      var both := P.RunOps(right, mid.value, ctx);
      if both.Ok? {
        RunSingle(last, both.value, ctx);
        ComputeValue(op, l, r, n, both.value, ctx);
      }
    }
  }

  function LastOp(op: P.SlotOp, l: P.SlotIdx, r: P.SlotIdx, n: P.SlotIdx, both: P.Result<P.Slots>): P.Result<P.Slots>
  {
    if both.Err? then both
    else
      var v := P.Apply(op, both.value[l], both.value[r]);
      if v.Ok? then P.Ok(both.value[n := v.value]) else P.Err(v.error)
  }

  lemma ComputeValue(op: P.SlotOp, l: P.SlotIdx, r: P.SlotIdx, dst: P.SlotIdx, slots: P.Slots, ctx: P.PredCtx)
    ensures P.OpValue(P.Compute(op, l, r, dst), slots, ctx) == P.Apply(op, slots[l], slots[r])
  {
  }

  /** Compiler correctness: when compilation is clean, interpreting the code gives the truth
      of the expression, operator by operator, or its first left-to-right error. */
  lemma CompilerCorrect(e: Expr, env: Env, ctx: P.PredCtx)
    requires Compile(e, env, START).0.Some? && CompilePredicate(e, env).1 == []
    ensures Supported(e, env) && IsTruth(e, env, ctx, P.Eval(CompilePredicate(e, env).0, ctx))
    ensures SingleAssignment(CompilePredicate(e, env).0.ops, 0)
    ensures CompilePredicate(e, env).0.result + 1 == |CompilePredicate(e, env).0.ops|
  {
    hide Compile, Code, Supported, Size, Meaning, Denotes, P.RunOps, SingleAssignment;
    CleanIffFits(e, env, START);
    CompileIsCode(e, env, START);
    assert [] + Code(e, env, 0) == Code(e, env, 0);
    CodeIsSingleAssignment(e, env, 0);
    CodeCorrect(e, env, 0, seq(P.MAX_SLOTS, _ => P.Empty), ctx);
    var v := Meaning(e, env, ctx);
    DenotesIsMeaning(e, env, ctx, v);
    if v.Ok? { P.ConcludesIs(v.value, P.AsTruth(v.value, "RESULT")); }
  }

  // ----- the compiler as the source runs it -----

  class SlotAllocator {
    var next: nat

    constructor ()
      ensures next == 0
    {
      next := 0;
    }

    method AllocSlot(diags: seq<Diag>) returns (slot: P.SlotIdx, diags': seq<Diag>)
      modifies this
      ensures forall ops :: Alloc(State(old(next), ops, diags)) == (slot, State(next, ops, diags'))
    {
      var idx := next;
      next := if next < 255 then next + 1 else 255;
      if idx < P.MAX_SLOTS {
        slot, diags' := idx, diags;
      } else {
        slot, diags' := 0, diags + [MaxSlotsExceeded];
      }
    }
  }

  /** `compile_expr`: the op and diagnostic buffers go in and come out. */
  method CompileExpr(e: Expr, env: Env, ops: seq<P.PredOp>, diags: seq<Diag>, slots: SlotAllocator)
    returns (r: Option<P.SlotIdx>, ops': seq<P.PredOp>, diags': seq<Diag>)
    modifies slots
    ensures Compile(e, env, State(old(slots.next), ops, diags)) == (r, State(slots.next, ops', diags'))
    decreases e
  {
    r, ops', diags' := None, ops, diags;
    match e {
      case Not(x) =>
        var src;
        src, ops', diags' := CompileExpr(x, env, ops, diags, slots);
        if src.Some? {
          var dst;
          dst, diags' := slots.AllocSlot(diags');
          ops' := ops' + [P.NotOp(src.value, dst)];
          r := Some(dst);
        }
      case Binary(op, left, right) =>
        var lhs, rhs, dst;
        lhs, ops', diags' := CompileExpr(left, env, ops, diags, slots);
        if lhs.None? { return; }
        rhs, ops', diags' := CompileExpr(right, env, ops', diags', slots);
        if rhs.None? { return; }
        dst, diags' := slots.AllocSlot(diags');
        if op.In? {
          diags' := diags' + [IntListUse];
        } else {
          ops' := ops' + [P.Compute(SlotOpOf(op), lhs.value, rhs.value, dst)];
          r := Some(dst);
        }
      case _ => r, ops', diags' := CompileLeaf(e, env, ops, diags, slots);
    }
  }

  method CompileLeaf(e: Expr, env: Env, ops: seq<P.PredOp>, diags: seq<Diag>, slots: SlotAllocator)
    returns (r: Option<P.SlotIdx>, ops': seq<P.PredOp>, diags': seq<Diag>)
    requires !e.Not? && !e.Binary?
    modifies slots
    ensures Compile(e, env, State(old(slots.next), ops, diags)) == (r, State(slots.next, ops', diags'))
  {
    r, ops', diags' := None, ops, diags;
    match OutcomeOf(e, env)
    case Emits =>
      var dst;
      dst, diags' := slots.AllocSlot(diags);
      ops' := ops + [LeafOp(e, env, dst)];
      r := Some(dst);
    case Rejects(d) => diags' := diags + [d];
    case GivesUp =>
  }

  /** `compile_predicate`. */
  method CompileToPredicate(e: Expr, env: Env) returns (p: P.Predicate, diags: seq<Diag>)
    ensures (p, diags) == CompilePredicate(e, env)
    ensures Supported(e, env) && diags == [] ==> forall ctx :: IsTruth(e, env, ctx, P.Eval(p, ctx))
  {
    hide Compile, IsTruth, P.Eval;
    var slots := new SlotAllocator();
    var r, ops;
    r, ops, diags := CompileExpr(e, env, [], [], slots);
    p := P.Predicate(ops, if r.Some? then r.value else 0);
    if Supported(e, env) && diags == [] {
      SupportedCompiles(e, env, START);
      forall ctx ensures IsTruth(e, env, ctx, P.Eval(p, ctx)) { CompilerCorrect(e, env, ctx); }
    }
  }
}
