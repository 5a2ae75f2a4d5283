/** Slot-register predicates: the opcode set of crates/airpulse_dsl-ir/src/predicate.rs and
    the interpreter of crates/airpulse_dsl-evaluator/src/predicate.rs. */
module PredicateIr {
  import opened Kleene

  const MAX_SLOTS: nat := 16
  const I64_MIN: int := -0x8000_0000_0000_0000
  const I64_MAX: int := 0x7fff_ffff_ffff_ffff

  const CAUSE_FIELD_TARGET: nat := 0
  const CAUSE_FIELD_TIME: nat := 1
  const CAUSE_FIELD_CONFIDENCE: nat := 2
  const PROBLEM_FIELD_TARGET: nat := 0
  const PROBLEM_FIELD_TIME: nat := 1
  const EVENT_FIELD_TARGET: nat := 65535
  const EVENT_FIELD_TIME: nat := 65534
  const TOPO_FUNCTIONS: nat := 6

  datatype BoundValue =
    | BoundEvent(time: int, scopeKey: int, fields: map<nat, int>)
    | BoundCause(time: int, targetKey: int, confidence: int)
    | BoundProblem(time: int, targetKey: int)

  datatype Binding = Bound(value: BoundValue) | AbsentBinding | UnknownBinding

  datatype Family = EventFamily | CauseFamily | ProblemFamily

  datatype SlotOp = Add | Sub | Mul | Div | Mod | CmpEq | CmpNe | CmpLt | CmpLe | CmpGt | CmpGe | And | Or | WinBack | WinFwd

  type SlotIdx = i: nat | i < MAX_SLOTS

  datatype PredOp =
    | LoadField(family: Family, binding: nat, field: nat, dst: SlotIdx)
    | LoadConst(imm: int, dst: SlotIdx)
    | LoadDuration(dur: nat, dst: SlotIdx)
    | LoadScopeKey(dst: SlotIdx)
    | Compute(op: SlotOp, lhs: SlotIdx, rhs: SlotIdx, dst: SlotIdx)
    | NotOp(src: SlotIdx, dst: SlotIdx)
    | PresentOp(binding: nat, dst: SlotIdx)
    | AbsentOp(binding: nat, dst: SlotIdx)
    | TopoCall(func: nat, a: SlotIdx, b: SlotIdx, dst: SlotIdx)
    | WinIn(x: SlotIdx, lo: SlotIdx, hi: SlotIdx, dst: SlotIdx)

  datatype Predicate = Predicate(ops: seq<PredOp>, result: SlotIdx)

  datatype CorrelateError =
    | ArithOverflow
    | DivisionByZero
    | TypeMismatch(op: string)
    | NoSuchBinding(binding: nat)
    | NoSuchTopoFunction(func: nat)

  datatype Result<+T> = Ok(value: T) | Err(error: CorrelateError) {
    predicate IsFailure() { Err? }
    function PropagateFailure<U>(): Result<U> requires Err? { Err(error) }
    function Extract(): T requires Ok? { value }
  }

  /** `Truth(Unknown)` doubles as the missing-value marker. */
  datatype Slot = Empty | IntSlot(i: int) | Truth(t: T3)

  /** The evaluation context; scopes are their interned keys and `interned` the table. */
  datatype PredCtx = PredCtx(bindings: seq<Binding>, scopeKey: int, interned: set<int>, topo: (nat, int, int) -> T3)

  // ----- operand views -----

  datatype Num = Known(n: int) | NotKnown

  function AsNum(s: Slot, op: string): Result<Num>
  {
    match s
    case IntSlot(i) => Ok(Known(i))
    case Truth(Unknown) => Ok(NotKnown)
    case _ => Err(TypeMismatch(op))
  }

  function AsTruth(s: Slot, op: string): Result<T3>
  {
    match s
    case Truth(t) => Ok(t)
    case IntSlot(i) => Ok(Lift(i != 0))
    case Empty => Err(TypeMismatch(op))
  }

  function OpName(op: SlotOp): string
  {
    match op
    case Add => "ADD" case Sub => "SUB" case Mul => "MUL" case Div => "DIV" case Mod => "MOD"
    case CmpEq => "CMP_EQ" case CmpNe => "CMP_NE" case CmpLt => "CMP_LT"
    case CmpLe => "CMP_LE" case CmpGt => "CMP_GT" case CmpGe => "CMP_GE"
    case And => "AND" case Or => "OR" case WinBack => "WIN_BACK" case WinFwd => "WIN_FWD"
  }

  function Checked(x: int): Result<int>
  {
    if I64_MIN <= x <= I64_MAX then Ok(x) else Err(ArithOverflow)
  }

  /** Rust division truncates toward zero. */
  function TruncDiv(a: int, b: int): int
    requires b != 0
  {
    if a >= 0 then a / b else -((-a) / b)
  }

  function TruncRem(a: int, b: int): int
    requires b != 0
  {
    if a >= 0 then a % b else -((-a) % b)
  }

  function Arith(op: SlotOp, a: int, b: int): Result<int>
  {
    match op
    case Add => Checked(a + b)
    case Sub => Checked(a - b)
    case Mul => Checked(a * b)
    case Div => if b == 0 then Err(DivisionByZero) else Checked(TruncDiv(a, b))
    case Mod =>
      if b == 0 then Err(DivisionByZero)
      else if a == I64_MIN && b == -1 then Err(ArithOverflow)
      else Ok(TruncRem(a, b))
    case WinBack => Checked(a - b)
    case _ => Checked(a + b)
  }

  function Compare(op: SlotOp, a: int, b: int): bool
  {
    match op
    case CmpEq => a == b
    case CmpNe => a != b
    case CmpLt => a < b
    case CmpLe => a <= b
    case CmpGt => a > b
    case _ => a >= b
  }

  /** One two-operand opcode: Kleene for AND/OR, otherwise numbers with Unknown propagated. */
  function Apply(op: SlotOp, l: Slot, r: Slot): Result<Slot>
  {
    if op.And? || op.Or? then
      var a :- AsTruth(l, OpName(op));
      var b :- AsTruth(r, OpName(op));
      Ok(Truth(if op.And? then a.And(b) else a.Or(b)))
    else
      var a :- AsNum(l, OpName(op));
      var b :- AsNum(r, OpName(op));
      if a.NotKnown? || b.NotKnown? then Ok(Truth(Unknown))
      else if op.CmpEq? || op.CmpNe? || op.CmpLt? || op.CmpLe? || op.CmpGt? || op.CmpGe? then
        Ok(Truth(Lift(Compare(op, a.n, b.n))))
      else
        var v :- Arith(op, a.n, b.n);
        Ok(IntSlot(v))
  }

  function ApplyNot(s: Slot): Result<Slot>
  {
    var t :- AsTruth(s, "NOT");
    Ok(Truth(t.Not()))
  }

  function BindingAt(ctx: PredCtx, i: nat): Result<Binding>
  {
    if i < |ctx.bindings| then Ok(ctx.bindings[i]) else Err(NoSuchBinding(i))
  }

  function LoadName(family: Family): string
  {
    match family
    case EventFamily => "LOAD_EVENT_FIELD"
    case CauseFamily => "LOAD_CAUSE_FIELD"
    case ProblemFamily => "LOAD_PROBLEM_FIELD"
  }

  function FieldOf(family: Family, value: BoundValue, field: nat): Result<Slot>
  {
    match (family, value)
    case (EventFamily, BoundEvent(time, scopeKey, fields)) =>
      Ok(if field == EVENT_FIELD_TIME then IntSlot(time)
         else if field in fields then IntSlot(fields[field])
         else if field == EVENT_FIELD_TARGET then IntSlot(scopeKey)
         else Truth(Unknown))
    case (CauseFamily, BoundCause(time, targetKey, confidence)) =>
      Ok(if field == CAUSE_FIELD_CONFIDENCE then IntSlot(confidence)
         else if field == CAUSE_FIELD_TARGET then IntSlot(targetKey)
         else if field == CAUSE_FIELD_TIME then IntSlot(time)
         else Truth(Unknown))
    case (ProblemFamily, BoundProblem(time, targetKey)) =>
      Ok(if field == PROBLEM_FIELD_TARGET then IntSlot(targetKey)
         else if field == PROBLEM_FIELD_TIME then IntSlot(time)
         else Truth(Unknown))
    case _ => Err(TypeMismatch(LoadName(family)))
  }

  function Load(ctx: PredCtx, family: Family, binding: nat, field: nat): Result<Slot>
  {
    var b :- BindingAt(ctx, binding);
    match b
    case Bound(value) => FieldOf(family, value, field)
    case _ => Ok(Truth(Unknown))
  }

  function Presence(ctx: PredCtx, binding: nat): Result<T3>
  {
    var b :- BindingAt(ctx, binding);
    match b
    case Bound(_) => Ok(True)
    case AbsentBinding => Ok(False)
    case UnknownBinding => Ok(Unknown)
  }

  function CallTopo(ctx: PredCtx, func: nat, a: Slot, b: Slot): Result<Slot>
  {
    if func >= TOPO_FUNCTIONS then Err(NoSuchTopoFunction(func))
    else
      var ka :- AsNum(a, "TOPO_CALL");
      var kb :- AsNum(b, "TOPO_CALL");
      if ka.Known? && kb.Known? && ka.n in ctx.interned && kb.n in ctx.interned
      then Ok(Truth(ctx.topo(func, ka.n, kb.n)))
      else Ok(Truth(Unknown))
  }

  function Within(x: Slot, lo: Slot, hi: Slot): Result<Slot>
  {
    var a :- AsNum(x, "WIN_IN");
    var b :- AsNum(lo, "WIN_IN");
    var c :- AsNum(hi, "WIN_IN");
    Ok(Truth(if a.Known? && b.Known? && c.Known? then Lift(b.n <= a.n <= c.n) else Unknown))
  }

  // ----- what the opcodes yield, without the functions above -----

  /** `False < Unknown < True`. */
  function Rank(t: T3): int { match t case False => 0 case Unknown => 1 case True => 2 }

  /** The truth an operand stands for, if it stands for one. */
  predicate IsTruthOf(s: Slot, rank: int) { if s.IntSlot? then rank == (if s.i != 0 then 2 else 0) else s.Truth? && rank == Rank(s.t) }

  predicate Numeric(s: Slot) { s.IntSlot? || s == Truth(Unknown) }

  predicate Ints(l: Slot, r: Slot) { l.IntSlot? && r.IntSlot? }

  predicate InRange(x: int) { -0x8000_0000_0000_0000 <= x < 0x8000_0000_0000_0000 }

  /** Operands that are not both known numbers: a type error, or Unknown. */
  predicate Propagates(name: string, l: Slot, r: Slot, res: Result<Slot>)
  {
    if Numeric(l) && Numeric(r) then res == Ok(Truth(Unknown)) else res == Err(TypeMismatch(name))
  }

  /** A comparison of numbers, true exactly if `holds`. */
  predicate Relates(name: string, l: Slot, r: Slot, holds: bool, res: Result<Slot>)
  {
    if Ints(l, r) then res == Ok(Truth(if holds then True else False)) else Propagates(name, l, r, res)
  }

  /** A number, or an overflow if it leaves 64 bits. */
  predicate Totals(name: string, l: Slot, r: Slot, exact: int, res: Result<Slot>)
  {
    if Ints(l, r) then res == (if InRange(exact) then Ok(IntSlot(exact)) else Err(ArithOverflow)) else Propagates(name, l, r, res)
  }

  /** `a = q * b + m` with a remainder smaller than `b` and of the sign of `a`. */
  predicate Truncates(a: int, b: int, q: int, m: int)
  {
    a == q * b + m && (if b > 0 then -b < m < b else b < m < -b) && (if a >= 0 then m >= 0 else m <= 0)
  }

  ghost predicate Divides(name: string, l: Slot, r: Slot, remainder: bool, res: Result<Slot>)
  {
    if !Ints(l, r) then Propagates(name, l, r, res)
    else if r.i == 0 then res == Err(DivisionByZero)
    else if remainder && l.i == -0x8000_0000_0000_0000 && r.i == -1 then res == Err(ArithOverflow)
    else
      exists q, m :: Truncates(l.i, r.i, q, m)
                     && res == if remainder then Ok(IntSlot(m)) else if InRange(q) then Ok(IntSlot(q)) else Err(ArithOverflow)
  }

  /** The lesser truth for `and`, the greater for `or`. */
  ghost predicate Joins(name: string, l: Slot, r: Slot, least: bool, res: Result<Slot>)
  {
    if l.Empty? || r.Empty? then res == Err(TypeMismatch(name))
    else
      exists a, b :: IsTruthOf(l, a) && IsTruthOf(r, b) && res.Ok? && res.value.Truth?
                     && Rank(res.value.t) == if (a <= b) == least then a else b
  }

  ghost predicate Negates(s: Slot, res: Result<Slot>)
  {
    if s.Empty? then res == Err(TypeMismatch("NOT"))
    else exists a :: IsTruthOf(s, a) && res.Ok? && res.value.Truth? && Rank(res.value.t) == 2 - a
  }

  /** What `op` yields on slots with these values. */
  ghost predicate Yields(op: SlotOp, l: Slot, r: Slot, res: Result<Slot>)
  {
    match op
    case Add => Totals("ADD", l, r, if Ints(l, r) then l.i + r.i else 0, res)
    case Sub => Totals("SUB", l, r, if Ints(l, r) then l.i - r.i else 0, res)
    case Mul => Totals("MUL", l, r, if Ints(l, r) then l.i * r.i else 0, res)
    case Div => Divides("DIV", l, r, false, res)
    case Mod => Divides("MOD", l, r, true, res)
    case CmpEq => Relates("CMP_EQ", l, r, Ints(l, r) && l.i == r.i, res)
    case CmpNe => Relates("CMP_NE", l, r, Ints(l, r) && l.i != r.i, res)
    case CmpLt => Relates("CMP_LT", l, r, Ints(l, r) && l.i < r.i, res)
    case CmpLe => Relates("CMP_LE", l, r, Ints(l, r) && l.i <= r.i, res)
    case CmpGt => Relates("CMP_GT", l, r, Ints(l, r) && l.i > r.i, res)
    case CmpGe => Relates("CMP_GE", l, r, Ints(l, r) && l.i >= r.i, res)
    case And => Joins("AND", l, r, true, res)
    case Or => Joins("OR", l, r, false, res)
    case WinBack => Totals("WIN_BACK", l, r, if Ints(l, r) then l.i - r.i else 0, res)
    case WinFwd => Totals("WIN_FWD", l, r, if Ints(l, r) then l.i + r.i else 0, res)
  }

  /** What a bound value answers for a field: its own fields, its time and its target; a field
      that it lacks is Unknown, and a value of another family a type error. */
  ghost predicate Answers(family: Family, value: BoundValue, field: nat, res: Result<Slot>)
  {
    match family
    case EventFamily =>
      if !value.BoundEvent? then res == Err(TypeMismatch("LOAD_EVENT_FIELD"))
      else if field == 65534 then res == Ok(IntSlot(value.time))
      else if field in value.fields then res == Ok(IntSlot(value.fields[field]))
      else res == Ok(if field == 65535 then IntSlot(value.scopeKey) else Truth(Unknown))
    case CauseFamily =>
      if !value.BoundCause? then res == Err(TypeMismatch("LOAD_CAUSE_FIELD"))
      else res == Ok(if field == 0 then IntSlot(value.targetKey) else if field == 1 then IntSlot(value.time)
                     else if field == 2 then IntSlot(value.confidence) else Truth(Unknown))
    case ProblemFamily =>
      if !value.BoundProblem? then res == Err(TypeMismatch("LOAD_PROBLEM_FIELD"))
      else res == Ok(if field == 0 then IntSlot(value.targetKey) else if field == 1 then IntSlot(value.time) else Truth(Unknown))
  }

  ghost predicate Loads(ctx: PredCtx, family: Family, binding: nat, field: nat, res: Result<Slot>)
  {
    if binding >= |ctx.bindings| then res == Err(NoSuchBinding(binding))
    else if ctx.bindings[binding].Bound? then Answers(family, ctx.bindings[binding].value, field, res)
    else res == Ok(Truth(Unknown))
  }

  /** Whether a binding is `wanted`: bound, or absent. */
  ghost predicate Tells(ctx: PredCtx, binding: nat, wanted: bool, res: Result<Slot>)
  {
    if binding >= |ctx.bindings| then res == Err(NoSuchBinding(binding))
    else res == Ok(Truth(if ctx.bindings[binding].UnknownBinding? then Unknown
                         else if ctx.bindings[binding].Bound? == wanted then True else False))
  }

  ghost predicate Gives(op: PredOp, slots: Slots, ctx: PredCtx, res: Result<Slot>)
  {
    match op
    case LoadField(family, binding, field, _) => Loads(ctx, family, binding, field, res)
    case LoadConst(imm, _) => res == Ok(IntSlot(imm))
    case LoadDuration(dur, _) => res == Ok(IntSlot(dur))
    case LoadScopeKey(_) => res == Ok(IntSlot(ctx.scopeKey))
    case Compute(o, lhs, rhs, _) => Yields(o, slots[lhs], slots[rhs], res)
    case NotOp(src, _) => Negates(slots[src], res)
    case PresentOp(binding, _) => Tells(ctx, binding, true, res)
    case AbsentOp(binding, _) => Tells(ctx, binding, false, res)
    case TopoCall(func, a, b, _) =>
      var x, y := slots[a], slots[b];
      if func >= 6 then res == Err(NoSuchTopoFunction(func))
      else if !Numeric(x) || !Numeric(y) then res == Err(TypeMismatch("TOPO_CALL"))
      else res == Ok(Truth(if Ints(x, y) && x.i in ctx.interned && y.i in ctx.interned then ctx.topo(func, x.i, y.i) else Unknown))
    case WinIn(x, lo, hi, _) =>
      var v, a, b := slots[x], slots[lo], slots[hi];
      if !Numeric(v) || !Numeric(a) || !Numeric(b) then res == Err(TypeMismatch("WIN_IN"))
      else res == Ok(Truth(if !Ints(v, a) || !b.IntSlot? then Unknown else if a.i <= v.i <= b.i then True else False))
  }

  lemma {:induction false} TruncatesIs(a: int, b: int, q: int, m: int)
    requires b != 0
    ensures Truncates(a, b, q, m) <==> q == TruncDiv(a, b) && m == TruncRem(a, b)
  {
    TruncatedParts(a, b);
    if Truncates(a, b, q, m) { SameQuotient(a, b, q, m, TruncDiv(a, b), TruncRem(a, b)); }
  }

  lemma TruncatedParts(a: int, b: int)
    requires b != 0
    ensures Truncates(a, b, TruncDiv(a, b), TruncRem(a, b))
  {
    hide Truncates;
    var c := if a >= 0 then a else -a;
    EuclideanParts(c, b);
    PartsOfEitherSign(c, b, c / b, c % b);
  }

  lemma EuclideanParts(c: int, b: int)
    requires b != 0
    ensures c == (c / b) * b + c % b && 0 <= c % b < (if b > 0 then b else -b)
  {
  }

  lemma PartsOfEitherSign(c: int, b: int, q: int, m: int)
    requires c >= 0 && b != 0 && c == q * b + m && 0 <= m < (if b > 0 then b else -b)
    ensures Truncates(c, b, q, m) && (c > 0 ==> Truncates(-c, b, -q, -m))
  {
    NegatedProduct(q, b);
  }

  lemma NegatedProduct(x: int, b: int)
    ensures (-x) * b == -(x * b)
  {
  }

  lemma SameQuotient(a: int, b: int, q: int, m: int, q': int, m': int)
    requires b != 0 && Truncates(a, b, q, m) && Truncates(a, b, q', m')
    ensures q == q' && m == m'
  {
    NotGreater(a, b, q, m, q', m');
    NotGreater(a, b, q', m', q, m);
  }

  lemma NotGreater(a: int, b: int, q: int, m: int, q': int, m': int)
    requires b != 0 && Truncates(a, b, q, m) && Truncates(a, b, q', m')
    ensures q <= q'
  {
    var d := q - q';
    assert d * b == m' - m by { assert q * b - q' * b == (q - q') * b; }
    if d > 0 { AtLeastOnce(d, b); }
  }

  lemma AtLeastOnce(d: int, b: int)
    requires d > 0
    ensures b > 0 ==> d * b >= b
    ensures b < 0 ==> d * b <= b
  {
    assert d * b == b + (d - 1) * b;
  }

  lemma {:induction false} DividesIs(op: SlotOp, l: Slot, r: Slot, res: Result<Slot>)
    requires op.Div? || op.Mod?
    ensures Yields(op, l, r, res) <==> res == Apply(op, l, r)
  {
    hide Truncates, TruncDiv, TruncRem;
    if Ints(l, r) && r.i != 0 {
      forall q, m ensures Truncates(l.i, r.i, q, m) <==> q == TruncDiv(l.i, r.i) && m == TruncRem(l.i, r.i) { TruncatesIs(l.i, r.i, q, m); }
      var q, m := TruncDiv(l.i, r.i), TruncRem(l.i, r.i);
      assert Truncates(l.i, r.i, q, m);
    }
  }

  lemma JoinsIs(op: SlotOp, l: Slot, r: Slot, res: Result<Slot>)
    requires op.And? || op.Or?
    ensures Yields(op, l, r, res) <==> res == Apply(op, l, r)
  {
    if !l.Empty? && !r.Empty? {
      var a, b := AsTruth(l, OpName(op)).value, AsTruth(r, OpName(op)).value;
      assert IsTruthOf(l, Rank(a)) && IsTruthOf(r, Rank(b));
    }
  }

  lemma NegatesIs(s: Slot, res: Result<Slot>)
    ensures Negates(s, res) <==> res == ApplyNot(s)
  {
    if !s.Empty? { assert IsTruthOf(s, Rank(AsTruth(s, "NOT").value)); }
  }

  /** Each operator yields exactly this. */
  lemma YieldsIsApply(op: SlotOp, l: Slot, r: Slot, res: Result<Slot>)
    ensures Yields(op, l, r, res) <==> res == Apply(op, l, r)
  {
    hide Divides, Joins, TruncDiv, TruncRem;
    if op.And? || op.Or? { JoinsIs(op, l, r, res); } else if op.Div? || op.Mod? { DividesIs(op, l, r, res); }
  }

  lemma LoadsIs(ctx: PredCtx, family: Family, binding: nat, field: nat, res: Result<Slot>)
    ensures Loads(ctx, family, binding, field, res) <==> res == Load(ctx, family, binding, field)
  {
  }

  lemma TellsIs(ctx: PredCtx, binding: nat, wanted: bool, res: Result<Slot>)
    ensures Tells(ctx, binding, wanted, res)
            <==> res == match Presence(ctx, binding)
                        case Ok(t) => Ok(Truth(if wanted then t else t.Not()))
                        case Err(e) => Err(e)
  {
  }

  lemma GivesIsOpValue(op: PredOp, slots: Slots, ctx: PredCtx, res: Result<Slot>)
    ensures Gives(op, slots, ctx, res) <==> res == OpValue(op, slots, ctx)
  {
    hide Yields, Apply, Negates, ApplyNot, Loads, Load, Tells, Presence;
    match op
    case LoadField(family, binding, field, _) => LoadsIs(ctx, family, binding, field, res);
    case PresentOp(binding, _) => TellsIs(ctx, binding, true, res);
    case AbsentOp(binding, _) => TellsIs(ctx, binding, false, res);
    case Compute(o, lhs, rhs, _) => YieldsIsApply(o, slots[lhs], slots[rhs], res);
    case NotOp(src, _) => NegatesIs(slots[src], res);
    case _ =>
  }

  // ----- programs -----

  type Slots = s: seq<Slot> | |s| == MAX_SLOTS witness seq(MAX_SLOTS, _ => Empty)

  /** The value an opcode computes. */
  function OpValue(op: PredOp, slots: Slots, ctx: PredCtx): Result<Slot>
  {
    match op
    case LoadField(family, binding, field, _) => Load(ctx, family, binding, field)
    case LoadConst(imm, _) => Ok(IntSlot(imm))
    case LoadDuration(dur, _) => Ok(IntSlot(dur))
    case LoadScopeKey(_) => Ok(IntSlot(ctx.scopeKey))
    case Compute(o, lhs, rhs, _) => Apply(o, slots[lhs], slots[rhs])
    case NotOp(src, _) => ApplyNot(slots[src])
    case PresentOp(binding, _) => (var t :- Presence(ctx, binding); Ok(Truth(t)))
    case AbsentOp(binding, _) => (var t :- Presence(ctx, binding); Ok(Truth(t.Not())))
    case TopoCall(func, a, b, _) => CallTopo(ctx, func, slots[a], slots[b])
    case WinIn(x, lo, hi, _) => Within(slots[x], slots[lo], slots[hi])
  }

  /** Runs `ops` left to right, stopping at the first error. */
  function RunOps(ops: seq<PredOp>, slots: Slots, ctx: PredCtx): Result<Slots>
  {
    if ops == [] then Ok(slots)
    else
      var v :- OpValue(ops[0], slots, ctx);
      RunOps(ops[1..], slots[ops[0].dst := v], ctx)
  }

  function Eval(pred: Predicate, ctx: PredCtx): Result<T3>
  {
    var slots :- RunOps(pred.ops, seq(MAX_SLOTS, _ => Empty), ctx);
    AsTruth(slots[pred.result], "RESULT")
  }

  lemma {:induction false} RunOpsConcat(a: seq<PredOp>, b: seq<PredOp>, slots: Slots, ctx: PredCtx)
    ensures RunOps(a + b, slots, ctx) ==
            match RunOps(a, slots, ctx)
            case Ok(mid) => RunOps(b, mid, ctx)
            case Err(e) => Err(e)
  {
    if a == [] {
      assert a + b == b;
    } else {
      assert (a + b)[0] == a[0] && (a + b)[1..] == a[1..] + b;
      var v := OpValue(a[0], slots, ctx);
      if v.Ok? { RunOpsConcat(a[1..], b, slots[a[0].dst := v.value], ctx); }
    }
  }

  /** The opcodes run one after the other, up to the first error. */
  ghost predicate Runs(ops: seq<PredOp>, slots: Slots, ctx: PredCtx, end: Result<Slots>)
  {
    if ops == [] then end == Ok(slots)
    else
      exists v :: Gives(ops[0], slots, ctx, v)
                  && if v.Err? then end == Err(v.error) else Runs(ops[1..], slots[ops[0].dst := v.value], ctx, end)
  }

  /** The truth that the result slot stands for when the opcodes have run on empty slots. */
  ghost predicate Evaluates(pred: Predicate, ctx: PredCtx, r: Result<T3>)
  {
    exists end :: Runs(pred.ops, seq(MAX_SLOTS, _ => Empty), ctx, end)
                  && if end.Err? then r == Err(end.error) else Concludes(end.value[pred.result], r)
  }

  predicate Concludes(s: Slot, r: Result<T3>)
  {
    if s.Empty? then r == Err(TypeMismatch("RESULT")) else r.Ok? && IsTruthOf(s, Rank(r.value))
  }

  lemma {:induction false} RunsIsRunOps(ops: seq<PredOp>, slots: Slots, ctx: PredCtx, end: Result<Slots>)
    ensures Runs(ops, slots, ctx, end) <==> end == RunOps(ops, slots, ctx)
  {
    hide Gives, OpValue;
    if ops != [] {
      var v := OpValue(ops[0], slots, ctx);
      forall w ensures Gives(ops[0], slots, ctx, w) <==> w == v { GivesIsOpValue(ops[0], slots, ctx, w); }
      assert Gives(ops[0], slots, ctx, v);
      if v.Ok? { RunsIsRunOps(ops[1..], slots[ops[0].dst := v.value], ctx, end); }
    }
  }

  /** Evaluation is exactly that. */
  lemma EvaluatesIsEval(pred: Predicate, ctx: PredCtx, r: Result<T3>)
    ensures Evaluates(pred, ctx, r) <==> r == Eval(pred, ctx)
  {
    hide Runs, RunOps;
    var empty: Slots := seq(MAX_SLOTS, _ => Empty);
    var end := RunOps(pred.ops, empty, ctx);
    forall e ensures Runs(pred.ops, empty, ctx, e) <==> e == end { RunsIsRunOps(pred.ops, empty, ctx, e); }
    assert Runs(pred.ops, empty, ctx, end);
    if end.Ok? { ConcludesIs(end.value[pred.result], r); }
  }

  lemma ConcludesIs(s: Slot, r: Result<T3>)
    ensures Concludes(s, r) <==> r == AsTruth(s, "RESULT")
  {
  }

  /** `eval_predicate`: the loop over the opcodes on a stack-allocated register file. */
  method EvalPredicate(pred: Predicate, ctx: PredCtx) returns (r: Result<T3>)
    ensures r == Eval(pred, ctx) && Evaluates(pred, ctx, r)
  {
    hide Evaluates;
    EvaluatesIsEval(pred, ctx, Eval(pred, ctx));
    var slots := new Slot[MAX_SLOTS](_ => Empty);
    assert slots[..] == seq(MAX_SLOTS, _ => Empty);
    var i := 0;
    while i < |pred.ops|
      invariant 0 <= i <= |pred.ops|
      invariant RunOps(pred.ops, seq(MAX_SLOTS, _ => Empty), ctx) == RunOps(pred.ops[i..], slots[..], ctx)
    {
      var op := pred.ops[i];
      assert pred.ops[i..][0] == op && pred.ops[i..][1..] == pred.ops[i + 1..];
      var v := OpValue(op, slots[..], ctx);
      if v.Err? { return Err(v.error); }
      slots[op.dst] := v.value;
      i := i + 1;
    }
    r := AsTruth(slots[pred.result], "RESULT");
  }

  // ----- Unknown is sound -----

  /** `s'` says at least as much as `s`. */
  predicate Refines(s: Slot, s': Slot) { s == s' || s == Truth(Unknown) }

  predicate RefinesT3(t: T3, t': T3) { t == t' || t.Unknown? }

  ghost predicate RefinesAll(s: Slots, s': Slots)
  {
    forall i :: 0 <= i < MAX_SLOTS ==> Refines(s[i], s'[i])
  }

  /** The same context after some Unknown bindings and topology answers are settled, or more
      scopes have been interned. */
  ghost predicate RefinesCtx(ctx: PredCtx, ctx': PredCtx)
  {
    && |ctx.bindings| == |ctx'.bindings|
    && (forall i :: 0 <= i < |ctx.bindings| ==> ctx.bindings[i] == ctx'.bindings[i] || ctx.bindings[i].UnknownBinding?)
    && ctx.scopeKey == ctx'.scopeKey
    && ctx.interned <= ctx'.interned
    && forall f: nat, a: int, b: int :: RefinesT3(ctx.topo(f, a, b), ctx'.topo(f, a, b))
  }

  lemma ApplyMonotone(op: SlotOp, l: Slot, r: Slot, l': Slot, r': Slot)
    requires Refines(l, l') && Refines(r, r')
    requires Apply(op, l, r).Ok? && Apply(op, l', r').Ok?
    ensures Refines(Apply(op, l, r).value, Apply(op, l', r').value)
  {
  }

  lemma OpMonotone(op: PredOp, s: Slots, s': Slots, ctx: PredCtx, ctx': PredCtx)
    requires RefinesAll(s, s') && RefinesCtx(ctx, ctx')
    requires OpValue(op, s, ctx).Ok? && OpValue(op, s', ctx').Ok?
    ensures Refines(OpValue(op, s, ctx).value, OpValue(op, s', ctx').value)
  {
    match op
    case Compute(o, lhs, rhs, _) => ApplyMonotone(o, s[lhs], s[rhs], s'[lhs], s'[rhs]);
    case LoadField(family, binding, field, _) =>
    case TopoCall(func, a, b, _) =>
      assert forall f: nat, x: int, y: int :: RefinesT3(ctx.topo(f, x, y), ctx'.topo(f, x, y));
    case _ =>
  }

  lemma {:induction false} RunMonotone(ops: seq<PredOp>, s: Slots, s': Slots, ctx: PredCtx, ctx': PredCtx)
    requires RefinesAll(s, s') && RefinesCtx(ctx, ctx')
    requires RunOps(ops, s, ctx).Ok? && RunOps(ops, s', ctx').Ok?
    ensures RefinesAll(RunOps(ops, s, ctx).value, RunOps(ops, s', ctx').value)
  {
    if ops != [] {
      OpMonotone(ops[0], s, s', ctx, ctx');
      var v, v' := OpValue(ops[0], s, ctx).value, OpValue(ops[0], s', ctx').value;
      RunMonotone(ops[1..], s[ops[0].dst := v], s'[ops[0].dst := v'], ctx, ctx');
    }
  }

  /** A definite answer survives every refinement of what was Unknown, as long as the
      re-evaluation does not fail. */
  lemma UnknownIsSound(pred: Predicate, ctx: PredCtx, ctx': PredCtx)
    requires RefinesCtx(ctx, ctx')
    requires Eval(pred, ctx).Ok? && !Eval(pred, ctx).value.Unknown?
    requires Eval(pred, ctx').Ok?
    ensures Eval(pred, ctx') == Eval(pred, ctx)
  {
    var empty := seq(MAX_SLOTS, _ => Empty);
    RunMonotone(pred.ops, empty, empty, ctx, ctx');
  }

  /** The proviso is needed: an Unknown binding hides a type error that settling it shows. */
  lemma RefinementMayFail()
    ensures exists pred: Predicate, ctx: PredCtx, ctx': PredCtx ::
              RefinesCtx(ctx, ctx') && Eval(pred, ctx) == Ok(True) && Eval(pred, ctx').Err?
  {
    var ops := [LoadField(EventFamily, 0, 5, 0), LoadConst(1, 1), Compute(Or, 0, 1, 2)];
    var pred := Predicate(ops, 2);
    var topo := (f: nat, a: int, b: int) => Unknown;
    var ctx := PredCtx([UnknownBinding], 0, {}, topo);
    var ctx' := PredCtx([Bound(BoundProblem(0, 0))], 0, {}, topo);
    var e: Slots := seq(MAX_SLOTS, _ => Empty);
    var s1: Slots := e[0 := Truth(Unknown)];
    var s2: Slots := s1[1 := IntSlot(1)];
    var s3: Slots := s2[2 := Truth(True)];
    assert ops[1..][0] == ops[1] && ops[1..][1..][0] == ops[2];
    assert ops[1..][1..][1..] == [];
    assert RunOps(ops[1..][1..], s2, ctx) == Ok(s3);
    assert RunOps(ops[1..], s1, ctx) == Ok(s3);
    assert RunOps(ops, e, ctx) == Ok(s3);
    assert RunOps(ops, e, ctx').Err?;
    assert RefinesCtx(ctx, ctx') && Eval(pred, ctx) == Ok(True) && Eval(pred, ctx').Err?;
  }
}
