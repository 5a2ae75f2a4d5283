/** What each instruction of crates/nfdl-bytecode/src/lib.rs does, stated without the
    arithmetic of `Bytecode`: sums modulo 2^64, quotients by their remainders, bits one by
    one, numbers byte by byte.  `Bytecode.Exec` is proved to be the only such step. */
module Instructions {
  import opened Options
  import opened Bytecode
  import BitCursor

  // ----- results of operators -----

  /** Binary digit `k` of `x`. */
  predicate Digit(x: nat, k: nat) { x / Pow2(k) % 2 == 1 }

  /** A result that may not fit: exact if it fits; otherwise the build panics, or the result
      is what is left modulo 2^64. */
  predicate Fitted(checked: bool, exact: nat, res: Option<U64>)
  {
    if exact < U64_SIZE then res == Some(exact)
    else if checked then res.None?
    else res.Some? && (exact - res.value) % U64_SIZE == 0
  }

  predicate IsTruth(v: U64, holds: bool) { v == if holds then 1 else 0 }

  /** `res` is what `l op r` yields; `None` is a panic. */
  ghost predicate Yields(checked: bool, op: BinOp, l: U64, r: U64, res: Option<U64>)
  {
    match op
    case Add => Fitted(checked, l + r, res)
    case Mul => Fitted(checked, l * r, res)
    case Shl =>
      var n := r % U32_SIZE;
      if checked && n >= 64 then res.None? else res.Some? && (l * Pow2(n % 64) - res.value) % U64_SIZE == 0
    case Shr =>
      var n := r % U32_SIZE;
      if checked && n >= 64 then res.None?
      else res.Some? && res.value * Pow2(n % 64) <= l < (res.value + 1) * Pow2(n % 64)
    case _ => res.Some? && AlwaysYields(op, l, r, res.value)
  }

  predicate OfDigits(op: BinOp, a: bool, b: bool)
  {
    match op
    case BitAnd => a && b
    case BitOr => a || b
    case _ => a != b
  }

  /** `v` is `l op r` digit by digit. */
  ghost predicate SameDigits(op: BinOp, l: U64, r: U64, v: U64)
  {
    forall k: nat :: k < 64 ==> Digit(v, k) == OfDigits(op, Digit(l, k), Digit(r, k))
  }

  /** The operators that cannot fail. */
  ghost predicate AlwaysYields(op: BinOp, l: U64, r: U64, v: U64)
  {
    match op
    case Sub => r + v == if l >= r then l else r
    case Div => if r == 0 then v == 0 else v * r <= l < (v + 1) * r
    case Mod => if r == 0 then v == 0 else v < r && exists q: nat :: l == q * r + v
    case Eq => IsTruth(v, l == r)
    case Ne => IsTruth(v, l != r)
    case Gt => IsTruth(v, l > r)
    case Lt => IsTruth(v, l < r)
    case Ge => IsTruth(v, l >= r)
    case Le => IsTruth(v, l <= r)
    case And => IsTruth(v, l != 0 && r != 0)
    case Or => IsTruth(v, l != 0 || r != 0)
    case BitAnd => SameDigits(op, l, r, v)
    case BitOr => SameDigits(op, l, r, v)
    case BitXor => SameDigits(op, l, r, v)
    case _ => true
  }

  ghost predicate UnaryYields(op: UnaryOp, x: U64, v: U64)
  {
    match op
    case Not => IsTruth(v, x == 0)
    case BitNot => x + v == U64_SIZE - 1
    case Neg => (x + v) % U64_SIZE == 0
  }

  function Result(a: Arith): Option<U64> { if a.Value? then Some(a.v) else None }

  // ----- the operators of Bytecode are these -----

  lemma ModIsLess(x: nat)
    ensures (x - x % U64_SIZE) % U64_SIZE == 0
  {
  }

  lemma SameResidue(x: int, a: U64, b: U64)
    requires (x - a) % U64_SIZE == 0 && (x - b) % U64_SIZE == 0
    ensures a == b
  {
  }

  lemma FittedIs(checked: bool, exact: nat, res: Option<U64>)
    ensures Fitted(checked, exact, res) <==> res == Result(Wrap(checked, exact))
  {
    if exact >= U64_SIZE && !checked {
      ModIsLess(exact);
      if res.Some? && (exact - res.value) % U64_SIZE == 0 { SameResidue(exact, res.value, exact % U64_SIZE); }
    }
  }

  lemma {:induction false} QuotientIs(l: nat, r: nat, v: nat)
    requires r > 0
    ensures v * r <= l < (v + 1) * r <==> v == l / r
  {
    assert l == (l / r) * r + l % r;
    if v < l / r { BitCursor.AtLeast(l / r - v, r); BitCursor.SpreadDifference(l / r, v, r); }
    if v > l / r { BitCursor.AtLeast(v - l / r, r); BitCursor.SpreadDifference(v, l / r, r); }
  }

  lemma {:induction false} RemainderIs(l: nat, r: nat, v: nat)
    requires r > 0
    ensures v < r && (exists q: nat :: l == q * r + v) <==> v == l % r
  {
    assert l == (l / r) * r + l % r;
    if v < r && exists q: nat :: l == q * r + v {
      var q: nat :| l == q * r + v;
      BitCursor.QuotientIs(l, r, q, v);
    }
  }

  lemma {:induction false} ShiftLeftIs(l: U64, k: nat)
    ensures (l * Pow2(k) - ShiftLeft(l, k)) % U64_SIZE == 0
    decreases k
  {
    if k > 0 {
      var d := 2 * l % U64_SIZE;
      ShiftLeftIs(d, k - 1);
      DoubleStep(l, d, Pow2(k - 1), ShiftLeft(d, k - 1));
    }
  }

  lemma DoubleStep(l: nat, d: nat, p: nat, v: nat)
    requires d == 2 * l % U64_SIZE && (d * p - v) % U64_SIZE == 0
    ensures (l * (2 * p) - v) % U64_SIZE == 0
  {
    var q := 2 * l / U64_SIZE;
    var m := (d * p - v) / U64_SIZE;
    assert 2 * l == q * U64_SIZE + d && d * p - v == m * U64_SIZE;
    assert l * (2 * p) == (2 * l) * p == (q * U64_SIZE + d) * p == (q * p) * U64_SIZE + d * p;
    Multiple(q * p + m);
  }

  lemma Multiple(n: int)
    ensures (n * U64_SIZE) % U64_SIZE == 0
  {
  }

  lemma {:induction false} ShiftRightIs(l: U64, k: nat)
    ensures ShiftRight(l, k) == l / Pow2(k)
    decreases k
  {
    if k > 0 {
      ShiftRightIs(l / 2, k - 1);
      BitCursor.HalveFirst(l, Pow2(k - 1));
    }
  }

  lemma {:induction false} DigitsAre(op: BinOp, n: nat, l: nat, r: nat, k: nat)
    requires k < n
    ensures Digit(Digits(op, n, l, r), k) <==> OfDigits(op, Digit(l, k), Digit(r, k))
    decreases n
  {
    hide Digit, Digits, BitOf, OfDigits;
    LowDigit(op, n, l, r);
    if k > 0 {
      DigitsAre(op, n - 1, l / 2, r / 2, k - 1);
      DigitOfHalf(Digits(op, n, l, r), k);
      DigitOfHalf(l, k);
      DigitOfHalf(r, k);
    }
  }

  lemma LowDigit(op: BinOp, n: nat, l: nat, r: nat)
    requires n > 0
    ensures Digit(Digits(op, n, l, r), 0) <==> OfDigits(op, Digit(l, 0), Digit(r, 0))
    ensures Digits(op, n, l, r) / 2 == Digits(op, n - 1, l / 2, r / 2)
  {
  }

  lemma DigitOfHalf(x: nat, k: nat)
    requires k > 0
    ensures Digit(x, k) <==> Digit(x / 2, k - 1)
  {
    BitCursor.HalveFirst(x, Pow2(k - 1));
  }

  /** Numbers below 2^n with the same binary digits are equal. */
  lemma {:induction false} DigitsDetermine(a: nat, b: nat, n: nat)
    requires a < Pow2(n) && b < Pow2(n) && forall k: nat :: k < n ==> (Digit(a, k) <==> Digit(b, k))
    ensures a == b
  {
    if n > 0 {
      forall k: nat | k < n - 1 ensures Digit(a / 2, k) <==> Digit(b / 2, k) {
        DigitOfHalf(a, k + 1);
        DigitOfHalf(b, k + 1);
      }
      DigitsDetermine(a / 2, b / 2, n - 1);
      assert Digit(a, 0) <==> Digit(b, 0);
    }
  }

  lemma {:induction false} BitwiseIs(op: BinOp, l: U64, r: U64, v: U64)
    ensures SameDigits(op, l, r, v) <==> v == Bitwise(op, l, r)
  {
    hide Digit, Digits, OfDigits, Pow2;
    Pow2Sixty4();
    var w := Bitwise(op, l, r);
    forall k: nat | k < 64 ensures Digit(w, k) == OfDigits(op, Digit(l, k), Digit(r, k)) { DigitsAre(op, 64, l, r, k); }
    if SameDigits(op, l, r, v) { DigitsDetermine(v, w, 64); }
  }

  /** Each binary operator yields exactly this. */
  lemma YieldsIsEvalBinary(checked: bool, op: BinOp, l: U64, r: U64, res: Option<U64>)
    ensures Yields(checked, op, l, r, res) <==> res == Result(EvalBinary(checked, op, l, r))
  {
    hide ShiftLeft, ShiftRight, Bitwise, Fitted, Wrap, SameDigits, Pow2, Digit;
    match op
    case Add => FittedIs(checked, l + r, res);
    case Mul => FittedIs(checked, l * r, res);
    case Shl => ShlIs(checked, l, r, res);
    case Shr => ShrIs(checked, l, r, res);
    case _ => if res.Some? { AlwaysIs(op, l, r, res.value); }
  }

  lemma AlwaysIs(op: BinOp, l: U64, r: U64, v: U64)
    requires !op.Add? && !op.Mul? && !op.Shl? && !op.Shr?
    ensures AlwaysYields(op, l, r, v) <==> Value(v) == EvalBinary(false, op, l, r)
    ensures EvalBinary(true, op, l, r) == EvalBinary(false, op, l, r)
  {
    hide ShiftLeft, ShiftRight, Bitwise, Wrap, SameDigits, Pow2, Digit;
    match op
    case BitAnd => BitwiseIs(op, l, r, v);
    case BitOr => BitwiseIs(op, l, r, v);
    case BitXor => BitwiseIs(op, l, r, v);
    case Div => if r > 0 { QuotientIs(l, r, v); }
    case Mod => if r > 0 { RemainderIs(l, r, v); }
    case _ =>
  }

  lemma ShlIs(checked: bool, l: U64, r: U64, res: Option<U64>)
    ensures Yields(checked, Shl, l, r, res) <==> res == Result(EvalBinary(checked, Shl, l, r))
  {
    hide ShiftLeft, Pow2;
    var k := r % U32_SIZE % 64;
    ShiftLeftIs(l, k);
    if res.Some? && (l * Pow2(k) - res.value) % U64_SIZE == 0 { SameResidue(l * Pow2(k), res.value, ShiftLeft(l, k)); }
  }

  lemma ShrIs(checked: bool, l: U64, r: U64, res: Option<U64>)
    ensures Yields(checked, Shr, l, r, res) <==> res == Result(EvalBinary(checked, Shr, l, r))
  {
    hide ShiftRight, Pow2;
    var k := r % U32_SIZE % 64;
    ShiftRightIs(l, k);
    if res.Some? { QuotientIs(l, Pow2(k), res.value); }
  }

  lemma UnaryYieldsIsEvalUnary(op: UnaryOp, x: U64, v: U64)
    ensures UnaryYields(op, x, v) <==> v == EvalUnary(op, x)
  {
  }

  // ----- what an instruction does to the machine -----

  /** `after` is `vm` with `v` in `slot`, which is then marked; an index out of range is
      ignored. */
  ghost predicate Stores(vm: Vm, slot: nat, v: U64, after: Vm)
  {
    && after == vm.(slots := after.slots, touched := after.touched)
    && |after.slots| == |vm.slots| && |after.touched| == |vm.touched|
    && (forall k :: 0 <= k < |vm.slots| ==> after.slots[k] == if k == slot then v else vm.slots[k])
    && (forall k :: 0 <= k < |vm.touched| ==> after.touched[k] == (vm.touched[k] || (k == slot && slot < |vm.slots|)))
  }

  /** The machine goes on behind `ip` with `v` stored. */
  ghost predicate Puts(vm: Vm, ip: nat, slot: nat, v: U64, step: Step)
  {
    step.Next? && step.ip == ip + 1 && Stores(vm, slot, v, step.vm)
  }

  /** The first whole byte not yet read. */
  function NextByte(vm: Vm): nat { if vm.bit == 0 then vm.pos else vm.pos + 1 }

  function At(vm: Vm, pos: nat): Vm { vm.(pos := pos, bit := 0) }

  /** How many of the `n` bytes from `at` on are not there. */
  function Missing(input: seq<Byte>, at: nat, n: nat): nat
  {
    if at + n <= |input| then 0 else if at >= |input| then n else at + n - |input|
  }

  /** One to four bytes, the most significant first. */
  function Word(b: seq<Byte>): nat
    requires 1 <= |b| <= 4
  {
    if |b| == 1 then b[0]
    else if |b| == 2 then (b[0] as int) * 0x100 + b[1]
    else if |b| == 3 then (b[0] as int) * 0x1_0000 + (b[1] as int) * 0x100 + b[2]
    else (b[0] as int) * 0x100_0000 + (b[1] as int) * 0x1_0000 + (b[2] as int) * 0x100 + b[3]
  }

  function Reversed(b: seq<Byte>): (r: seq<Byte>)
    ensures |r| == |b|
  {
    seq(|b|, i requires 0 <= i < |b| => b[|b| - 1 - i])
  }

  ghost predicate ReadsWord(vm: Vm, ip: nat, stream: bool, n: nat, slot: nat, le: bool, step: Step)
    requires 1 <= n <= 4
  {
    var at := NextByte(vm);
    if n > 1 && at + n >= U64_SIZE then step == Halt(At(vm, at), Panic)
    else if at + n <= |vm.input| then
      var b := vm.input[at..at + n];
      Word(if le then Reversed(b) else b) < U64_SIZE && Puts(At(vm, at + n), ip, slot, Word(if le then Reversed(b) else b), step)
    else if stream then step == Halt(At(vm, at), NeedMoreBytes(ip, Missing(vm.input, at, n)))
    else Puts(At(vm, at), ip, slot, 0, step)
  }

  /** The length a slice asks for: the value of its slot, none for a slot that is not there,
      and without a slot whatever is buffered, up to 16 bytes. */
  ghost predicate IsLength(vm: Vm, at: nat, lenSlot: nat, len: U64)
  {
    var buffered := (|vm.input| - at) % U64_SIZE;
    len == if lenSlot == NO_LEN_SLOT then (if buffered < 16 then buffered else 16)
           else if lenSlot < |vm.slots| then vm.slots[lenSlot]
           else 0
  }

  /** Of the `n` bytes from `at` on, those that are there; addresses wrap. */
  function There(input: seq<Byte>, at: nat, n: nat): seq<Byte>
  {
    if n == 0 then []
    else
      var i := (at + n - 1) % U64_SIZE;
      There(input, at, n - 1) + (if i < |input| then [input[i]] else [])
  }

  /** A byte string as a number, the most significant byte first. */
  function Number(b: seq<Byte>): nat
  {
    if b == [] then 0 else Number(b[..|b| - 1]) * 256 + b[|b| - 1]
  }

  ghost predicate ReadsSlice(checked: bool, vm: Vm, ip: nat, stream: bool, lenSlot: nat, dst: nat, step: Step)
  {
    var at := NextByte(vm);
    if lenSlot == NO_LEN_SLOT && checked && at > |vm.input| then step == Halt(At(vm, at), Panic)
    else
      exists len: U64 :: IsLength(vm, at, lenSlot, len) && SliceOf(checked, vm, ip, stream, lenSlot == NO_LEN_SLOT, dst, at, len, step)
  }

  ghost predicate SliceOf(checked: bool, vm: Vm, ip: nat, stream: bool, unsized: bool, dst: nat, at: nat, len: U64, step: Step)
  {
    if checked && at + len >= U64_SIZE then step == Halt(At(vm, at), Panic)
    else if stream && !unsized && (at + len) % U64_SIZE > |vm.input| then
      step == Halt(At(vm, at), NeedMoreBytes(ip, if Missing(vm.input, at, len) >= 1 then Missing(vm.input, at, len) else 1))
    else
      var v := Number(There(vm.input, at, if len < 8 then len else 8));
      v < U64_SIZE && Puts(At(vm, (at + len) % U64_SIZE), ip, dst, v, step)
  }

  /** Bit `k` of the input, the most significant bit of byte 0 first. */
  predicate InputBit(input: seq<Byte>, k: nat) { k / 8 < |input| && Digit(input[k / 8], 7 - k % 8) }

  /** The low 64 digits of `v` are the `n` input bits from `start` on. */
  ghost predicate IsBits(input: seq<Byte>, start: nat, n: nat, v: U64)
  {
    forall k: nat :: k < 64 ==> (Digit(v, k) <==> k < n && InputBit(input, start + n - 1 - k))
  }

  /** The bits taken and where the cursor stands behind them. */
  ghost predicate TakesBits(vm: Vm, ip: nat, start: nat, n: nat, slot: nat, v: U64, moved: Vm, step: Step)
  {
    && IsBits(vm.input, start, n, v) && moved == vm.(pos := moved.pos, bit := moved.bit)
    && moved.bit < 8 && 8 * moved.pos + moved.bit == start + n && Puts(moved, ip, slot, v, step)
  }

  ghost predicate TakesSome(vm: Vm, ip: nat, start: nat, n: nat, slot: nat, step: Step)
  {
    exists v: U64, moved: Vm :: TakesBits(vm, ip, start, n, slot, v, moved, step)
  }

  ghost predicate ReadsBits(vm: Vm, ip: nat, stream: bool, bits: nat, slot: nat, step: Step)
    requires vm.bit < 8
  {
    var start := 8 * vm.pos + vm.bit;
    var left := if start <= 8 * |vm.input| then 8 * |vm.input| - start else 0;
    if stream && left < bits then
      step.Halt? && step.vm == vm && step.outcome.NeedMoreBytes? && step.outcome.ip == ip
      && 8 * (step.outcome.needed - 1) < bits - left <= 8 * step.outcome.needed
    else
      TakesSome(vm, ip, start, if left < bits then left else bits, slot, step)
  }

  /** Instruction `instr` at `ip` takes the machine `vm` to `step`. */
  ghost predicate Does(cfg: Config, instr: Instruction, vm: Vm, ip: nat, stream: bool, step: Step)
    requires vm.bit < 8
  {
    match instr
    case ReadU8(slot) => ReadsWord(vm, ip, stream, 1, slot, false, step)
    case ReadU16(slot, le) => ReadsWord(vm, ip, stream, 2, slot, le, step)
    case ReadU24(slot, le) => ReadsWord(vm, ip, stream, 3, slot, le, step)
    case ReadU32(slot, le) => ReadsWord(vm, ip, stream, 4, slot, le, step)
    case ReadSlice(lenSlot, dst) => ReadsSlice(cfg.checked, vm, ip, stream, lenSlot, dst, step)
    case ReadBits(bits, slot) => ReadsBits(vm, ip, stream, bits, slot, step)
    case ReadRest(name, slot) =>
      var at := NextByte(vm);
      var size := if at <= |vm.input| then |vm.input| - at else 0;
      Puts(At(vm, |vm.input|).(restStarts := vm.restStarts + [(name, at)]), ip, slot, size % U64_SIZE, step)
    case Validate(p, message) =>
      if p >= |vm.slots| then step == Halt(vm, Panic)
      else step == if vm.slots[p] != 0 then Next(vm, ip + 1) else Halt(vm, Constraint(message))
    case EmitField(name, slot) =>
      if slot >= |vm.slots| then step == Halt(vm, Panic)
      else step == Next(vm.(emitted := vm.emitted + [(name, vm.slots[slot])]), ip + 1)
    case LoadConst(value, dst) => Puts(vm, ip, dst, value, step)
    case Binary(op, l, r, dst) =>
      if l >= |vm.slots| || r >= |vm.slots| then step == Halt(vm, Panic)
      else exists res :: Yields(cfg.checked, op, vm.slots[l], vm.slots[r], res)
                         && if res.None? then step == Halt(vm, Panic) else Puts(vm, ip, dst, res.value, step)
    case Unary(op, src, dst) =>
      if src >= |vm.slots| then step == Halt(vm, Panic)
      else exists v: U64 :: UnaryYields(op, vm.slots[src], v) && Puts(vm, ip, dst, v, step)
    case CopySlot(src, dst) =>
      if src >= |vm.slots| then step == Halt(vm, Panic) else Puts(vm, ip, dst, vm.slots[src], step)
    case UpdateOffset(slot) => Puts(vm, ip, slot, vm.pos % U64_SIZE, step)
    case Jump(target) => step == Next(vm, target)
    case JumpIfZero(c, target) =>
      if c >= |vm.slots| then step == Halt(vm, Panic)
      else if vm.slots[c] != 0 then step == Next(vm, ip + 1)
      else if target >= ip then step == Next(vm, target)
      else
        var counted := vm.(loops := vm.loops + 1);
        step == if counted.loops <= cfg.limits.maxLoopIterations then Next(counted, target) else Halt(counted, LoopLimit)
    case Return => step == Halt(vm, Complete)
  }

  // ----- Exec is the only such step -----

  lemma PutsIs(vm: Vm, ip: nat, slot: nat, v: U64, step: Step)
    ensures Puts(vm, ip, slot, v, step) <==> step == Next(WriteSlot(vm, slot, v), ip + 1)
  {
    var w := WriteSlot(vm, slot, v);
    assert Stores(vm, slot, v, w);
    if Puts(vm, ip, slot, v, step) {
      assert step.vm.slots == w.slots && step.vm.touched == w.touched;
    }
  }

  lemma WordIs(input: seq<Byte>, at: nat, n: nat, le: bool)
    requires at + n <= |input| && 1 <= n <= 4
    ensures var b := input[at..at + n]; Word(if le then Reversed(b) else b) == FixedValue(input, at, n, le)
  {
    if le { LittleIs(input, at, n); } else { BigIs(input, at, n); }
  }

  lemma BigIs(input: seq<Byte>, at: nat, n: nat)
    requires at + n <= |input| && 1 <= n <= 4
    ensures Word(input[at..at + n]) == BigEndian(input, at, n)
  {
    assert BigEndian(input, at, 1) == input[at];
    if n >= 2 { assert BigEndian(input, at, 2) == (input[at] as int) * 0x100 + input[at + 1]; }
    if n >= 3 { assert BigEndian(input, at, 3) == (input[at] as int) * 0x1_0000 + (input[at + 1] as int) * 0x100 + input[at + 2]; }
  }

  lemma LittleIs(input: seq<Byte>, at: nat, n: nat)
    requires at + n <= |input| && 1 <= n <= 4
    ensures Word(Reversed(input[at..at + n])) == LittleEndian(input, at, n)
    decreases n
  {
    if n >= 2 { LittleIs(input, at + 1, n - 1); }
    assert LittleEndian(input, at + n, 0) == 0;
  }

  lemma AlignedIs(vm: Vm)
    ensures Bytecode.AlignToByte(vm) == At(vm, NextByte(vm))
  {
  }

  lemma ReadsWordIs(vm: Vm, ip: nat, stream: bool, n: nat, slot: nat, le: bool, step: Step)
    requires 1 <= n <= 4
    ensures ReadsWord(vm, ip, stream, n, slot, le, step) <==> step == ReadFixed(vm, ip, stream, n, slot, le)
  {
    hide FixedValue, Word, Reversed, Puts, WriteSlot;
    var at := NextByte(vm);
    AlignedIs(vm);
    if at + n <= |vm.input| {
      WordIs(vm.input, at, n, le);
      PutsIs(At(vm, at + n), ip, slot, FixedValue(vm.input, at, n, le), step);
      WriteMoved(At(vm, at), slot, FixedValue(vm.input, at, n, le), at + n);
    } else {
      PutsIs(At(vm, at), ip, slot, 0, step);
    }
  }

  lemma WriteMoved(vm: Vm, slot: nat, v: U64, pos: nat)
    ensures WriteSlot(vm, slot, v).(pos := pos) == WriteSlot(vm.(pos := pos), slot, v)
  {
  }

  lemma {:induction false} NumberBound(b: seq<Byte>)
    ensures Number(b) < Pow2(8 * |b|)
  {
    if b != [] {
      NumberBound(b[..|b| - 1]);
      Pow2By256(|b| - 1);
    }
  }

  lemma {:induction false} ThereBound(input: seq<Byte>, at: nat, n: nat)
    ensures |There(input, at, n)| <= n
  {
    if n > 0 { ThereBound(input, at, n - 1); }
  }

  lemma {:induction false} SliceIsNumber(input: seq<Byte>, at: nat, n: nat)
    requires n <= 8
    ensures Number(There(input, at, n)) == SliceValue(input, at, n)
  {
    hide Number, There, SliceValue;
    if n == 0 {
      NoBytes(input, at);
    } else {
      SliceIsNumber(input, at, n - 1);
      NextSliceByte(input, at, n);
    }
  }

  lemma NoBytes(input: seq<Byte>, at: nat)
    ensures Number(There(input, at, 0)) == SliceValue(input, at, 0) == 0
  {
  }

  lemma NumberSnoc(b: seq<Byte>, x: Byte)
    ensures Number(b + [x]) == Number(b) * 256 + x
  {
    assert (b + [x])[..|b|] == b;
  }

  lemma NextSliceByte(input: seq<Byte>, at: nat, n: nat)
    requires 1 <= n <= 8 && Number(There(input, at, n - 1)) == SliceValue(input, at, n - 1)
    ensures Number(There(input, at, n)) == SliceValue(input, at, n)
  {
    hide Pow2, Number;
    var before := There(input, at, n - 1);
    var i := (at + n - 1) % U64_SIZE;
    if i < |input| {
      NumberSnoc(before, input[i]);
      ThereBound(input, at, n - 1);
      NumberBound(before);
      ShortNumber(|before|, Number(before));
    } else {
      assert There(input, at, n) == before;
    }
  }

  lemma ShortNumber(n: nat, v: nat)
    requires n <= 7 && v < Pow2(8 * n)
    ensures v * 256 % U64_SIZE == v * 256
  {
    hide Pow2;
    Pow2Mono(8 * n, 56);
    Pow2By256(7);
    Pow2Sixty4();
    SmallMod(v * 256);
  }

  lemma IsLengthIs(vm: Vm, at: nat, lenSlot: nat, len: U64)
    ensures IsLength(vm, at, lenSlot, len) <==> len == SliceLen(vm.slots, |vm.input|, at, lenSlot)
  {
  }

  lemma SliceOfIs(checked: bool, vm: Vm, ip: nat, stream: bool, lenSlot: nat, dst: nat, len: U64, step: Step)
    requires len == SliceLen(vm.slots, |vm.input|, NextByte(vm), lenSlot)
    requires !(lenSlot == NO_LEN_SLOT && checked && NextByte(vm) > |vm.input|)
    ensures SliceOf(checked, vm, ip, stream, lenSlot == NO_LEN_SLOT, dst, NextByte(vm), len, step)
            <==> step == ExecReadSlice(checked, vm, ip, stream, lenSlot, dst)
  {
    hide SliceLen, SliceValue, Number, There, Puts, WriteSlot;
    var at := NextByte(vm);
    AlignedIs(vm);
    var v := SliceValue(vm.input, at, Min(len, 8));
    SliceIsNumber(vm.input, at, Min(len, 8));
    PutsIs(At(vm, (at + len) % U64_SIZE), ip, dst, v, step);
    WriteMoved(At(vm, at), dst, v, (at + len) % U64_SIZE);
  }

  lemma ReadsSliceIs(checked: bool, vm: Vm, ip: nat, stream: bool, lenSlot: nat, dst: nat, step: Step)
    ensures ReadsSlice(checked, vm, ip, stream, lenSlot, dst, step) <==> step == ExecReadSlice(checked, vm, ip, stream, lenSlot, dst)
  {
    hide SliceOf, SliceLen, SliceValue, WriteSlot, IsLength;
    var at := NextByte(vm);
    AlignedIs(vm);
    if !(lenSlot == NO_LEN_SLOT && checked && at > |vm.input|) {
      var len := SliceLen(vm.slots, |vm.input|, at, lenSlot);
      forall l: U64 ensures IsLength(vm, at, lenSlot, l) <==> l == len { IsLengthIs(vm, at, lenSlot, l); }
      assert IsLength(vm, at, lenSlot, len);
      SliceOfIs(checked, vm, ip, stream, lenSlot, dst, len, step);
    }
  }

  lemma {:induction false} BitsAreDigits(input: seq<Byte>, start: nat, n: nat, k: nat)
    ensures Digit(BitsValue(input, start, n), k) <==> k < n && InputBit(input, start + n - 1 - k)
    decreases n
  {
    hide Digit, Pow2;
    var v := BitsValue(input, start, n);
    if n == 0 {
      ZeroDigit(k);
    } else {
      LastBit(input, start, n);
      if k > 0 {
        BitsAreDigits(input, start, n - 1, k - 1);
        DigitOfHalf(v, k);
      }
    }
  }

  lemma ZeroDigit(k: nat)
    ensures !Digit(0, k)
  {
  }

  lemma LastBit(input: seq<Byte>, start: nat, n: nat)
    requires n > 0
    ensures var v := BitsValue(input, start, n);
            v / 2 == BitsValue(input, start, n - 1) && (Digit(v, 0) <==> InputBit(input, start + n - 1))
  {
  }

  lemma {:induction false} LowDigits(x: nat, m: nat, k: nat)
    requires k < m
    ensures Digit(x % Pow2(m), k) <==> Digit(x, k)
    decreases m
  {
    hide Digit;
    var y := x % Pow2(m);
    HalfOfLow(x, m);
    if k > 0 {
      LowDigits(x / 2, m - 1, k - 1);
      DigitOfHalf(x, k);
      DigitOfHalf(y, k);
    }
  }

  lemma HalfOfLow(x: nat, m: nat)
    requires m > 0
    ensures var y := x % Pow2(m); y / 2 == x / 2 % Pow2(m - 1) && (Digit(y, 0) <==> Digit(x, 0))
  {
    BitCursor.LowDigits(x, Pow2(m - 1));
    assert Digit(x, 0) <==> x % 2 == 1;
  }

  lemma {:induction false} IsBitsIs(input: seq<Byte>, start: nat, n: nat, v: U64)
    ensures IsBits(input, start, n, v) <==> v == BitsValue(input, start, n) % U64_SIZE
  {
    hide Digit, BitsValue, Pow2, InputBit;
    Pow2Sixty4();
    var w := BitsValue(input, start, n);
    forall k: nat | k < 64 ensures Digit(w % U64_SIZE, k) <==> k < n && InputBit(input, start + n - 1 - k) {
      LowDigits(w, 64, k);
      BitsAreDigits(input, start, n, k);
    }
    if IsBits(input, start, n, v) { DigitsDetermine(v, w % U64_SIZE, 64); }
  }

  lemma TakesBitsIs(vm: Vm, ip: nat, start: nat, n: nat, slot: nat, step: Step)
    ensures TakesSome(vm, ip, start, n, slot, step)
            <==> step == Next(WriteSlot(MoveTo(vm, start + n), slot, BitsValue(vm.input, start, n) % U64_SIZE), ip + 1)
  {
    hide BitsValue, IsBits, Puts, WriteSlot;
    var v, moved := BitsValue(vm.input, start, n) % U64_SIZE, MoveTo(vm, start + n);
    IsBitsIs(vm.input, start, n, v);
    PutsIs(moved, ip, slot, v, step);
    if Puts(moved, ip, slot, v, step) { assert TakesBits(vm, ip, start, n, slot, v, moved, step); }
    forall w: U64, m: Vm | TakesBits(vm, ip, start, n, slot, w, m, step) ensures w == v && m == moved {
      IsBitsIs(vm.input, start, n, w);
    }
  }

  lemma ReadsBitsIs(vm: Vm, ip: nat, stream: bool, bits: nat, slot: nat, step: Step)
    requires vm.bit < 8
    ensures ReadsBits(vm, ip, stream, bits, slot, step) <==> step == ExecReadBits(vm, ip, stream, bits, slot)
  {
    hide BitsValue, WriteSlot, BitsRemaining, TakesSome, MoveTo;
    BitCursor.RemainingIs(vm);
    var start, left := Cursor(vm), BitsRemaining(vm);
    if stream && left < bits { NeededIs(bits - left); } else { TakesBitsIs(vm, ip, start, Min(bits, left), slot, step); }
  }

  lemma NeededIs(bits: nat)
    requires bits > 0
    ensures forall n: nat :: 8 * (n - 1) < bits <= 8 * n <==> n == Max((bits + 7) / 8, 1)
  {
  }

  lemma ReadRestIs(cfg: Config, name: string, slot: nat, vm: Vm, ip: nat, stream: bool, step: Step)
    requires vm.bit < 8
    ensures Does(cfg, ReadRest(name, slot), vm, ip, stream, step) <==> step == ExecReadRest(vm, ip, name, slot)
  {
    hide Puts;
    var at := NextByte(vm);
    AlignedIs(vm);
    PutsIs(At(vm, |vm.input|).(restStarts := vm.restStarts + [(name, at)]), ip, slot, SatSub(|vm.input|, at) % U64_SIZE, step);
  }

  lemma BinaryIs(cfg: Config, op: BinOp, l: nat, r: nat, dst: nat, vm: Vm, ip: nat, stream: bool, step: Step)
    requires vm.bit < 8
    ensures Does(cfg, Binary(op, l, r, dst), vm, ip, stream, step) <==> step == Exec(cfg, Binary(op, l, r, dst), vm, ip, stream)
  {
    hide Yields, EvalBinary, Puts, WriteSlot;
    if l < |vm.slots| && r < |vm.slots| {
      var a, b := vm.slots[l], vm.slots[r];
      forall res ensures Yields(cfg.checked, op, a, b, res) <==> res == Result(EvalBinary(cfg.checked, op, a, b)) {
        YieldsIsEvalBinary(cfg.checked, op, a, b, res);
      }
      var res := Result(EvalBinary(cfg.checked, op, a, b));
      assert Yields(cfg.checked, op, a, b, res);
      if res.Some? { PutsIs(vm, ip, dst, res.value, step); }
    }
  }

  lemma UnaryIs(cfg: Config, op: UnaryOp, src: nat, dst: nat, vm: Vm, ip: nat, stream: bool, step: Step)
    requires vm.bit < 8
    ensures Does(cfg, Unary(op, src, dst), vm, ip, stream, step) <==> step == Exec(cfg, Unary(op, src, dst), vm, ip, stream)
  {
    hide UnaryYields, EvalUnary, Puts, WriteSlot;
    if src < |vm.slots| {
      var x := vm.slots[src];
      forall v: U64 ensures UnaryYields(op, x, v) <==> v == EvalUnary(op, x) { UnaryYieldsIsEvalUnary(op, x, v); }
      PutsIs(vm, ip, dst, EvalUnary(op, x), step);
    }
  }

  /** Each instruction does exactly this. */
  lemma DoesIsExec(cfg: Config, instr: Instruction, vm: Vm, ip: nat, stream: bool, step: Step)
    requires vm.bit < 8
    ensures Does(cfg, instr, vm, ip, stream, step) <==> step == Exec(cfg, instr, vm, ip, stream)
  {
    hide ReadsWord, ReadFixed, ReadsSlice, ExecReadSlice, ReadsBits, ExecReadBits, Puts, WriteSlot, EvalBinary, EvalUnary, ExecReadRest;
    match instr
    case ReadU8(slot) => ReadsWordIs(vm, ip, stream, 1, slot, false, step);
    case ReadU16(slot, le) => ReadsWordIs(vm, ip, stream, 2, slot, le, step);
    case ReadU24(slot, le) => ReadsWordIs(vm, ip, stream, 3, slot, le, step);
    case ReadU32(slot, le) => ReadsWordIs(vm, ip, stream, 4, slot, le, step);
    case ReadSlice(lenSlot, dst) => ReadsSliceIs(cfg.checked, vm, ip, stream, lenSlot, dst, step);
    case ReadBits(bits, slot) => ReadsBitsIs(vm, ip, stream, bits, slot, step);
    case ReadRest(name, slot) => ReadRestIs(cfg, name, slot, vm, ip, stream, step);
    case LoadConst(value, dst) => PutsIs(vm, ip, dst, value, step);
    case Binary(op, l, r, dst) => BinaryIs(cfg, op, l, r, dst, vm, ip, stream, step);
    case Unary(op, src, dst) => UnaryIs(cfg, op, src, dst, vm, ip, stream, step);
    case CopySlot(src, dst) => if src < |vm.slots| { PutsIs(vm, ip, dst, vm.slots[src], step); }
    case UpdateOffset(slot) => PutsIs(vm, ip, slot, vm.pos % U64_SIZE, step);
    case _ =>
  }

  // ----- whole runs -----

  /** From `vm` at `ip` the program runs to `end` with `outcome`, one instruction after the
      other, each counted. */
  ghost predicate Executes(cfg: Config, program: seq<Instruction>, vm: Vm, ip: nat, stream: bool, end: Vm, outcome: Outcome)
    requires vm.bit < 8
    decreases cfg.limits.maxInstructions + 1 - vm.executed
  {
    if ip >= |program| then end == vm && outcome == Complete
    else if vm.executed > cfg.limits.maxInstructions then end == vm && outcome == InstructionLimit
    else
      exists step :: Does(cfg, program[ip], Counted(vm), ip, stream, step) && step.vm.executed == vm.executed + 1 && step.vm.bit < 8
                     && if step.Halt? then end == step.vm && outcome == step.outcome
                        else Executes(cfg, program, step.vm, step.ip, stream, end, outcome)
  }

  function Counted(vm: Vm): Vm { vm.(executed := vm.executed + 1) }

  lemma ExecKeepsBit(cfg: Config, instr: Instruction, vm: Vm, ip: nat, stream: bool)
    requires vm.bit < 8
    ensures Exec(cfg, instr, vm, ip, stream).vm.bit < 8
  {
    hide EvalBinary, EvalUnary, FixedValue, SliceValue, BitsValue, SliceLen;
  }

  /** A run is exactly that. */
  lemma {:induction false} ExecutesIsRun(cfg: Config, program: seq<Instruction>, vm: Vm, ip: nat, stream: bool, end: Vm, outcome: Outcome)
    requires vm.bit < 8
    ensures Executes(cfg, program, vm, ip, stream, end, outcome) <==> (end, outcome) == Run(cfg, program, vm, ip, stream)
    decreases cfg.limits.maxInstructions + 1 - vm.executed
  {
    hide Does, Exec;
    if ip < |program| && vm.executed <= cfg.limits.maxInstructions {
      var step := Exec(cfg, program[ip], Count(vm), ip, stream);
      ExecKeepsCount(cfg, program[ip], Count(vm), ip, stream);
      ExecKeepsBit(cfg, program[ip], Count(vm), ip, stream);
      forall s ensures Does(cfg, program[ip], Counted(vm), ip, stream, s) <==> s == step {
        DoesIsExec(cfg, program[ip], Counted(vm), ip, stream, s);
      }
      assert Does(cfg, program[ip], Counted(vm), ip, stream, step);
      if step.Next? { ExecutesIsRun(cfg, program, step.vm, step.ip, stream, end, outcome); }
    }
  }
}
