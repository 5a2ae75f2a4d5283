/** The N-FDL bytecode machine of crates/nfdl-bytecode/src/lib.rs.

    A program runs over a byte/bit cursor.  In stream mode a short read freezes the
    machine, and the caller appends bytes and resumes it; in datagram mode a short read
    yields zero.  This module gives the meaning of one instruction (`Exec`), of a run
    (`Run`), and of a run fed chunk by chunk (`Feed`).
 */
module Bytecode {

  const U64_SIZE: int := 0x1_0000_0000_0000_0000
  const U32_SIZE: int := 0x1_0000_0000
  // `u16::MAX` in `ReadSlice.len_slot`: "up to 16 bytes of whatever is buffered".
  const NO_LEN_SLOT: nat := 65535

  type U64 = x: int | 0 <= x < U64_SIZE
  type Byte = x: int | 0 <= x < 256

  datatype BinOp =
    | Add | Sub | Mul | Div | Mod
    | Eq | Ne | Gt | Lt | Ge | Le
    | And | Or | BitAnd | BitOr | BitXor | Shl | Shr

  datatype UnaryOp = Not | BitNot | Neg

  datatype Instruction =
    | ReadU8(slot: nat)
    | ReadU16(slot: nat, le: bool)
    | ReadU24(slot: nat, le: bool)
    | ReadU32(slot: nat, le: bool)
    | ReadSlice(lenSlot: nat, dst: nat)
    | ReadBits(bits: nat, slot: nat)
    | ReadRest(name: string, slot: nat)
    | Validate(predSlot: nat, message: string)
    | EmitField(name: string, slot: nat)
    | LoadConst(value: U64, dst: nat)
    | Binary(op: BinOp, left: nat, right: nat, dst: nat)
    | Unary(uop: UnaryOp, src: nat, dst: nat)
    | CopySlot(src: nat, dst: nat)
    | UpdateOffset(slot: nat)
    | Jump(target: nat)
    | JumpIfZero(condSlot: nat, target: nat)
    | Return

  datatype Limits = Limits(maxInstructions: nat, maxLoopIterations: nat)

  /** `checked` says whether the build has integer overflow checks: overflow then panics,
      and otherwise wraps modulo 2^64. */
  datatype Config = Config(limits: Limits, checked: bool)

  /** Everything a run reads and writes, without the program. */
  datatype Vm = Vm(
    slots: seq<U64>,
    touched: seq<bool>,
    input: seq<Byte>,
    pos: nat,
    bit: nat,
    executed: nat,
    loops: nat,
    emitted: seq<(string, U64)>,
    restStarts: seq<(string, nat)>)

  datatype Outcome =
    | Complete
    | NeedMoreBytes(ip: nat, needed: nat)
    | Constraint(message: string)
    | InstructionLimit
    | LoopLimit
    | Panic

  datatype Step =
    | Next(vm: Vm, ip: nat)
    | Halt(vm: Vm, outcome: Outcome)

  // ----- bits -----

  function Pow2(n: nat): (r: nat)
    ensures r >= 1
  {
    if n == 0 then 1 else 2 * Pow2(n - 1)
  }

  /** Bit `k` of the input, counted from the most significant bit of byte 0. */
  function StreamBit(input: seq<Byte>, k: nat): (r: nat)
    ensures r < 2
  {
    if k / 8 < |input| then (input[k / 8] / Pow2(7 - k % 8)) % 2 else 0
  }

  /** The number whose binary digits are the `n` input bits from bit `start` on. */
  function BitsValue(input: seq<Byte>, start: nat, n: nat): nat
  {
    if n == 0 then 0 else 2 * BitsValue(input, start, n - 1) + StreamBit(input, start + n - 1)
  }

  /** `bits_remaining`: bits from the cursor to the end of the buffer. */
  function BitsRemaining(vm: Vm): nat
  {
    if vm.pos >= |vm.input| then 0
    else (if vm.bit <= 8 then 8 - vm.bit else 0) + (|vm.input| - vm.pos - 1) * 8
  }

  function Min(a: int, b: int): int { if a <= b then a else b }
  function Max(a: int, b: int): int { if a <= b then b else a }
  function SatSub(a: nat, b: nat): nat { if a <= b then 0 else a - b }

  /** Cursor position in bits. */
  function Cursor(vm: Vm): nat { 8 * vm.pos + vm.bit }

  function MoveTo(vm: Vm, cursor: nat): Vm
  {
    vm.(pos := cursor / 8, bit := cursor % 8)
  }

  // ----- slots -----

  /** Out-of-range writes are dropped, as in `write_slot`. */
  function WriteSlot(vm: Vm, slot: nat, val: U64): Vm
  {
    vm.(slots := if slot < |vm.slots| then vm.slots[slot := val] else vm.slots,
        touched := if slot < |vm.slots| && slot < |vm.touched| then vm.touched[slot := true] else vm.touched)
  }

  function AlignToByte(vm: Vm): Vm
  {
    if vm.bit != 0 then vm.(pos := vm.pos + 1, bit := 0) else vm
  }

  // ----- arithmetic -----

  datatype Arith = Value(v: U64) | Overflow

  function Wrap(checked: bool, x: nat): Arith
  {
    if x < U64_SIZE then Value(x) else if checked then Overflow else Value(x % U64_SIZE)
  }

  function FromBool(b: bool): U64 { if b then 1 else 0 }

  function EvalBinary(checked: bool, op: BinOp, l: U64, r: U64): Arith
  {
    match op
    case Add => Wrap(checked, l + r)
    case Sub => Value(SatSub(l, r))
    case Mul => Wrap(checked, l * r)
    case Div => Value(Quotient(l, r))
    case Mod => Value(if r == 0 then 0 else l % r)
    case Eq => Value(FromBool(l == r))
    case Ne => Value(FromBool(l != r))
    case Gt => Value(FromBool(l > r))
    case Lt => Value(FromBool(l < r))
    case Ge => Value(FromBool(l >= r))
    case Le => Value(FromBool(l <= r))
    case And => Value(FromBool(l != 0 && r != 0))
    case Or => Value(FromBool(l != 0 || r != 0))
    case BitAnd => Value(Bitwise(op, l, r))
    case BitOr => Value(Bitwise(op, l, r))
    case BitXor => Value(Bitwise(op, l, r))
    case Shl =>
      if checked && r % U32_SIZE >= 64 then Overflow
      else Value(ShiftLeft(l, r % U32_SIZE % 64))
    case Shr =>
      if checked && r % U32_SIZE >= 64 then Overflow
      else Value(ShiftRight(l, r % U32_SIZE % 64))
  }

  function Quotient(l: U64, r: U64): U64
  {
    if r == 0 then 0 else (assert l / r <= l by { DivBound(l, r); } l / r)
  }

  lemma {:induction false} MulAtLeast(q: nat, r: nat)
    requires r > 0
    ensures q * r >= q
  {
    assert q * r == q + q * (r - 1);
  }

  lemma {:induction false} DivBound(l: nat, r: nat)
    requires r > 0
    ensures l / r <= l
  {
    var q := l / r;
    assert l == q * r + l % r;
    MulAtLeast(q, r);
  }

  /** One binary digit of `&`, `|` or `^`. */
  function BitOf(op: BinOp, a: bool, b: bool): nat
  {
    var r := match op
             case BitAnd => a && b
             case BitOr => a || b
             case _ => a != b;
    if r then 1 else 0
  }

  /** Digit-wise `&`, `|` and `^` on the low `n` binary digits. */
  function Digits(op: BinOp, n: nat, l: nat, r: nat): (v: nat)
    ensures v < Pow2(n)
    decreases n
  {
    if n == 0 then 0
    else 2 * Digits(op, n - 1, l / 2, r / 2) + BitOf(op, l % 2 == 1, r % 2 == 1)
  }

  function Bitwise(op: BinOp, l: U64, r: U64): U64
  {
    Pow2Sixty4();
    Digits(op, 64, l, r)
  }

  function ShiftLeft(l: U64, k: nat): U64
    decreases k
  {
    if k == 0 then l else ShiftLeft(2 * l % U64_SIZE, k - 1)
  }

  function ShiftRight(l: U64, k: nat): U64
    decreases k
  {
    if k == 0 then l else ShiftRight(l / 2, k - 1)
  }

  function EvalUnary(op: UnaryOp, v: U64): U64
  {
    match op
    case Not => FromBool(v == 0)
    case BitNot => U64_SIZE - 1 - v
    case Neg => (U64_SIZE - v) % U64_SIZE
  }

  // ----- reads -----

  /** Big-endian value of the `n` bytes at `at`. */
  function BigEndian(input: seq<Byte>, at: nat, n: nat): nat
    requires at + n <= |input|
  {
    if n == 0 then 0 else BigEndian(input, at, n - 1) * 256 + input[at + n - 1]
  }

  function LittleEndian(input: seq<Byte>, at: nat, n: nat): nat
    requires at + n <= |input|
    decreases n
  {
    if n == 0 then 0 else LittleEndian(input, at + 1, n - 1) * 256 + input[at]
  }

  lemma {:induction false} EndianBound(input: seq<Byte>, at: nat, n: nat)
    requires at + n <= |input|
    ensures BigEndian(input, at, n) < Pow2(8 * n) && LittleEndian(input, at, n) < Pow2(8 * n)
    decreases n
  {
    if n > 0 {
      EndianBound(input, at, n - 1);
      EndianBound(input, at + 1, n - 1);
      Pow2By256(n - 1);
    }
  }

  lemma {:induction false} Pow2By256(n: nat)
    ensures Pow2(8 * (n + 1)) == 256 * Pow2(8 * n)
  {
    var m := 8 * n;
    Pow2Add(m, 8);
    Pow2Eight();
  }

  lemma {:induction false} Pow2Add(a: nat, b: nat)
    ensures Pow2(a + b) == Pow2(a) * Pow2(b)
  {
    if b > 0 { Pow2Add(a, b - 1); }
  }

  lemma {:induction false} Pow2Mono(a: nat, b: nat)
    requires a <= b
    ensures Pow2(a) <= Pow2(b)
  {
    if a < b { Pow2Mono(a, b - 1); }
  }

  lemma {:induction false} Pow2Eight()
    ensures Pow2(8) == 256
  {
    assert Pow2(4) == 16;
  }

  lemma {:induction false} Pow2Sixty4()
    ensures Pow2(64) == U64_SIZE
    ensures Pow2(8) == 256
  {
    Pow2Eight();
    Pow2Add(8, 8);
    assert Pow2(16) == 65536;
    Pow2Add(16, 16);
    assert Pow2(32) == 4294967296;
    Pow2Add(32, 32);
  }

  /** The width-`n` unsigned read, 1 <= n <= 4. */
  function FixedValue(input: seq<Byte>, at: nat, n: nat, le: bool): (r: U64)
    requires at + n <= |input| && n <= 4
  {
    EndianBound(input, at, n);
    Pow2Sixty4(); Pow2Mono(8 * n, 64);
    if le then LittleEndian(input, at, n) else BigEndian(input, at, n)
  }

  /** `ReadU8/16/24/32`: align, then read `n` bytes; a short read suspends in stream mode
      and yields zero, without moving, in datagram mode. */
  function ReadFixed(vm0: Vm, ip: nat, stream: bool, n: nat, slot: nat, le: bool): Step
    requires 1 <= n <= 4
  {
    var vm := AlignToByte(vm0);
    if n > 1 && vm.pos + n >= U64_SIZE then Halt(vm, Panic)
    else if vm.pos + n <= |vm.input| then
      Next(WriteSlot(vm, slot, FixedValue(vm.input, vm.pos, n, le)).(pos := vm.pos + n), ip + 1)
    else if stream then
      Halt(vm, NeedMoreBytes(ip, Max(SatSub(n, SatSub(|vm.input|, vm.pos)), 1)))
    else
      Next(WriteSlot(vm, slot, 0), ip + 1)
  }

  /** The big-endian fold of `ReadSlice` over the first `n` offsets; offsets past the
      buffer contribute nothing. */
  function SliceValue(input: seq<Byte>, at: nat, n: nat): U64
  {
    if n == 0 then 0
    else
      var v := SliceValue(input, at, n - 1);
      var i := (at + n - 1) % U64_SIZE;
      if i < |input| then (v * 256) % U64_SIZE + input[i] else v
  }

  function SliceLen(slots: seq<U64>, inputLen: nat, pos: nat, lenSlot: nat): U64
  {
    if lenSlot == NO_LEN_SLOT then Min((inputLen - pos) % U64_SIZE, 16)
    else if lenSlot < |slots| then slots[lenSlot]
    else 0
  }

  function ExecReadSlice(checked: bool, vm0: Vm, ip: nat, stream: bool, lenSlot: nat, dst: nat): Step
  {
    var vm := AlignToByte(vm0);
    if lenSlot == NO_LEN_SLOT && checked && vm.pos > |vm.input| then Halt(vm, Panic)
    else
      var len := SliceLen(vm.slots, |vm.input|, vm.pos, lenSlot);
      if checked && vm.pos + len >= U64_SIZE then Halt(vm, Panic)
      else if stream && lenSlot != NO_LEN_SLOT && (vm.pos + len) % U64_SIZE > |vm.input| then
        Halt(vm, NeedMoreBytes(ip, Max(SatSub(len, SatSub(|vm.input|, vm.pos)), 1)))
      else
        Next(WriteSlot(vm, dst, SliceValue(vm.input, vm.pos, Min(len, 8))).(pos := (vm.pos + len) % U64_SIZE),
             ip + 1)
  }

  function ExecReadBits(vm: Vm, ip: nat, stream: bool, bits: nat, slot: nat): Step
  {
    var avail := BitsRemaining(vm);
    if stream && avail < bits then
      Halt(vm, NeedMoreBytes(ip, Max((SatSub(bits, avail) + 7) / 8, 1)))
    else
      var take := Min(bits, avail);
      Next(WriteSlot(MoveTo(vm, Cursor(vm) + take), slot, BitsValue(vm.input, Cursor(vm), take) % U64_SIZE), ip + 1)
  }

  function ExecReadRest(vm0: Vm, ip: nat, name: string, slot: nat): Step
  {
    var vm := AlignToByte(vm0);
    Next(WriteSlot(vm, slot, SatSub(|vm.input|, vm.pos) % U64_SIZE)
         .(pos := |vm.input|, restStarts := vm.restStarts + [(name, vm.pos)]), ip + 1)
  }

  lemma {:induction false} SmallMod(x: nat)
    requires x < U64_SIZE
    ensures x % U64_SIZE == x
  {
  }

  // ----- one instruction -----

  /** One pass of the interpreter's `match`, after the instruction has been counted. */
  function Exec(cfg: Config, instr: Instruction, vm: Vm, ip: nat, stream: bool): Step
  {
    match instr
    case ReadU8(slot) => ReadFixed(vm, ip, stream, 1, slot, false)
    case ReadU16(slot, le) => ReadFixed(vm, ip, stream, 2, slot, le)
    case ReadU24(slot, le) => ReadFixed(vm, ip, stream, 3, slot, le)
    case ReadU32(slot, le) => ReadFixed(vm, ip, stream, 4, slot, le)
    case ReadSlice(lenSlot, dst) => ExecReadSlice(cfg.checked, vm, ip, stream, lenSlot, dst)
    case ReadBits(bits, slot) => ExecReadBits(vm, ip, stream, bits, slot)
    case ReadRest(name, slot) => ExecReadRest(vm, ip, name, slot)
    case Validate(p, message) =>
      if p >= |vm.slots| then Halt(vm, Panic)
      else if vm.slots[p] == 0 then Halt(vm, Constraint(message))
      else Next(vm, ip + 1)
    case EmitField(name, slot) =>
      if slot >= |vm.slots| then Halt(vm, Panic)
      else Next(vm.(emitted := vm.emitted + [(name, vm.slots[slot])]), ip + 1)
    case LoadConst(value, dst) => Next(WriteSlot(vm, dst, value), ip + 1)
    case Binary(op, l, r, dst) =>
      if l >= |vm.slots| || r >= |vm.slots| then Halt(vm, Panic)
      else (match EvalBinary(cfg.checked, op, vm.slots[l], vm.slots[r])
            case Value(v) => Next(WriteSlot(vm, dst, v), ip + 1)
            case Overflow => Halt(vm, Panic))
    case Unary(op, src, dst) =>
      if src >= |vm.slots| then Halt(vm, Panic)
      else Next(WriteSlot(vm, dst, EvalUnary(op, vm.slots[src])), ip + 1)
    case CopySlot(src, dst) =>
      if src >= |vm.slots| then Halt(vm, Panic)
      else Next(WriteSlot(vm, dst, vm.slots[src]), ip + 1)
    case UpdateOffset(slot) => Next(WriteSlot(vm, slot, vm.pos % U64_SIZE), ip + 1)
    case Jump(target) => Next(vm, target)
    case JumpIfZero(c, target) =>
      if c >= |vm.slots| then Halt(vm, Panic)
      else if vm.slots[c] == 0 then
        if target < ip then
          var vm' := vm.(loops := vm.loops + 1);
          if vm'.loops > cfg.limits.maxLoopIterations then Halt(vm', LoopLimit) else Next(vm', target)
        else Next(vm, target)
      else Next(vm, ip + 1)
    case Return => Halt(vm, Complete)
  }

  // ----- runs -----

  function Count(vm: Vm): Vm { vm.(executed := vm.executed + 1) }

  /** `interpret`: instructions until the program halts. */
  function Run(cfg: Config, program: seq<Instruction>, vm: Vm, ip: nat, stream: bool): (r: (Vm, Outcome))
    decreases cfg.limits.maxInstructions + 1 - vm.executed
  {
    if ip >= |program| then (vm, Complete)
    else if vm.executed > cfg.limits.maxInstructions then (vm, InstructionLimit)
    else
      ExecKeepsCount(cfg, program[ip], Count(vm), ip, stream);
      match Exec(cfg, program[ip], Count(vm), ip, stream)
      case Halt(vm', outcome) => (vm', outcome)
      case Next(vm', ip') => Run(cfg, program, vm', ip', stream)
  }

  lemma {:induction false} ExecKeepsCount(cfg: Config, instr: Instruction, vm: Vm, ip: nat, stream: bool)
    ensures Exec(cfg, instr, vm, ip, stream).vm.executed == vm.executed
  {
  }

  function Append(vm: Vm, more: seq<Byte>): Vm { vm.(input := vm.input + more) }

  /** The stream driver: run, then resume with the next chunk for as long as the machine
      asks for bytes and chunks are left.  The third result counts the resumptions. */
  function Feed(cfg: Config, program: seq<Instruction>, vm: Vm, ip: nat, chunks: seq<seq<Byte>>): (Vm, Outcome, nat)
    decreases |chunks|
  {
    var (vm', outcome) := Run(cfg, program, vm, ip, true);
    if chunks == [] || !outcome.NeedMoreBytes? then (vm', outcome, 0)
    else
      var (vm'', outcome', n) := Feed(cfg, program, Append(vm', chunks[0]), outcome.ip, chunks[1..]);
      (vm'', outcome', n + 1)
  }

  function Concat(chunks: seq<seq<Byte>>): seq<Byte>
  {
    if chunks == [] then [] else chunks[0] + Concat(chunks[1..])
  }

  /** What a run leaves behind apart from the buffer and the instruction counter, which
      counts a pending read again each time it is retried. */
  function Core(vm: Vm): Vm { vm.(input := [], executed := 0) }
}
