/** What freezing and resuming the machine of `Bytecode` preserves. */
module ResumeEquivalence {
  import opened Bytecode

  /** Holds in every state a stream run reaches. */
  ghost predicate StreamInv(vm: Vm)
  {
    && vm.pos <= |vm.input|
    && vm.bit < 8
    && (vm.bit != 0 ==> vm.pos < |vm.input|)
  }

  /** Instructions whose result depends on how much input is buffered. */
  predicate BufferDependent(instr: Instruction)
  {
    instr.ReadRest? || (instr.ReadSlice? && instr.lenSlot == NO_LEN_SLOT)
  }

  predicate Streamable(program: seq<Instruction>)
  {
    forall i :: 0 <= i < |program| ==> !BufferDependent(program[i])
  }

  /** A sized slice whose end does not fit 64 bits, in a build that lets it wrap past the
      short-read check.  The input has no say in this. */
  predicate CursorWraps(cfg: Config, instr: Instruction, vm: Vm)
  {
    && !cfg.checked && instr.ReadSlice? && instr.lenSlot != NO_LEN_SLOT
    && AlignToByte(vm).pos + SliceLen(vm.slots, |vm.input|, vm.pos, instr.lenSlot) >= U64_SIZE
  }

  /** No slice that the stream run executes wraps the cursor. */
  predicate NeverWraps(cfg: Config, program: seq<Instruction>, vm: Vm, ip: nat)
    decreases cfg.limits.maxInstructions + 1 - vm.executed
  {
    ip < |program| && vm.executed <= cfg.limits.maxInstructions ==>
      && !CursorWraps(cfg, program[ip], Count(vm))
      && var step := Exec(cfg, program[ip], Count(vm), ip, true);
         ExecKeepsCount(cfg, program[ip], Count(vm), ip, true);
         step.Next? ==> NeverWraps(cfg, program, step.vm, step.ip)
  }

  // ----- reads only look at the bytes they cover -----

  lemma {:induction false} BigEndianAppend(input: seq<Byte>, more: seq<Byte>, at: nat, n: nat)
    requires at + n <= |input|
    ensures BigEndian(input + more, at, n) == BigEndian(input, at, n)
  {
    if n > 0 { BigEndianAppend(input, more, at, n - 1); }
  }

  lemma {:induction false} LittleEndianAppend(input: seq<Byte>, more: seq<Byte>, at: nat, n: nat)
    requires at + n <= |input|
    ensures LittleEndian(input + more, at, n) == LittleEndian(input, at, n)
    decreases n
  {
    if n > 0 { LittleEndianAppend(input, more, at + 1, n - 1); }
  }

  lemma FixedAppend(input: seq<Byte>, more: seq<Byte>, at: nat, n: nat, le: bool)
    requires at + n <= |input| && n <= 4
    ensures FixedValue(input + more, at, n, le) == FixedValue(input, at, n, le)
  {
    BigEndianAppend(input, more, at, n);
    LittleEndianAppend(input, more, at, n);
  }

  lemma {:induction false} SliceAppend(input: seq<Byte>, more: seq<Byte>, at: nat, n: nat)
    requires at + n <= |input| && at + n < U64_SIZE
    ensures SliceValue(input + more, at, n) == SliceValue(input, at, n)
  {
    if n > 0 {
      SliceAppend(input, more, at, n - 1);
      SmallMod(at + n - 1);
    }
  }

  lemma {:induction false} BitsAppend(input: seq<Byte>, more: seq<Byte>, start: nat, n: nat)
    requires start + n <= 8 * |input|
    ensures BitsValue(input + more, start, n) == BitsValue(input, start, n)
  {
    if n > 0 {
      BitsAppend(input, more, start, n - 1);
      assert (start + n - 1) / 8 < |input|;
    }
  }

  // ----- one instruction -----

  lemma {:induction false} ExecKeepsStreamInv(cfg: Config, instr: Instruction, vm: Vm, ip: nat)
    requires StreamInv(vm)
    ensures StreamInv(Exec(cfg, instr, vm, ip, true).vm)
    ensures Exec(cfg, instr, vm, ip, true).vm.input == vm.input
  {
    hide ExecReadSlice, ExecReadBits, EvalBinary, EvalUnary, FixedValue;
    match instr
    case ReadBits(bits, slot) => BitsKeepStreamInv(vm, ip, bits, slot);
    case ReadSlice(lenSlot, dst) => SliceKeepsStreamInv(cfg.checked, vm, ip, lenSlot, dst);
    case _ =>
  }

  lemma ModAtMost(x: nat)
    ensures x % U64_SIZE <= x
  {
  }

  lemma SliceKeepsStreamInv(checked: bool, vm0: Vm, ip: nat, lenSlot: nat, dst: nat)
    requires StreamInv(vm0)
    ensures StreamInv(ExecReadSlice(checked, vm0, ip, true, lenSlot, dst).vm)
    ensures ExecReadSlice(checked, vm0, ip, true, lenSlot, dst).vm.input == vm0.input
  {
    var vm := AlignToByte(vm0);
    if lenSlot == NO_LEN_SLOT {
      ModAtMost(|vm.input| - vm.pos);
      ModAtMost(vm.pos + Min((|vm.input| - vm.pos) % U64_SIZE, 16));
    }
  }

  lemma BitsKeepStreamInv(vm: Vm, ip: nat, bits: nat, slot: nat)
    requires StreamInv(vm)
    ensures StreamInv(ExecReadBits(vm, ip, true, bits, slot).vm) && ExecReadBits(vm, ip, true, bits, slot).vm.input == vm.input
  {
    hide BitsValue;
    CursorBounds(vm, Min(bits, BitsRemaining(vm)));
  }

  lemma CursorBounds(vm: Vm, take: int)
    requires StreamInv(vm) && 0 <= take <= BitsRemaining(vm)
    ensures Cursor(vm) + take <= 8 * |vm.input|
    ensures StreamInv(MoveTo(vm, Cursor(vm) + take))
  {
    var c := Cursor(vm) + take;
    assert c <= 8 * |vm.input|;
    assert c == 8 * (c / 8) + c % 8;
  }

  /** `Exec` on a longer buffer: the same step, or, for a suspended read, the step the
      frozen machine takes on that buffer. */
  ghost predicate StepExtends(cfg: Config, instr: Instruction, vm: Vm, ip: nat, more: seq<Byte>)
  {
    var longer := Exec(cfg, instr, Append(vm, more), ip, true);
    match Exec(cfg, instr, vm, ip, true)
    case Next(vm', ip') => longer == Next(Append(vm', more), ip')
    case Halt(vm', outcome) =>
      if outcome.NeedMoreBytes? then
        outcome.ip == ip && longer == Exec(cfg, instr, Append(vm', more), ip, true)
      else longer == Halt(Append(vm', more), outcome)
  }

  lemma FixedExtends(vm0: Vm, ip: nat, n: nat, slot: nat, le: bool, more: seq<Byte>)
    requires StreamInv(vm0) && 1 <= n <= 4
    ensures match ReadFixed(vm0, ip, true, n, slot, le)
            case Next(vm', ip') => ReadFixed(Append(vm0, more), ip, true, n, slot, le) == Next(Append(vm', more), ip')
            case Halt(vm', o) =>
              if o.NeedMoreBytes? then
                o.ip == ip && ReadFixed(Append(vm0, more), ip, true, n, slot, le) == ReadFixed(Append(vm', more), ip, true, n, slot, le)
              else ReadFixed(Append(vm0, more), ip, true, n, slot, le) == Halt(Append(vm', more), o)
  {
    hide FixedValue;
    var vm := AlignToByte(vm0);
    if vm.pos + n <= |vm.input| { FixedAppend(vm.input, more, vm.pos, n, le); }
  }

  /** Without wrap-around both builds read a slice alike. */
  lemma UnwrappedSlice(vm: Vm, ip: nat, stream: bool, lenSlot: nat, dst: nat)
    requires lenSlot != NO_LEN_SLOT
    requires AlignToByte(vm).pos + SliceLen(vm.slots, |vm.input|, vm.pos, lenSlot) < U64_SIZE
    ensures ExecReadSlice(false, vm, ip, stream, lenSlot, dst) == ExecReadSlice(true, vm, ip, stream, lenSlot, dst)
  {
    hide SliceValue;
  }

  /** A sized slice in a checked build, without the arithmetic on 64 bits. */
  lemma SizedSlice(vm0: Vm, ip: nat, lenSlot: nat, dst: nat)
    requires StreamInv(vm0) && lenSlot != NO_LEN_SLOT
    ensures var vm, len := AlignToByte(vm0), SliceLen(vm0.slots, |vm0.input|, vm0.pos, lenSlot);
            ExecReadSlice(true, vm0, ip, true, lenSlot, dst)
            == if vm.pos + len >= U64_SIZE then Halt(vm, Panic)
               else if vm.pos + len > |vm.input| then Halt(vm, NeedMoreBytes(ip, vm.pos + len - |vm.input|))
               else Next(WriteSlot(vm, dst, SliceValue(vm.input, vm.pos, Min(len, 8))).(pos := vm.pos + len), ip + 1)
  {
    hide SliceValue, WriteSlot;
    var vm, len := AlignToByte(vm0), SliceLen(vm0.slots, |vm0.input|, vm0.pos, lenSlot);
    if vm.pos + len < U64_SIZE { SmallMod(vm.pos + len); }
  }

  lemma {:induction false} SliceExtends(vm0: Vm, ip: nat, lenSlot: nat, dst: nat, more: seq<Byte>)
    requires StreamInv(vm0) && lenSlot != NO_LEN_SLOT
    ensures match ExecReadSlice(true, vm0, ip, true, lenSlot, dst)
            case Next(vm', ip') => ExecReadSlice(true, Append(vm0, more), ip, true, lenSlot, dst) == Next(Append(vm', more), ip')
            case Halt(vm', o) =>
              if o.NeedMoreBytes? then
                o.ip == ip && ExecReadSlice(true, Append(vm0, more), ip, true, lenSlot, dst)
                              == ExecReadSlice(true, Append(vm', more), ip, true, lenSlot, dst)
                           && vm' == AlignToByte(vm0)
              else ExecReadSlice(true, Append(vm0, more), ip, true, lenSlot, dst) == Halt(Append(vm', more), o)
  {
    hide SliceValue, ExecReadSlice;
    var vm, len := AlignToByte(vm0), SliceLen(vm0.slots, |vm0.input|, vm0.pos, lenSlot);
    SizedSlice(vm0, ip, lenSlot, dst);
    SizedSlice(Append(vm0, more), ip, lenSlot, dst);
    SizedSlice(Append(vm, more), ip, lenSlot, dst);
    if vm.pos + len < U64_SIZE && vm.pos + len <= |vm.input| {
      SliceAppend(vm.input, more, vm.pos, Min(len, 8));
    }
  }

  /** The same in either build, where the cursor does not wrap. */
  lemma {:induction false} AnySliceExtends(cfg: Config, instr: Instruction, vm: Vm, ip: nat, more: seq<Byte>)
    requires StreamInv(vm) && instr.ReadSlice? && instr.lenSlot != NO_LEN_SLOT && !CursorWraps(cfg, instr, vm)
    ensures StepExtends(cfg, instr, vm, ip, more)
  {
    hide ExecReadSlice;
    SliceExtends(vm, ip, instr.lenSlot, instr.dst, more);
    if !cfg.checked {
      UnwrappedSlice(vm, ip, true, instr.lenSlot, instr.dst);
      UnwrappedSlice(Append(vm, more), ip, true, instr.lenSlot, instr.dst);
      UnwrappedSlice(Append(AlignToByte(vm), more), ip, true, instr.lenSlot, instr.dst);
    }
  }

  lemma BitsExtends(vm: Vm, ip: nat, bits: nat, slot: nat, more: seq<Byte>)
    requires StreamInv(vm) && BitsRemaining(vm) >= bits
    ensures var s := ExecReadBits(vm, ip, true, bits, slot);
            s.Next? && ExecReadBits(Append(vm, more), ip, true, bits, slot) == Next(Append(s.vm, more), s.ip)
  {
    hide BitsValue;
    CursorBounds(vm, bits);
    BitsAppend(vm.input, more, Cursor(vm), bits);
    assert BitsRemaining(Append(vm, more)) >= bits;
  }

  lemma {:induction false} ExecExtends(cfg: Config, instr: Instruction, vm: Vm, ip: nat, more: seq<Byte>)
    requires StreamInv(vm) && !BufferDependent(instr) && !CursorWraps(cfg, instr, vm)
    ensures StepExtends(cfg, instr, vm, ip, more)
  {
    hide ExecReadSlice, ReadFixed, EvalBinary, EvalUnary, BitsValue;
    match instr
    case ReadSlice(lenSlot, dst) => AnySliceExtends(cfg, instr, vm, ip, more);
    case ReadBits(bits, slot) => if BitsRemaining(vm) >= bits { BitsExtends(vm, ip, bits, slot, more); }
    case ReadU8(_) => AnyFixedExtends(cfg, instr, vm, ip, more);
    case ReadU16(_, _) => AnyFixedExtends(cfg, instr, vm, ip, more);
    case ReadU24(_, _) => AnyFixedExtends(cfg, instr, vm, ip, more);
    case ReadU32(_, _) => AnyFixedExtends(cfg, instr, vm, ip, more);
    case _ =>
  }

  lemma {:induction false} AnyFixedExtends(cfg: Config, instr: Instruction, vm: Vm, ip: nat, more: seq<Byte>)
    requires StreamInv(vm) && (instr.ReadU8? || instr.ReadU16? || instr.ReadU24? || instr.ReadU32?)
    ensures StepExtends(cfg, instr, vm, ip, more)
  {
    hide ReadFixed;
    var n := if instr.ReadU8? then 1 else if instr.ReadU16? then 2 else if instr.ReadU24? then 3 else 4;
    FixedExtends(vm, ip, n, instr.slot, if instr.ReadU8? then false else instr.le, more);
  }

  /** The buffer-dependent instructions are exactly those which some further bytes change in
      some state without wrap-around; and if the build wraps, sized slices join them in
      states with it. */
  lemma {:induction false} ExtendsIffNotBufferDependent(cfg: Config, instr: Instruction)
    ensures (forall vm: Vm, ip: nat, more: seq<Byte> ::
               StreamInv(vm) && !CursorWraps(cfg, instr, vm) ==> StepExtends(cfg, instr, vm, ip, more))
            <==> !BufferDependent(instr)
    ensures (forall vm: Vm, ip: nat, more: seq<Byte> :: StreamInv(vm) ==> StepExtends(cfg, instr, vm, ip, more))
            <==> !BufferDependent(instr) && (cfg.checked || !instr.ReadSlice?)
  {
    hide StepExtends, StreamInv;
    var (vm0, more0) := Witness(instr);
    if BufferDependent(instr) || (!cfg.checked && instr.ReadSlice?) { BreaksExtension(cfg, instr, 0); }
    forall vm: Vm, ip: nat, more: seq<Byte> | StreamInv(vm) && !CursorWraps(cfg, instr, vm) && !BufferDependent(instr)
      ensures StepExtends(cfg, instr, vm, ip, more)
    {
      ExecExtends(cfg, instr, vm, ip, more);
    }
    assert BufferDependent(instr) ==> !CursorWraps(cfg, instr, vm0) && !StepExtends(cfg, instr, vm0, 0, more0);
  }

  function Witness(instr: Instruction): (Vm, seq<Byte>)
  {
    if instr.ReadSlice? && instr.lenSlot != NO_LEN_SLOT then
      (Vm(seq(Max(instr.lenSlot, instr.dst) + 1, _ => U64_SIZE - 1), [], [7], 1, 0, 0, 0, [], []), [9])
    else (Vm([], [], [], 0, 0, 0, 0, [], []), [9])
  }

  lemma BreaksExtension(cfg: Config, instr: Instruction, ip: nat)
    requires BufferDependent(instr) || (!cfg.checked && instr.ReadSlice?)
    ensures var (vm, more) := Witness(instr);
            StreamInv(vm) && !StepExtends(cfg, instr, vm, ip, more)
  {
    var (vm, more) := Witness(instr);
    if instr.ReadSlice? && instr.lenSlot != NO_LEN_SLOT {
      assert !cfg.checked;
      assert Append(vm, more).input == [7, 9];
      ShortSlices(8);
      var short, long := Exec(cfg, instr, vm, ip, true), Exec(cfg, instr, Append(vm, more), ip, true);
      assert short.Next? && long.Next?;
      assert short.vm.slots[instr.dst] == 0;
      assert long.vm.slots[instr.dst] == 9;
    }
  }

  lemma {:induction false} ShortSlices(n: nat)
    requires n <= 8
    ensures SliceValue([7], 1, n) == 0
    ensures SliceValue([7, 9], 1, n) == if n == 0 then 0 else 9
  {
    if n > 0 { ShortSlices(n - 1); }
  }

  // ----- whole runs -----

  lemma RunKeepsStreamInv(cfg: Config, program: seq<Instruction>, vm: Vm, ip: nat)
    requires StreamInv(vm)
    ensures StreamInv(Run(cfg, program, vm, ip, true).0)
    ensures Run(cfg, program, vm, ip, true).0.input == vm.input
    decreases cfg.limits.maxInstructions + 1 - vm.executed
  {
    hide Exec;
    if ip < |program| && vm.executed <= cfg.limits.maxInstructions {
      ExecKeepsCount(cfg, program[ip], Count(vm), ip, true);
      ExecKeepsStreamInv(cfg, program[ip], Count(vm), ip);
      var step := Exec(cfg, program[ip], Count(vm), ip, true);
      if step.Next? { RunKeepsStreamInv(cfg, program, step.vm, step.ip); }
    }
  }

  function Rewind(vm: Vm, d: nat): Vm
    requires d <= vm.executed
  {
    vm.(executed := vm.executed - d)
  }

  ghost predicate SameButCount(a: Step, b: Step, n: nat)
  {
    match a
    case Next(vm, ip) => b == Next(vm.(executed := n), ip)
    case Halt(vm, o) => b == Halt(vm.(executed := n), o)
  }

  lemma {:induction false} ExecIgnoresCount(cfg: Config, instr: Instruction, vm: Vm, ip: nat, stream: bool, n: nat)
    ensures SameButCount(Exec(cfg, instr, vm, ip, stream), Exec(cfg, instr, vm.(executed := n), ip, stream), n)
  {
    hide ReadFixed, ExecReadSlice, ExecReadBits, EvalBinary, EvalUnary;
    match instr
    case ReadU8(slot) => FixedIgnoresCount(vm, ip, stream, 1, slot, false, n);
    case ReadU16(slot, le) => FixedIgnoresCount(vm, ip, stream, 2, slot, le, n);
    case ReadU24(slot, le) => FixedIgnoresCount(vm, ip, stream, 3, slot, le, n);
    case ReadU32(slot, le) => FixedIgnoresCount(vm, ip, stream, 4, slot, le, n);
    case ReadSlice(lenSlot, dst) => SliceIgnoresCount(cfg.checked, vm, ip, stream, lenSlot, dst, n);
    case ReadBits(bits, slot) => BitsIgnoreCount(vm, ip, stream, bits, slot, n);
    case ReadRest(_, _) =>
    case JumpIfZero(_, _) =>
    case Binary(_, _, _, _) => ComputeIgnoresCount(cfg, instr, vm, ip, stream, n);
    case Unary(_, _, _) => ComputeIgnoresCount(cfg, instr, vm, ip, stream, n);
    case CopySlot(_, _) => ComputeIgnoresCount(cfg, instr, vm, ip, stream, n);
    case LoadConst(_, _) => ComputeIgnoresCount(cfg, instr, vm, ip, stream, n);
    case UpdateOffset(_) => ComputeIgnoresCount(cfg, instr, vm, ip, stream, n);
    case _ =>
  }

  lemma ComputeIgnoresCount(cfg: Config, instr: Instruction, vm: Vm, ip: nat, stream: bool, n: nat)
    requires instr.Binary? || instr.Unary? || instr.CopySlot? || instr.LoadConst? || instr.UpdateOffset?
    ensures SameButCount(Exec(cfg, instr, vm, ip, stream), Exec(cfg, instr, vm.(executed := n), ip, stream), n)
  {
    hide ReadFixed, ExecReadSlice, ExecReadBits, EvalBinary, EvalUnary;
  }

  lemma FixedIgnoresCount(vm: Vm, ip: nat, stream: bool, k: nat, slot: nat, le: bool, n: nat)
    requires 1 <= k <= 4
    ensures SameButCount(ReadFixed(vm, ip, stream, k, slot, le), ReadFixed(vm.(executed := n), ip, stream, k, slot, le), n)
  {
  }

  lemma SliceIgnoresCount(checked: bool, vm: Vm, ip: nat, stream: bool, lenSlot: nat, dst: nat, n: nat)
    ensures SameButCount(ExecReadSlice(checked, vm, ip, stream, lenSlot, dst),
                         ExecReadSlice(checked, vm.(executed := n), ip, stream, lenSlot, dst), n)
  {
  }

  lemma BitsIgnoreCount(vm: Vm, ip: nat, stream: bool, bits: nat, slot: nat, n: nat)
    ensures SameButCount(ExecReadBits(vm, ip, stream, bits, slot), ExecReadBits(vm.(executed := n), ip, stream, bits, slot), n)
  {
    hide BitsValue;
  }

  /** Only the instruction limit looks at the counter. */
  lemma {:induction false} RunRewind(cfg: Config, program: seq<Instruction>, vm: Vm, ip: nat, d: nat)
    requires d <= vm.executed
    requires !Run(cfg, program, vm, ip, true).1.InstructionLimit?
    ensures var (v, o) := Run(cfg, program, vm, ip, true);
            d <= v.executed && Run(cfg, program, Rewind(vm, d), ip, true) == (Rewind(v, d), o)
    decreases cfg.limits.maxInstructions + 1 - vm.executed
  {
    hide Exec;
    if ip < |program| {
      var start := Count(vm);
      ExecKeepsCount(cfg, program[ip], start, ip, true);
      ExecIgnoresCount(cfg, program[ip], start, ip, true, start.executed - d);
      assert Count(Rewind(vm, d)) == Rewind(start, d);
      var step := Exec(cfg, program[ip], start, ip, true);
      if step.Next? { RunRewind(cfg, program, step.vm, step.ip, d); }
    }
  }

  /** A run on a longer buffer goes through the point where the short run stopped: a
      finished run stays finished, and a suspended one continues from its snapshot. */
  lemma {:induction false} RunExtends(cfg: Config, program: seq<Instruction>, vm: Vm, ip: nat, more: seq<Byte>)
    requires StreamInv(vm) && Streamable(program) && NeverWraps(cfg, program, vm, ip)
    ensures var (v, o) := Run(cfg, program, vm, ip, true);
            var longer := Run(cfg, program, Append(vm, more), ip, true);
            if o.NeedMoreBytes?
            then v.executed > 0 && longer == Run(cfg, program, Append(Rewind(v, 1), more), o.ip, true)
            else longer == (Append(v, more), o)
    decreases cfg.limits.maxInstructions + 1 - vm.executed
  {
    hide CursorWraps, Exec;
    if ip < |program| && vm.executed <= cfg.limits.maxInstructions {
      var instr := program[ip];
      ExecKeepsCount(cfg, instr, Count(vm), ip, true);
      ExecKeepsStreamInv(cfg, instr, Count(vm), ip);
      ExecExtends(cfg, instr, Count(vm), ip, more);
      assert Count(Append(vm, more)) == Append(Count(vm), more);
      var step := Exec(cfg, instr, Count(vm), ip, true);
      if step.Next? {
        RunExtends(cfg, program, step.vm, step.ip, more);
      } else if step.outcome.NeedMoreBytes? {
        assert Count(Append(Rewind(step.vm, 1), more)) == Append(step.vm, more);
      }
    }
  }

  // ----- wrap-around over whole runs -----

  lemma WrapIgnoresInput(cfg: Config, instr: Instruction, vm: Vm, more: seq<Byte>)
    ensures CursorWraps(cfg, instr, Append(vm, more)) == CursorWraps(cfg, instr, vm)
  {
  }

  lemma {:induction false} SuspendedWraps(cfg: Config, instr: Instruction, vm: Vm, ip: nat)
    requires var step := Exec(cfg, instr, vm, ip, true); step.Halt? && step.outcome.NeedMoreBytes?
    ensures CursorWraps(cfg, instr, Exec(cfg, instr, vm, ip, true).vm) == CursorWraps(cfg, instr, vm)
  {
  }

  /** If the run on a longer buffer never wraps, neither does the short run, nor what follows
      its suspension. */
  lemma {:induction false} NeverWrapsBefore(cfg: Config, program: seq<Instruction>, vm: Vm, ip: nat, more: seq<Byte>)
    requires StreamInv(vm) && Streamable(program) && NeverWraps(cfg, program, Append(vm, more), ip)
    ensures NeverWraps(cfg, program, vm, ip)
    ensures var (v, o) := Run(cfg, program, vm, ip, true);
            o.NeedMoreBytes? ==> v.executed > 0 && NeverWraps(cfg, program, Append(Rewind(v, 1), more), o.ip)
    decreases cfg.limits.maxInstructions + 1 - vm.executed
  {
    hide CursorWraps, Exec;
    if ip < |program| && vm.executed <= cfg.limits.maxInstructions {
      var instr := program[ip];
      assert Count(Append(vm, more)) == Append(Count(vm), more);
      WrapIgnoresInput(cfg, instr, Count(vm), more);
      ExecKeepsCount(cfg, instr, Count(vm), ip, true);
      ExecKeepsStreamInv(cfg, instr, Count(vm), ip);
      ExecExtends(cfg, instr, Count(vm), ip, more);
      var step := Exec(cfg, instr, Count(vm), ip, true);
      if step.Next? {
        NeverWrapsBefore(cfg, program, step.vm, step.ip, more);
      } else if step.outcome.NeedMoreBytes? {
        assert Count(Append(Rewind(step.vm, 1), more)) == Append(step.vm, more);
        SuspendedWraps(cfg, instr, Count(vm), ip);
        WrapIgnoresInput(cfg, instr, step.vm, more);
      }
    }
  }

  /** A higher count only stops the run earlier. */
  lemma {:induction false} NeverWrapsForward(cfg: Config, program: seq<Instruction>, vm: Vm, ip: nat, d: nat)
    requires d <= vm.executed && NeverWraps(cfg, program, Rewind(vm, d), ip)
    ensures NeverWraps(cfg, program, vm, ip)
    decreases cfg.limits.maxInstructions + 1 - vm.executed
  {
    hide CursorWraps, Exec;
    if ip < |program| && vm.executed <= cfg.limits.maxInstructions {
      var start := Count(vm);
      ExecKeepsCount(cfg, program[ip], start, ip, true);
      ExecIgnoresCount(cfg, program[ip], start, ip, true, start.executed - d);
      assert Count(Rewind(vm, d)) == Rewind(start, d);
      WrapIgnoresCount(cfg, program[ip], start, d);
      var step := Exec(cfg, program[ip], start, ip, true);
      if step.Next? { NeverWrapsForward(cfg, program, step.vm, step.ip, d); }
    }
  }

  lemma WrapIgnoresCount(cfg: Config, instr: Instruction, vm: Vm, d: nat)
    requires d <= vm.executed
    ensures CursorWraps(cfg, instr, Rewind(vm, d)) == CursorWraps(cfg, instr, vm)
  {
  }

  lemma {:induction false} CheckedStep(limits: Limits, instr: Instruction, vm: Vm, ip: nat)
    requires !Exec(Config(limits, true), instr, vm, ip, true).Halt? || Exec(Config(limits, true), instr, vm, ip, true).outcome != Panic
    ensures Exec(Config(limits, false), instr, vm, ip, true) == Exec(Config(limits, true), instr, vm, ip, true)
    ensures !CursorWraps(Config(limits, false), instr, vm)
  {
    hide SliceValue;
  }

  /** A caller can tell from the checked build: if its run does not panic, the wrapping build
      runs exactly alike, and never wraps. */
  lemma {:induction false} CheckedRunDecides(limits: Limits, program: seq<Instruction>, vm: Vm, ip: nat)
    requires Run(Config(limits, true), program, vm, ip, true).1 != Panic
    ensures Run(Config(limits, false), program, vm, ip, true) == Run(Config(limits, true), program, vm, ip, true)
    ensures NeverWraps(Config(limits, false), program, vm, ip)
    decreases limits.maxInstructions + 1 - vm.executed
  {
    hide CursorWraps, Exec;
    if ip < |program| && vm.executed <= limits.maxInstructions {
      ExecKeepsCount(Config(limits, true), program[ip], Count(vm), ip, true);
      CheckedStep(limits, program[ip], Count(vm), ip);
      var step := Exec(Config(limits, true), program[ip], Count(vm), ip, true);
      if step.Next? { CheckedRunDecides(limits, program, step.vm, step.ip); }
    }
  }

  /** Builds with overflow checks never wrap. */
  lemma {:induction false} CheckedNeverWraps(limits: Limits, program: seq<Instruction>, vm: Vm, ip: nat)
    ensures NeverWraps(Config(limits, true), program, vm, ip)
    decreases limits.maxInstructions + 1 - vm.executed
  {
    hide Exec;
    if ip < |program| && vm.executed <= limits.maxInstructions {
      ExecKeepsCount(Config(limits, true), program[ip], Count(vm), ip, true);
      var step := Exec(Config(limits, true), program[ip], Count(vm), ip, true);
      if step.Next? { CheckedNeverWraps(limits, program, step.vm, step.ip); }
    }
  }

  // ----- resumption -----

  /** One resumption against the run that had those bytes from the start. */
  lemma {:induction false} ResumeOnce(cfg: Config, program: seq<Instruction>, vm: Vm, ip: nat, a: seq<Byte>, b: seq<Byte>)
    requires StreamInv(vm) && Streamable(program) && NeverWraps(cfg, program, Append(vm, a + b), ip)
    requires Run(cfg, program, vm, ip, true).1.NeedMoreBytes?
    ensures var (v, o) := Run(cfg, program, vm, ip, true);
            var start := Append(Append(v, a), b);
            && StreamInv(Append(v, a))
            && start.executed > 0
            && Run(cfg, program, Append(vm, a + b), ip, true) == Run(cfg, program, Rewind(start, 1), o.ip, true)
            && NeverWraps(cfg, program, start, o.ip)
  {
    hide NeverWraps, Run;
    var (v, o) := Run(cfg, program, vm, ip, true);
    NeverWrapsBefore(cfg, program, vm, ip, a + b);
    RunExtends(cfg, program, vm, ip, a + b);
    RunKeepsStreamInv(cfg, program, vm, ip);
    assert v.input + (a + b) == v.input + a + b;
    assert Append(Rewind(v, 1), a + b) == Rewind(Append(Append(v, a), b), 1);
    NeverWrapsForward(cfg, program, Append(Append(v, a), b), o.ip, 1);
  }

  /** Feeding the chunks ends as one run on all of them: the same outcome, slots, cursor,
      emitted fields and loop count, and one more counted instruction per resumption. */
  ghost predicate EndsAlike(cfg: Config, program: seq<Instruction>, vm: Vm, ip: nat, chunks: seq<seq<Byte>>)
  {
    var (v, o, resumptions) := Feed(cfg, program, vm, ip, chunks);
    var (w, p) := Run(cfg, program, Append(vm, Concat(chunks)), ip, true);
    && p == o
    && Core(w) == Core(v)
    && w.executed + resumptions == v.executed
    && (o.NeedMoreBytes? ==> w.input == v.input)
  }

  /** Resume equivalence: however the input is cut into chunks, feeding them one at a time
      ends as one run over all of them does, unless that run wraps a slice's end. */
  lemma {:induction false} ResumeEquivalence(cfg: Config, program: seq<Instruction>, vm: Vm, ip: nat, chunks: seq<seq<Byte>>)
    requires StreamInv(vm) && Streamable(program) && NeverWraps(cfg, program, Append(vm, Concat(chunks)), ip)
    requires !Feed(cfg, program, vm, ip, chunks).1.InstructionLimit?
    ensures EndsAlike(cfg, program, vm, ip, chunks)
    decreases |chunks|
  {
    hide NeverWraps, Run;
    var (v, o) := Run(cfg, program, vm, ip, true);
    if chunks == [] {
      assert Append(vm, []) == vm;
    } else if o.NeedMoreBytes? {
      var next, rest := Append(v, chunks[0]), Concat(chunks[1..]);
      ResumeOnce(cfg, program, vm, ip, chunks[0], rest);
      ResumeEquivalence(cfg, program, next, o.ip, chunks[1..]);
      RunRewind(cfg, program, Append(next, rest), o.ip, 1);
    } else {
      NeverWrapsBefore(cfg, program, vm, ip, Concat(chunks));
      RunExtends(cfg, program, vm, ip, Concat(chunks));
    }
  }

  /** In particular in every build with overflow checks, and in one without them wherever the
      checked run on the whole input does not panic. */
  lemma {:induction false} ResumeEquivalenceByBuild(cfg: Config, program: seq<Instruction>, vm: Vm, ip: nat, chunks: seq<seq<Byte>>)
    requires StreamInv(vm) && Streamable(program)
    requires cfg.checked || Run(Config(cfg.limits, true), program, Append(vm, Concat(chunks)), ip, true).1 != Panic
    requires !Feed(cfg, program, vm, ip, chunks).1.InstructionLimit?
    ensures EndsAlike(cfg, program, vm, ip, chunks)
  {
    hide NeverWraps, Run, Feed, EndsAlike;
    var whole := Append(vm, Concat(chunks));
    assert cfg == Config(cfg.limits, cfg.checked);
    if cfg.checked {
      CheckedNeverWraps(cfg.limits, program, whole, ip);
    } else {
      CheckedRunDecides(cfg.limits, program, whole, ip);
    }
    ResumeEquivalence(cfg, program, vm, ip, chunks);
  }

  function Forward(vm: Vm, d: nat): Vm { vm.(executed := vm.executed + d) }

  lemma {:induction false} RunForward(cfg: Config, program: seq<Instruction>, vm: Vm, ip: nat, d: nat)
    requires var (v, o) := Run(cfg, program, vm, ip, true);
             !o.InstructionLimit? && v.executed + d <= cfg.limits.maxInstructions + 1
    ensures var (v, o) := Run(cfg, program, vm, ip, true);
            Run(cfg, program, Forward(vm, d), ip, true) == (Forward(v, d), o)
    decreases cfg.limits.maxInstructions + 1 - vm.executed
  {
    hide Exec;
    if ip < |program| {
      RunCountsUp(cfg, program, vm, ip);
      var start := Count(vm);
      ExecKeepsCount(cfg, program[ip], start, ip, true);
      ExecIgnoresCount(cfg, program[ip], start, ip, true, start.executed + d);
      assert Count(Forward(vm, d)) == start.(executed := start.executed + d);
      var step := Exec(cfg, program[ip], start, ip, true);
      if step.Next? { RunForward(cfg, program, step.vm, step.ip, d); }
    }
  }

  lemma RunCountsUp(cfg: Config, program: seq<Instruction>, vm: Vm, ip: nat)
    ensures var (v, o) := Run(cfg, program, vm, ip, true);
            v.executed >= vm.executed && (ip < |program| && !o.InstructionLimit? ==> v.executed > vm.executed)
    decreases cfg.limits.maxInstructions + 1 - vm.executed
  {
    hide Exec;
    if ip < |program| && vm.executed <= cfg.limits.maxInstructions {
      ExecKeepsCount(cfg, program[ip], Count(vm), ip, true);
      var step := Exec(cfg, program[ip], Count(vm), ip, true);
      if step.Next? { RunCountsUp(cfg, program, step.vm, step.ip); }
    }
  }

  /** Chunking meets the instruction limit only if the whole-input run comes within
      `|chunks|` instructions of it. */
  lemma {:induction false} ChunksMissTheLimit(cfg: Config, program: seq<Instruction>, vm: Vm, ip: nat, chunks: seq<seq<Byte>>)
    requires StreamInv(vm) && Streamable(program) && NeverWraps(cfg, program, Append(vm, Concat(chunks)), ip)
    requires var (w, p) := Run(cfg, program, Append(vm, Concat(chunks)), ip, true);
             !p.InstructionLimit? && w.executed + |chunks| <= cfg.limits.maxInstructions + 1
    ensures !Feed(cfg, program, vm, ip, chunks).1.InstructionLimit?
    decreases |chunks|
  {
    hide NeverWraps, Run;
    var (v, o) := Run(cfg, program, vm, ip, true);
    if chunks == [] {
      assert Append(vm, []) == vm;
    } else if o.NeedMoreBytes? {
      var next, rest := Append(v, chunks[0]), Concat(chunks[1..]);
      ResumeOnce(cfg, program, vm, ip, chunks[0], rest);
      var start := Append(next, rest);
      RunForward(cfg, program, Rewind(start, 1), o.ip, 1);
      assert Forward(Rewind(start, 1), 1) == start;
      ChunksMissTheLimit(cfg, program, next, o.ip, chunks[1..]);
    } else {
      NeverWrapsBefore(cfg, program, vm, ip, Concat(chunks));
      RunExtends(cfg, program, vm, ip, Concat(chunks));
    }
  }

  // ----- exact wake-up -----

  /** `bytes_needed` is the least number of further bytes with which the frozen read
      executes: fewer suspend it again at the same place, asking for the difference. */
  lemma BytesNeededIsExact(cfg: Config, program: seq<Instruction>, vm: Vm, ip: nat, more: seq<Byte>)
    requires StreamInv(vm)
    requires Run(cfg, program, vm, ip, true).1.NeedMoreBytes?
    ensures var (v, o) := Run(cfg, program, vm, ip, true);
            && o.ip < |program| && o.needed >= 1
            && var again := Exec(cfg, program[o.ip], Append(v, more), o.ip, true);
            if |more| < o.needed
            then again == Halt(Append(v, more), NeedMoreBytes(o.ip, o.needed - |more|))
            else again.Next?
    decreases cfg.limits.maxInstructions + 1 - vm.executed
  {
    hide Exec;
    if ip < |program| && vm.executed <= cfg.limits.maxInstructions {
      ExecKeepsCount(cfg, program[ip], Count(vm), ip, true);
      ExecKeepsStreamInv(cfg, program[ip], Count(vm), ip);
      var step := Exec(cfg, program[ip], Count(vm), ip, true);
      if step.Next? {
        BytesNeededIsExact(cfg, program, step.vm, step.ip, more);
      } else {
        ExecAsksExactly(cfg, program[ip], Count(vm), ip, more);
      }
    }
  }

  lemma ExecAsksExactly(cfg: Config, instr: Instruction, vm: Vm, ip: nat, more: seq<Byte>)
    requires StreamInv(vm)
    requires var step := Exec(cfg, instr, vm, ip, true); step.Halt? && step.outcome.NeedMoreBytes?
    ensures var Halt(v, o) := Exec(cfg, instr, vm, ip, true);
            && o.ip == ip && o.needed >= 1
            && var again := Exec(cfg, instr, Append(v, more), ip, true);
            if |more| < o.needed then again == Halt(Append(v, more), NeedMoreBytes(ip, o.needed - |more|)) else again.Next?
  {
    hide ReadFixed, ExecReadSlice, ExecReadBits, EvalBinary, EvalUnary;
    match instr
    case ReadU8(slot) => FixedAsksExactly(vm, ip, 1, slot, false, more);
    case ReadU16(slot, le) => FixedAsksExactly(vm, ip, 2, slot, le, more);
    case ReadU24(slot, le) => FixedAsksExactly(vm, ip, 3, slot, le, more);
    case ReadU32(slot, le) => FixedAsksExactly(vm, ip, 4, slot, le, more);
    case ReadSlice(lenSlot, dst) => SliceAsksExactly(cfg.checked, vm, ip, lenSlot, dst, more);
    case ReadBits(bits, slot) => BitsAskExactly(vm, ip, bits, slot, more);
    case _ =>
  }

  lemma FixedAsksExactly(vm0: Vm, ip: nat, n: nat, slot: nat, le: bool, more: seq<Byte>)
    requires StreamInv(vm0) && 1 <= n <= 4
    requires var step := ReadFixed(vm0, ip, true, n, slot, le); step.Halt? && step.outcome.NeedMoreBytes?
    ensures var Halt(v, o) := ReadFixed(vm0, ip, true, n, slot, le);
            && o.ip == ip && o.needed >= 1
            && var again := ReadFixed(Append(v, more), ip, true, n, slot, le);
            if |more| < o.needed then again == Halt(Append(v, more), NeedMoreBytes(ip, o.needed - |more|)) else again.Next?
  {
    hide FixedValue;
  }

  lemma SliceAsksExactly(checked: bool, vm0: Vm, ip: nat, lenSlot: nat, dst: nat, more: seq<Byte>)
    requires StreamInv(vm0)
    requires var step := ExecReadSlice(checked, vm0, ip, true, lenSlot, dst); step.Halt? && step.outcome.NeedMoreBytes?
    ensures var Halt(v, o) := ExecReadSlice(checked, vm0, ip, true, lenSlot, dst);
            && o.ip == ip && o.needed >= 1
            && var again := ExecReadSlice(checked, Append(v, more), ip, true, lenSlot, dst);
            if |more| < o.needed then again == Halt(Append(v, more), NeedMoreBytes(ip, o.needed - |more|)) else again.Next?
  {
    hide SliceValue, ExecReadSlice;
    SuspendedSlice(checked, vm0, ip, lenSlot, dst);
    UnwrappedSlice(vm0, ip, true, lenSlot, dst);
    SizedSlice(vm0, ip, lenSlot, dst);
    var longer := Append(AlignToByte(vm0), more);
    UnwrappedSlice(longer, ip, true, lenSlot, dst);
    SizedSlice(longer, ip, lenSlot, dst);
  }

  /** A slice that suspends is a sized one and does not wrap. */
  lemma SuspendedSlice(checked: bool, vm0: Vm, ip: nat, lenSlot: nat, dst: nat)
    requires StreamInv(vm0)
    requires var step := ExecReadSlice(checked, vm0, ip, true, lenSlot, dst); step.Halt? && step.outcome.NeedMoreBytes?
    ensures lenSlot != NO_LEN_SLOT && AlignToByte(vm0).pos + SliceLen(vm0.slots, |vm0.input|, vm0.pos, lenSlot) < U64_SIZE
  {
    hide SliceValue, WriteSlot;
    var vm := AlignToByte(vm0);
    SliceSumDoesNotWrap(vm, vm.slots[lenSlot]);
  }

  lemma SliceSumDoesNotWrap(vm: Vm, len: U64)
    requires vm.pos <= |vm.input| && (vm.pos + len) % U64_SIZE > |vm.input|
    ensures vm.pos + len < U64_SIZE
  {
    if vm.pos + len >= U64_SIZE { WrappedSum(vm.pos, len); }
  }

  lemma WrappedSum(pos: nat, len: U64)
    requires pos + len >= U64_SIZE
    ensures (pos + len) % U64_SIZE <= pos
  {
    var x := pos + len - U64_SIZE;
    assert (x + U64_SIZE) % U64_SIZE == x % U64_SIZE;
    ModAtMost(x);
  }

  lemma BitsAskExactly(vm: Vm, ip: nat, bits: nat, slot: nat, more: seq<Byte>)
    requires StreamInv(vm) && ExecReadBits(vm, ip, true, bits, slot).Halt?
    ensures var Halt(v, o) := ExecReadBits(vm, ip, true, bits, slot);
            && v == vm && o.ip == ip && o.needed >= 1
            && var again := ExecReadBits(Append(vm, more), ip, true, bits, slot);
            if |more| < o.needed then again == Halt(Append(vm, more), NeedMoreBytes(ip, o.needed - |more|)) else again.Next?
  {
    hide BitsValue;
    assert BitsRemaining(vm) < bits;
    assert BitsRemaining(Append(vm, more)) == BitsRemaining(vm) + 8 * |more|;
  }

  // ----- datagram mode -----

  /** A stream run that does not stop for bytes is also the datagram run. */
  lemma {:induction false} DatagramAgrees(cfg: Config, program: seq<Instruction>, vm: Vm, ip: nat)
    requires !Run(cfg, program, vm, ip, true).1.NeedMoreBytes?
    ensures Run(cfg, program, vm, ip, false) == Run(cfg, program, vm, ip, true)
    decreases cfg.limits.maxInstructions + 1 - vm.executed
  {
    hide Exec;
    if ip < |program| && vm.executed <= cfg.limits.maxInstructions {
      ExecKeepsCount(cfg, program[ip], Count(vm), ip, true);
      var step := Exec(cfg, program[ip], Count(vm), ip, true);
      DatagramStep(cfg, program[ip], Count(vm), ip);
      if step.Next? { DatagramAgrees(cfg, program, step.vm, step.ip); }
    }
  }

  lemma DatagramStep(cfg: Config, instr: Instruction, vm: Vm, ip: nat)
    ensures var s := Exec(cfg, instr, vm, ip, true);
            (s.Halt? && s.outcome.NeedMoreBytes?) || Exec(cfg, instr, vm, ip, false) == s
  {
  }

  /** Datagram runs never ask for bytes: `run`'s internal-error arm is dead. */
  lemma {:induction false} DatagramNeverSuspends(cfg: Config, program: seq<Instruction>, vm: Vm, ip: nat)
    ensures !Run(cfg, program, vm, ip, false).1.NeedMoreBytes?
    decreases cfg.limits.maxInstructions + 1 - vm.executed
  {
    if ip < |program| && vm.executed <= cfg.limits.maxInstructions {
      ExecKeepsCount(cfg, program[ip], Count(vm), ip, false);
      var step := Exec(cfg, program[ip], Count(vm), ip, false);
      if step.Next? { DatagramNeverSuspends(cfg, program, step.vm, step.ip); }
    }
  }

  /** What is excluded does break resume equivalence: a payload tail read by `ReadRest`, and,
      without overflow checks, a run whose slice wraps the cursor. */
  lemma {:induction false} BufferDependentProgramsBreak()
    ensures var limits := Limits(100, 10);
            var vm := Vm([0, 0, 0], [false, false, false], [7], 0, 0, 0, 0, [], []);
            var tail := [ReadRest("p", 0), ReadU8(1)];
            var wrapping := [ReadU8(2), LoadConst(U64_SIZE - 1, 0), ReadSlice(0, 1)];
            && Feed(Config(limits, true), tail, vm, 0, [[9]]).1 != Run(Config(limits, true), tail, Append(vm, [9]), 0, true).1
            && Core(Feed(Config(limits, false), wrapping, vm, 0, [[9]]).0)
               != Core(Run(Config(limits, false), wrapping, Append(vm, [9]), 0, true).0)
  {
    var limits := Limits(100, 10);
    var vm := Vm([0, 0, 0], [false, false, false], [7], 0, 0, 0, 0, [], []);
    TailBreaks(Config(limits, true), vm);
    WrapBreaks(Config(limits, false), vm);
  }

  lemma TailBreaks(cfg: Config, vm: Vm)
    requires cfg == Config(Limits(100, 10), true)
    requires vm == Vm([0, 0, 0], [false, false, false], [7], 0, 0, 0, 0, [], [])
    ensures var tail := [ReadRest("p", 0), ReadU8(1)];
            Feed(cfg, tail, vm, 0, [[9]]).1 == Complete
            && Run(cfg, tail, Append(vm, [9]), 0, true).1 == NeedMoreBytes(1, 1)
  {
    var tail := [ReadRest("p", 0), ReadU8(1)];
    var s1 := Exec(cfg, tail[0], Count(vm), 0, true);
    var s2 := Exec(cfg, tail[1], Count(s1.vm), 1, true);
    assert s2.Halt? && s2.outcome == NeedMoreBytes(1, 1);
    assert Run(cfg, tail, s1.vm, 1, true) == (s2.vm, s2.outcome);
    assert Run(cfg, tail, vm, 0, true) == (s2.vm, s2.outcome);
    var r := Append(s2.vm, [9]);
    assert r.input == [7, 9] && r.pos == 1;
    var s3 := Exec(cfg, tail[1], Count(r), 1, true);
    assert s3.Next? && s3.ip == 2;
    assert Run(cfg, tail, s3.vm, 2, true).1 == Complete;
    assert Run(cfg, tail, r, 1, true).1 == Complete;
    var whole := Append(vm, [9]);
    var t1 := Exec(cfg, tail[0], Count(whole), 0, true);
    var t2 := Exec(cfg, tail[1], Count(t1.vm), 1, true);
    assert t2.Halt? && t2.outcome == NeedMoreBytes(1, 1);
    assert Run(cfg, tail, t1.vm, 1, true).1 == t2.outcome;
  }

  lemma {:induction false} WrapBreaks(cfg: Config, vm: Vm)
    requires cfg == Config(Limits(100, 10), false)
    requires vm == Vm([0, 0, 0], [false, false, false], [7], 0, 0, 0, 0, [], [])
    ensures var wrapping := [ReadU8(2), LoadConst(U64_SIZE - 1, 0), ReadSlice(0, 1)];
            Core(Feed(cfg, wrapping, vm, 0, [[9]]).0) != Core(Run(cfg, wrapping, Append(vm, [9]), 0, true).0)
  {
    hide Run, SliceValue;
    ShortSlices(8);
    WrapRun(cfg, vm);
    var whole := Append(vm, [9]);
    assert whole.input == [7, 9];
    WrapRun(cfg, whole);
  }

  lemma WrapRun(cfg: Config, vm: Vm)
    requires cfg == Config(Limits(100, 10), false)
    requires vm == Vm([0, 0, 0], [false, false, false], vm.input, 0, 0, 0, 0, [], []) && |vm.input| >= 1
    ensures var wrapping := [ReadU8(2), LoadConst(U64_SIZE - 1, 0), ReadSlice(0, 1)];
            var (v, o) := Run(cfg, wrapping, vm, 0, true);
            o == Complete && |v.slots| == 3 && v.slots[1] == SliceValue(vm.input, 1, 8)
  {
    var wrapping := [ReadU8(2), LoadConst(U64_SIZE - 1, 0), ReadSlice(0, 1)];
    var s1 := Exec(cfg, wrapping[0], Count(vm), 0, true);
    assert s1.Next? && s1.ip == 1 && s1.vm.pos == 1 && |s1.vm.slots| == 3;
    var s2 := Exec(cfg, wrapping[1], Count(s1.vm), 1, true);
    assert s2.Next? && s2.ip == 2 && s2.vm.slots[0] == U64_SIZE - 1 && |s2.vm.slots| == 3 && s2.vm.pos == 1;
    assert s2.vm.input == vm.input && s2.vm.bit == 0;
    var s3 := Exec(cfg, wrapping[2], Count(s2.vm), 2, true);
    assert (1 + (U64_SIZE - 1)) % U64_SIZE == 0;
    assert s3.Next? && s3.ip == 3 && s3.vm.slots[1] == SliceValue(vm.input, 1, 8);
    assert Run(cfg, wrapping, s3.vm, 3, true) == (s3.vm, Complete);
    assert Run(cfg, wrapping, s2.vm, 2, true) == (s3.vm, Complete);
    assert Run(cfg, wrapping, s1.vm, 1, true) == (s3.vm, Complete);
  }
}
