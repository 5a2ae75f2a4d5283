/** `BytecodeVm`: the interpreter as an object whose methods update its fields, tied
    to the run semantics of `Bytecode`. */
module BytecodeMachine {
  import opened Bytecode
  import BitCursor
  import Instructions

  /** A frozen machine: owned copies only, so it outlives the segment it was taken on. */
  datatype VmContinuation = VmContinuation(vm: Vm, ip: nat, cfg: Config, bytesNeeded: nat)

  datatype BytecodeError = ConstraintFailed(message: string) | InstructionsExceeded | LoopsExceeded

  datatype StreamOutcome = Finished | Suspended(cont: VmContinuation)

  datatype Result = Ok(outcome: StreamOutcome) | Err(error: BytecodeError) | Panicked

  /** How `interpret` reports the end of a run to its caller. */
  function Report(cfg: Config, vm: Vm, outcome: Outcome): Result
  {
    match outcome
    case Complete => Ok(Finished)
    case NeedMoreBytes(ip, needed) => Ok(Suspended(VmContinuation(vm, ip, cfg, needed)))
    case Constraint(message) => Err(ConstraintFailed(message))
    case InstructionLimit => Err(InstructionsExceeded)
    case LoopLimit => Err(LoopsExceeded)
    case Panic => Panicked
  }

  /** What an error says of the machine that reports it. */
  ghost predicate Explained(cfg: Config, program: seq<Instruction>, vm: Vm, error: BytecodeError)
  {
    match error
    case ConstraintFailed(message) => exists p: nat :: Validate(p, message) in program && p < |vm.slots| && vm.slots[p] == 0
    case InstructionsExceeded => vm.executed > cfg.limits.maxInstructions
    case LoopsExceeded => vm.loops > cfg.limits.maxLoopIterations
  }

  lemma {:induction false} ErrorsAreExplained(cfg: Config, program: seq<Instruction>, vm: Vm, ip: nat, stream: bool)
    ensures var (end, outcome) := Bytecode.Run(cfg, program, vm, ip, stream);
            Report(cfg, end, outcome).Err? ==> Explained(cfg, program, end, Report(cfg, end, outcome).error)
    decreases cfg.limits.maxInstructions + 1 - vm.executed
  {
    hide Bytecode.EvalBinary, Bytecode.EvalUnary, FixedValue, SliceValue, BitsValue, SliceLen;
    if ip < |program| && vm.executed <= cfg.limits.maxInstructions {
      var counted := Count(vm);
      ExecKeepsCount(cfg, program[ip], counted, ip, stream);
      match Exec(cfg, program[ip], counted, ip, stream)
      case Halt(vm', outcome) =>
      case Next(vm', ip') => ErrorsAreExplained(cfg, program, vm', ip', stream);
    }
  }

  datatype Flow = Goto(ip: nat) | Stop(outcome: Outcome)

  function FlowOf(step: Step): Flow
  {
    match step
    case Next(_, ip) => Goto(ip)
    case Halt(_, outcome) => Stop(outcome)
  }

  function StepOf(vm: Vm, flow: Flow): Step
  {
    match flow
    case Goto(ip) => Next(vm, ip)
    case Stop(outcome) => Halt(vm, outcome)
  }

  lemma ShiftIn(a: nat, p: nat, e: nat)
    ensures (a % U64_SIZE * p + e) % U64_SIZE == (a * p + e) % U64_SIZE
  {
    var q, r := a / U64_SIZE, a % U64_SIZE;
    assert a == q * U64_SIZE + r;
    Regroup(q, r, p, e);
    AddMultiple(r * p + e, q * p);
  }

  /** The top `take` of the last `avail` bits of a byte. */
  function Extract(byte: Byte, avail: nat, take: nat): nat
    requires take <= avail <= 8
  {
    byte / Pow2(avail - take) % Pow2(take)
  }

  /** `(value << take) | extracted` on 64 bits; the extracted bits fill the zeroed ones. */
  function ShiftOr(value: U64, take: nat, extracted: nat): U64
  {
    (value * Pow2(take) + extracted) % U64_SIZE
  }

  lemma TakeFromByte(input: seq<Byte>, start: nat, done: nat, pos: nat, bit: nat, take: nat)
    requires pos < |input| && bit + take <= 8 && start + done == 8 * pos + bit
    ensures ShiftOr(BitsValue(input, start, done) % U64_SIZE, take, Extract(input[pos], 8 - bit, take))
            == BitsValue(input, start, done + take) % U64_SIZE
  {
    hide BitsValue, Pow2;
    BitCursor.BitsInByte(input, pos, bit, take);
    BitCursor.BitsCompose(input, start, done, take);
    ShiftIn(BitsValue(input, start, done), Pow2(take), Extract(input[pos], 8 - bit, take));
  }

  lemma TakenIs(vm: Vm, bits: nat, done: nat, pos: nat)
    requires vm.bit < 8 && done <= bits && 8 * pos <= Cursor(vm) + done < 8 * pos + 8
    requires done > 0 ==> Cursor(vm) + done <= 8 * |vm.input|
    requires done < bits ==> pos >= |vm.input|
    ensures done == Min(bits, BitsRemaining(vm))
  {
    BitCursor.RemainingIs(vm);
  }

  lemma Regroup(q: nat, r: nat, p: nat, e: nat)
    ensures (q * U64_SIZE + r) * p + e == (r * p + e) + (q * p) * U64_SIZE
  {
  }

  lemma {:induction false} AddMultiple(x: nat, k: nat)
    ensures (x + k * U64_SIZE) % U64_SIZE == x % U64_SIZE
  {
    if k > 0 {
      AddMultiple(x, k - 1);
      AddOne(x + (k - 1) * U64_SIZE);
    }
  }

  lemma AddOne(y: nat)
    ensures (y + U64_SIZE) % U64_SIZE == y % U64_SIZE
  {
  }

  lemma SliceStart(input: seq<Byte>, pos: nat)
    ensures SliceValue(input, pos, 0) == 0
  {
  }

  lemma SliceStep(input: seq<Byte>, pos: nat, i: nat, at: nat)
    requires at == (pos + i) % U64_SIZE
    ensures SliceValue(input, pos, i + 1)
         == if at < |input| then SliceValue(input, pos, i) * 256 % U64_SIZE + input[at] else SliceValue(input, pos, i)
  {
  }

  class BytecodeVm {
    var slots: seq<U64>
    var input: seq<Byte>
    var inputPos: nat
    var bitOffset: nat
    var cfg: Config
    var instructionsExecuted: nat
    var loopIterations: nat
    var emitted: seq<(string, U64)>
    var restStarts: seq<(string, nat)>
    var slotTouched: seq<bool>

    ghost function State(): Vm
      reads this
    {
      Vm(slots, slotTouched, input, inputPos, bitOffset, instructionsExecuted, loopIterations, emitted, restStarts)
    }

    constructor WithLimits(slotCount: nat, cfg: Config)
      ensures this.cfg == cfg
      ensures |slots| == |slotTouched| == Max(slotCount, 32)
      ensures forall i :: 0 <= i < |slots| ==> slots[i] == 0 && !slotTouched[i]
      ensures State() == Vm(slots, slotTouched, [], 0, 0, 0, 0, [], [])
    {
      slots := seq(Max(slotCount, 32), _ => 0);
      slotTouched := seq(Max(slotCount, 32), _ => false);
      input, inputPos, bitOffset := [], 0, 0;
      this.cfg := cfg;
      instructionsExecuted, loopIterations := 0, 0;
      emitted, restStarts := [], [];
    }

    constructor Restore(cont: VmContinuation)
      ensures State() == cont.vm && cfg == cont.cfg
    {
      var vm := cont.vm;
      slots, slotTouched, input, inputPos, bitOffset := vm.slots, vm.touched, vm.input, vm.pos, vm.bit;
      cfg := cont.cfg;
      instructionsExecuted, loopIterations := vm.executed, vm.loops;
      emitted, restStarts := vm.emitted, vm.restStarts;
    }

    method Snapshot(ip: nat, bytesNeeded: nat) returns (cont: VmContinuation)
      ensures cont == VmContinuation(State(), ip, cfg, bytesNeeded)
    {
      cont := VmContinuation(
        Vm(slots, slotTouched, input, inputPos, bitOffset, instructionsExecuted, loopIterations, emitted, restStarts),
        ip, cfg, bytesNeeded);
    }

    method LoadInput(data: seq<Byte>)
      modifies this
      ensures State() == old(State()).(input := data, pos := 0, bit := 0) && cfg == old(cfg)
    {
      input, inputPos, bitOffset := data, 0, 0;
    }

    method AppendInput(more: seq<Byte>)
      modifies this
      ensures State() == Append(old(State()), more) && cfg == old(cfg)
    {
      input := input + more;
    }

    method WriteSlot(slot: nat, val: U64)
      modifies this`slots, this`slotTouched
      ensures State() == Bytecode.WriteSlot(old(State()), slot, val)
    {
      if slot < |slots| {
        slots := slots[slot := val];
        if slot < |slotTouched| { slotTouched := slotTouched[slot := true]; }
      }
    }

    method AlignToByte()
      modifies this`inputPos, this`bitOffset
      ensures State() == Bytecode.AlignToByte(old(State()))
    {
      if bitOffset != 0 {
        inputPos := inputPos + 1;
        bitOffset := 0;
      }
    }

    /** The reader's loop takes at most the rest of one byte at a time; the shifted-in
        value occupies the zeroed low bits. */
    method ReadBits(bits: nat) returns (value: U64)
      requires bitOffset < 8
      modifies this`inputPos, this`bitOffset
      ensures var vm := old(State());
              var take := Min(bits, BitsRemaining(vm));
              && value == BitsValue(vm.input, Cursor(vm), take) % U64_SIZE
              && Cursor(State()) == Cursor(vm) + take && bitOffset < 8
    {
      hide BitsValue, ShiftOr, Extract, BitsRemaining;
      value := 0;
      var remaining := bits;
      ghost var start, done := Cursor(State()), 0;
      BitCursor.NoBits(input, start);
      while remaining > 0
        invariant 0 <= done == bits - remaining <= bits
        invariant bitOffset < 8 && 8 * inputPos + bitOffset == start + done
        invariant done > 0 ==> start + done <= 8 * |input|
        invariant value == BitsValue(input, start, done) % U64_SIZE
        decreases remaining
      {
        if inputPos >= |input| { break; }
        var take := Min(8 - bitOffset, remaining);
        TakeFromByte(input, start, done, inputPos, bitOffset, take);
        value := ShiftOr(value, take, Extract(input[inputPos], 8 - bitOffset, take));
        remaining := remaining - take;
        done := done + take;
        bitOffset := bitOffset + take;
        if bitOffset == 8 {
          inputPos := inputPos + 1;
          bitOffset := 0;
        }
      }
      TakenIs(old(State()), bits, done, inputPos);
    }

    /** `ReadU8/16/24/32` on `n` bytes. */
    method ExecReadFixed(ip: nat, stream: bool, n: nat, slot: nat, le: bool) returns (flow: Flow)
      requires 1 <= n <= 4
      modifies this`slots, this`slotTouched, this`inputPos, this`bitOffset
      ensures var step := ReadFixed(old(State()), ip, stream, n, slot, le);
              State() == step.vm && flow == FlowOf(step) && bitOffset == 0
    {
      AlignToByte();
      if n > 1 && inputPos + n >= U64_SIZE {
        flow := Stop(Panic);
      } else if inputPos + n <= |input| {
        WriteSlot(slot, FixedValue(input, inputPos, n, le));
        inputPos := inputPos + n;
        flow := Goto(ip + 1);
      } else if stream {
        var have := SatSub(|input|, inputPos);
        flow := Stop(NeedMoreBytes(ip, Max(SatSub(n, have), 1)));
      } else {
        WriteSlot(slot, 0);
        flow := Goto(ip + 1);
      }
    }

    method FoldSlice(n: nat) returns (val: U64)
      ensures val == SliceValue(input, inputPos, n)
    {
      hide SliceValue;
      val := 0;
      SliceStart(input, inputPos);
      var i := 0;
      while i < n
        invariant 0 <= i <= n
        invariant val == SliceValue(input, inputPos, i)
      {
        var at := (inputPos + i) % U64_SIZE;
        SliceStep(input, inputPos, i, at);
        if at < |input| { val := val * 256 % U64_SIZE + input[at]; }
        i := i + 1;
      }
    }

    method ExecReadSlice(ip: nat, stream: bool, lenSlot: nat, dst: nat) returns (flow: Flow)
      modifies this`slots, this`slotTouched, this`inputPos, this`bitOffset
      ensures var step := Bytecode.ExecReadSlice(cfg.checked, old(State()), ip, stream, lenSlot, dst);
              State() == step.vm && flow == FlowOf(step) && bitOffset == 0
    {
      hide SliceValue, SliceLen, Bytecode.WriteSlot;
      AlignToByte();
      if lenSlot == NO_LEN_SLOT && cfg.checked && inputPos > |input| { return Stop(Panic); }
      var len := SliceLen(slots, |input|, inputPos, lenSlot);
      if cfg.checked && inputPos + len >= U64_SIZE { return Stop(Panic); }
      if stream && lenSlot != NO_LEN_SLOT && (inputPos + len) % U64_SIZE > |input| {
        var have := SatSub(|input|, inputPos);
        return Stop(NeedMoreBytes(ip, Max(SatSub(len, have), 1)));
      }
      var val := FoldSlice(Min(len, 8));
      WriteSlot(dst, val);
      inputPos := (inputPos + len) % U64_SIZE;
      flow := Goto(ip + 1);
    }

    method ExecReadBits(ip: nat, stream: bool, bits: nat, slot: nat) returns (flow: Flow)
      requires bitOffset < 8
      modifies this`slots, this`slotTouched, this`inputPos, this`bitOffset
      ensures var step := Bytecode.ExecReadBits(old(State()), ip, stream, bits, slot);
              State() == step.vm && flow == FlowOf(step) && bitOffset < 8
    {
      hide BitsValue;
      var avail := BitsRemaining(Vm([], [], input, inputPos, bitOffset, 0, 0, [], []));
      if stream && avail < bits {
        return Stop(NeedMoreBytes(ip, Max((SatSub(bits, avail) + 7) / 8, 1)));
      }
      var val := ReadBits(bits);
      WriteSlot(slot, val);
      flow := Goto(ip + 1);
    }

    method ExecReadRest(ip: nat, name: string, slot: nat) returns (flow: Flow)
      modifies this
      ensures var step := Bytecode.ExecReadRest(old(State()), ip, name, slot);
              State() == step.vm && flow == FlowOf(step) && bitOffset == 0 && cfg == old(cfg)
    {
      AlignToByte();
      var before := inputPos;
      WriteSlot(slot, SatSub(|input|, inputPos) % U64_SIZE);
      inputPos := |input|;
      restStarts := restStarts + [(name, before)];
      flow := Goto(ip + 1);
    }

    method ExecJumpIfZero(ip: nat, condSlot: nat, target: nat) returns (flow: Flow)
      modifies this`loopIterations
      ensures var step := Exec(cfg, JumpIfZero(condSlot, target), old(State()), ip, true);
              State() == step.vm && flow == FlowOf(step)
    {
      if condSlot >= |slots| { return Stop(Panic); }
      if slots[condSlot] != 0 { return Goto(ip + 1); }
      if target < ip {
        loopIterations := loopIterations + 1;
        if loopIterations > cfg.limits.maxLoopIterations { return Stop(LoopLimit); }
      }
      flow := Goto(target);
    }

    /** Instructions that only compute on slots. */
    method ExecCompute(instr: Instruction, ip: nat, stream: bool) returns (flow: Flow)
      requires IsCompute(instr)
      modifies this`slots, this`slotTouched
      ensures var step := Exec(cfg, instr, old(State()), ip, stream);
              State() == step.vm && flow == FlowOf(step)
    {
      hide EvalBinary, EvalUnary;
      flow := Goto(ip + 1);
      match instr
      case Binary(op, l, r, dst) =>
        if l >= |slots| || r >= |slots| { return Stop(Panic); }
        var val := EvalBinary(cfg.checked, op, slots[l], slots[r]);
        if val.Overflow? { return Stop(Panic); }
        WriteSlot(dst, val.v);
      case Unary(op, src, dst) =>
        if src >= |slots| { return Stop(Panic); }
        WriteSlot(dst, EvalUnary(op, slots[src]));
      case CopySlot(src, dst) =>
        if src >= |slots| { return Stop(Panic); }
        WriteSlot(dst, slots[src]);
      case LoadConst(value, dst) =>
        WriteSlot(dst, value);
      case UpdateOffset(slot) =>
        WriteSlot(slot, inputPos % U64_SIZE);
    }

    predicate IsRead(instr: Instruction)
    {
      || instr.ReadU8? || instr.ReadU16? || instr.ReadU24? || instr.ReadU32?
      || instr.ReadSlice? || instr.ReadBits? || instr.ReadRest?
    }

    method ExecRead(instr: Instruction, ip: nat, stream: bool) returns (flow: Flow)
      requires bitOffset < 8 && IsRead(instr)
      modifies this
      ensures var step := Exec(cfg, instr, old(State()), ip, stream);
              State() == step.vm && flow == FlowOf(step)
      ensures cfg == old(cfg) && bitOffset < 8
    {
      hide ReadFixed, Bytecode.ExecReadSlice, Bytecode.ExecReadBits, Bytecode.ExecReadRest;
      match instr
      case ReadU8(slot) => flow := ExecReadFixed(ip, stream, 1, slot, false);
      case ReadU16(slot, le) => flow := ExecReadFixed(ip, stream, 2, slot, le);
      case ReadU24(slot, le) => flow := ExecReadFixed(ip, stream, 3, slot, le);
      case ReadU32(slot, le) => flow := ExecReadFixed(ip, stream, 4, slot, le);
      case ReadSlice(lenSlot, dst) => flow := ExecReadSlice(ip, stream, lenSlot, dst);
      case ReadBits(bits, slot) => flow := ExecReadBits(ip, stream, bits, slot);
      case ReadRest(name, slot) => flow := ExecReadRest(ip, name, slot);
    }

    predicate IsCompute(instr: Instruction)
    {
      instr.Binary? || instr.Unary? || instr.CopySlot? || instr.LoadConst? || instr.UpdateOffset?
    }

    /** Checks, emissions and control flow. */
    method ExecControl(instr: Instruction, ip: nat, stream: bool) returns (flow: Flow)
      requires !IsRead(instr) && !IsCompute(instr)
      modifies this`emitted, this`loopIterations
      ensures var step := Exec(cfg, instr, old(State()), ip, stream);
              State() == step.vm && flow == FlowOf(step)
    {
      match instr
      case Validate(predSlot, message) =>
        flow := if predSlot >= |slots| then Stop(Panic)
                else if slots[predSlot] == 0 then Stop(Constraint(message))
                else Goto(ip + 1);
      case EmitField(name, slot) =>
        if slot >= |slots| { return Stop(Panic); }
        emitted := emitted + [(name, slots[slot])];
        flow := Goto(ip + 1);
      case Jump(target) => flow := Goto(target);
      case JumpIfZero(condSlot, target) => flow := ExecJumpIfZero(ip, condSlot, target);
      case Return => flow := Stop(Complete);
    }

    method Execute(instr: Instruction, ip: nat, stream: bool) returns (flow: Flow)
      requires bitOffset < 8
      modifies this
      ensures var step := Exec(cfg, instr, old(State()), ip, stream);
              State() == step.vm && flow == FlowOf(step)
      ensures Instructions.Does(cfg, instr, old(State()), ip, stream, StepOf(State(), flow))
      ensures cfg == old(cfg) && bitOffset < 8
    {
      hide Exec, Instructions.Does;
      Instructions.DoesIsExec(cfg, instr, State(), ip, stream, Exec(cfg, instr, State(), ip, stream));
      if IsRead(instr) {
        flow := ExecRead(instr, ip, stream);
      } else if IsCompute(instr) {
        flow := ExecCompute(instr, ip, stream);
      } else {
        flow := ExecControl(instr, ip, stream);
      }
    }

    method Conclude(outcome: Outcome) returns (result: Result)
      ensures result == Report(cfg, State(), outcome)
    {
      match outcome
      case Complete => return Ok(Finished);
      case NeedMoreBytes(ip, needed) =>
        var cont := Snapshot(ip, needed);
        return Ok(Suspended(cont));
      case Constraint(message) => return Err(ConstraintFailed(message));
      case InstructionLimit => return Err(InstructionsExceeded);
      case LoopLimit => return Err(LoopsExceeded);
      case Panic => return Panicked;
    }

    method Interpret(program: seq<Instruction>, startIp: nat, stream: bool) returns (result: Result)
      requires bitOffset < 8
      modifies this
      ensures var (vm, outcome) := Bytecode.Run(cfg, program, old(State()), startIp, stream);
              State() == vm && result == Report(cfg, vm, outcome)
      ensures exists outcome :: Instructions.Executes(cfg, program, old(State()), startIp, stream, State(), outcome)
                                && result == Report(cfg, State(), outcome)
      ensures result.Err? ==> Explained(cfg, program, State(), result.error)
      ensures cfg == old(cfg) && bitOffset < 8
    {
      ErrorsAreExplained(cfg, program, State(), startIp, stream);
      hide Explained;
      hide Bytecode.Exec, Instructions.Executes, Instructions.Does;
      ghost var (end, outcome) := Bytecode.Run(cfg, program, State(), startIp, stream);
      Instructions.ExecutesIsRun(cfg, program, State(), startIp, stream, end, outcome);
      var ip: nat := startIp;
      while ip < |program|
        invariant cfg == old(cfg) && bitOffset < 8
        invariant Bytecode.Run(cfg, program, State(), ip, stream) == Bytecode.Run(cfg, program, old(State()), startIp, stream)
        decreases cfg.limits.maxInstructions + 1 - instructionsExecuted
      {
        if instructionsExecuted > cfg.limits.maxInstructions { return Err(InstructionsExceeded); }
        instructionsExecuted := instructionsExecuted + 1;
        ExecKeepsCount(cfg, program[ip], State(), ip, stream);
        var flow := Execute(program[ip], ip, stream);
        match flow
        case Goto(next) => ip := next;
        case Stop(outcome) =>
          result := Conclude(outcome);
          return;
      }
      result := Ok(Finished);
    }

    /** Datagram mode. */
    method Run(program: seq<Instruction>) returns (result: Result)
      requires bitOffset < 8
      modifies this
      ensures var (vm, outcome) := Bytecode.Run(cfg, program, old(State()).(executed := 0, loops := 0), 0, false);
              State() == vm && result == Report(cfg, vm, outcome)
      ensures cfg == old(cfg) && bitOffset < 8
    {
      instructionsExecuted, loopIterations := 0, 0;
      result := Interpret(program, 0, false);
    }

    method RunStream(program: seq<Instruction>) returns (result: Result)
      requires bitOffset < 8
      modifies this
      ensures var (vm, outcome) := Bytecode.Run(cfg, program, old(State()).(executed := 0, loops := 0), 0, true);
              State() == vm && result == Report(cfg, vm, outcome)
      ensures cfg == old(cfg) && bitOffset < 8
    {
      instructionsExecuted, loopIterations := 0, 0;
      result := Interpret(program, 0, true);
    }

    static method Resume(cont: VmContinuation, program: seq<Instruction>, more: seq<Byte>)
      returns (machine: BytecodeVm, result: Result)
      requires cont.vm.bit < 8
      ensures fresh(machine) && machine.cfg == cont.cfg
      ensures var (vm, outcome) := Bytecode.Run(cont.cfg, program, Append(cont.vm, more), cont.ip, true);
              machine.State() == vm && result == Report(cont.cfg, vm, outcome)
    {
      machine := new BytecodeVm.Restore(cont);
      machine.AppendInput(more);
      result := machine.Interpret(program, cont.ip, true);
    }
  }
}
