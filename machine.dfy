/**
 * The machine as a state-transition system: get_value/write_value
 * (asimr/instruction/utils.py), one handler per opcode
 * (asimr/instruction/instruction.py) and one iteration of Core.run
 * (asimr/core.py): fetch at pc, decode, dispatch, then tc and pc advance.
 * HALT and error() stop the machine; an exception is a Fault.
 */
module Machine {
  import opened Errors
  import opened Bytes
  import opened Text
  import opened Isa
  import opened Devices
  import opened Arith
  import Programs

  datatype MachineState = MachineState(
    regs: Registers,
    data: MemoryState,
    inst: MemoryState,
    stack: StackState,
    output: string)

  /** Running: the next iteration may start. Halted: sys.exit() from HALT or error().
      Fault: an exception escaped the handler. */
  datatype Status = Running | Halted | Fault(error: Error)

  datatype Outcome = Outcome(state: MachineState, status: Status)

  /** An operand value used as an integer; bytes where an integer is expected raise TypeError. */
  function AsInt(c: Cell): (r: Result<int>)
    ensures c.Word? <==> r.Ok?
  {
    match c
    case Word(v) => Ok(v)
    case Code(_) => Err(TypeError)
  }

  /** The operand of a slot the instruction does not have: reading its fields raises. */
  function Need(o: Option<Operand>): (r: Result<Operand>)
    ensures r.Ok? <==> o.Some?
    ensures r.Err? ==> r.error == MissingOperand
  {
    if o.Some? then Ok(o.value) else Err(MissingOperand)
  }

  /** get_value(cpu, operand): the literal, the register or the data-memory cell. */
  function GetValue(m: MachineState, o: Option<Operand>): (r: Result<int>)
    ensures o.None? ==> r == Err(MissingOperand)
    ensures o.Some? && o.value.kind == Number ==> r == Ok(o.value.value)
    ensures o.Some? && o.value.kind == Register ==>
      (r.Ok? <==> 0 <= o.value.value < |m.regs.gpr|) && (r.Ok? ==> r.value == m.regs.gpr[o.value.value])
    ensures o.Some? && o.value.kind == Memory ==>
      (r.Ok? <==> 0 <= o.value.value < |m.data.cells| && m.data.cells[o.value.value].Word?)
    ensures r.Err? ==> r.error in {MissingOperand, RegisterError, MemoryError, TypeError}
  {
    var op :- Need(o);
    match op.kind
    case Number => Ok(op.value)
    case Register => RegGet(m.regs, op.value)
    case Memory =>
      var c :- MemRead(m.data, op.value);
      AsInt(c)
  }

  /** write_value(cpu, type, address, data): nothing happens for an immediate destination. */
  function WriteValue(m: MachineState, kind: OperandType, address: int, d: int): (r: Result<MachineState>)
    ensures kind == Number ==> r == Ok(m)
    ensures kind == Register ==> (r.Ok? <==> 0 <= address < |m.regs.gpr|)
    ensures kind == Memory ==> (r.Ok? <==> 0 <= address < |m.data.cells|)
    ensures r.Err? ==> r.error in {RegisterError, MemoryError}
    ensures r.Ok? ==> r.value.inst == m.inst && r.value.stack == m.stack && r.value.output == m.output
  {
    match kind
    case Register =>
      var regs :- RegSet(m.regs, address, d);
      Ok(m.(regs := regs))
    case Memory =>
      var data :- MemWrite(m.data, address, Word(d));
      Ok(m.(data := data))
    case Number => Ok(m)
  }

  /** error(text): prints "ERROR: text" and exits. */
  function ErrorExit(m: MachineState, text: string): Outcome {
    Outcome(m.(output := m.output + "ERROR: " + text + "\n"), Halted)
  }

  /** A handler that either completes or raises with the state unchanged. */
  function Finish(m: MachineState, r: Result<MachineState>): Outcome {
    match r
    case Ok(m') => Outcome(m', Running)
    case Err(e) => Outcome(m, Fault(e))
  }

  predicate IsBinary(op: Opcode) {
    op.ADD? || op.SUB? || op.MUL? || op.MOD? || op.AND? || op.OR? || op.XOR? || op.SHL? || op.SHR?
  }

  /** target OP source for the nine binary handlers. */
  function Compute(op: Opcode, t: int, s: int): (r: Result<int>)
    requires IsBinary(op)
    ensures r.Err? ==> r.error in {ZeroDivisionError, ValueError}
    ensures r.Err? <==> (op.MOD? && s == 0) || ((op.SHL? || op.SHR?) && s < 0)
  {
    match op
    case ADD => Ok(t + s)
    case SUB => Ok(t - s)
    case MUL => Ok(t * s)
    case MOD => FloorMod(t, s)
    case AND => Ok(Bitwise(And, t, s))
    case OR => Ok(Bitwise(Or, t, s))
    case XOR => Ok(Bitwise(Xor, t, s))
    case SHL => ShiftLeft(t, s)
    case SHR => ShiftRight(t, s)
  }

  /** The handlers that read or write operands other than pc, or print. */
  predicate MovesData(op: Opcode) {
    op.MOV? || op.EXC? || op.POP? || op.NOT? || op.PNC? || op.PAC? || IsBinary(op)
  }

  /** ADD ... SHR: read source, then target, compute, write to the parameter operand. */
  function ExecBinary(m: MachineState, ins: Instruction): Result<MachineState>
    requires IsBinary(ins.opcode)
  {
    var s :- GetValue(m, ins.source);
    var t :- GetValue(m, ins.target);
    var r :- Compute(ins.opcode, t, s);
    var p :- Need(ins.parameter);
    WriteValue(m, p.kind, p.value, r)
  }

  /** NOT: ~source to the target operand. */
  function ExecNot(m: MachineState, ins: Instruction): Result<MachineState> {
    var s :- GetValue(m, ins.source);
    var t :- Need(ins.target);
    WriteValue(m, t.kind, t.value, BitNot(s))
  }

  /** MOV: source value to a register or memory target; an immediate target is error(). */
  function ExecMov(m: MachineState, ins: Instruction): Outcome {
    match GetValue(m, ins.source)
    case Err(e) => Outcome(m, Fault(e))
    case Ok(s) =>
      match Need(ins.target)
      case Err(e) => Outcome(m, Fault(e))
      case Ok(t) =>
        if t.kind.Number? then ErrorExit(m, "Unable to write to immediate")
        else Finish(m, WriteValue(m, t.kind, t.value, s))
  }

  /** EXC: both kinds are read first; an immediate source is error(); otherwise the target
      receives the source's old value and then the source receives the target's old value. */
  function ExecExc(m: MachineState, ins: Instruction): Outcome {
    match Need(ins.source)
    case Err(e) => Outcome(m, Fault(e))
    case Ok(src) =>
      match Need(ins.target)
      case Err(e) => Outcome(m, Fault(e))
      case Ok(tgt) =>
        if src.kind.Number? then ErrorExit(m, "Cannot have an immediate as a swapped object")
        else Finish(m, ExchangeValues(m, src, tgt))
  }

  function ExchangeValues(m: MachineState, src: Operand, tgt: Operand): Result<MachineState> {
    var s :- GetValue(m, Some(src));
    var t :- GetValue(m, Some(tgt));
    var m1 :- WriteValue(m, tgt.kind, tgt.value, s);
    WriteValue(m1, src.kind, src.value, t)
  }

  /** PUSH: the source value onto the stack. */
  function ExecPush(m: MachineState, ins: Instruction): Result<MachineState> {
    var s :- GetValue(m, ins.source);
    var stack :- StackPush(m.stack, s);
    Ok(m.(stack := stack))
  }

  /** POP: the stack is popped first (0 when empty), then the value goes to the source
      operand; a failing write leaves the stack popped. */
  function ExecPop(m: MachineState, ins: Instruction): Outcome {
    var (v, stack) := StackPop(m.stack);
    var m1 := m.(stack := stack);
    match Need(ins.source)
    case Err(e) => Outcome(m1, Fault(e))
    case Ok(src) =>
      match WriteValue(m1, src.kind, src.value, v)
      case Err(e) => Outcome(m1, Fault(e))
      case Ok(m2) => Outcome(m2, Running)
  }

  function SetPc(m: MachineState, pc: int): MachineState {
    m.(regs := m.regs.(pc := pc))
  }

  /** JMP: pc := source value. */
  function ExecJmp(m: MachineState, ins: Instruction): Result<MachineState> {
    var s :- GetValue(m, ins.source);
    Ok(SetPc(m, s))
  }

  /** JZ / JNZ: on source == 0 (resp. != 0), pc := the target operand's literal value. */
  function ExecJumpZero(m: MachineState, ins: Instruction, onZero: bool): Result<MachineState> {
    var s :- GetValue(m, ins.source);
    if (s == 0) == onZero then
      var t :- Need(ins.target);
      Ok(SetPc(m, t.value))
    else Ok(m)
  }

  predicate IsCompareJump(op: Opcode) { op.JE? || op.JG? || op.JB? || op.JNE? }

  function Holds(op: Opcode, s: int, t: int): bool
    requires IsCompareJump(op)
  {
    match op
    case JE => s == t
    case JG => s > t
    case JB => s < t
    case JNE => s != t
  }

  /** JE / JG / JB / JNE: all three operands are read, then pc := parameter value on a match. */
  function ExecCompareJump(m: MachineState, ins: Instruction): Result<MachineState>
    requires IsCompareJump(ins.opcode)
  {
    var s :- GetValue(m, ins.source);
    var t :- GetValue(m, ins.target);
    var a :- GetValue(m, ins.parameter);
    if Holds(ins.opcode, s, t) then Ok(SetPc(m, a)) else Ok(m)
  }

  /** PNC: writes str(source value). */
  function ExecPnc(m: MachineState, ins: Instruction): Result<MachineState> {
    var s :- GetValue(m, ins.source);
    Ok(m.(output := m.output + Decimal(s)))
  }

  /** chr(n) written to a UTF-8 stdout: ValueError outside 0..0x10FFFF, UnicodeEncodeError
      for a surrogate. */
  function Chr(n: int): (r: Result<char>)
    ensures r.Ok? ==> r.value as int == n
  {
    if n < 0 || n > 0x10FFFF then Err(ValueError)
    else if 0xD800 <= n < 0xE000 then Err(UnicodeEncodeError)
    else Ok(n as char)
  }

  /** PAC: writes chr(source value). */
  function ExecPac(m: MachineState, ins: Instruction): Result<MachineState> {
    var s :- GetValue(m, ins.source);
    var c :- Chr(s);
    Ok(m.(output := m.output + [c]))
  }

  /** The handler named after the opcode; CpuError when there is none. */
  function Exec(m: MachineState, ins: Instruction): Outcome {
    if MovesData(ins.opcode) then ExecData(m, ins) else ExecControl(m, ins)
  }

  /** The handlers that move data or print. */
  function ExecData(m: MachineState, ins: Instruction): Outcome
    requires MovesData(ins.opcode)
  {
    match ins.opcode
    case MOV => ExecMov(m, ins)
    case EXC => ExecExc(m, ins)
    case POP => ExecPop(m, ins)
    case NOT => Finish(m, ExecNot(m, ins))
    case PNC => Finish(m, ExecPnc(m, ins))
    case PAC => Finish(m, ExecPac(m, ins))
    case ADD | SUB | MUL | MOD | AND | OR | XOR | SHL | SHR => Finish(m, ExecBinary(m, ins))
  }

  /** PUSH, the jumps, HALT, NOP, and the opcodes without a handler. */
  function ExecControl(m: MachineState, ins: Instruction): Outcome
    requires !MovesData(ins.opcode)
  {
    match ins.opcode
    case CALL | RET | CPUID | MPC | MSR | MTC | SDF | EDF => Outcome(m, Fault(CpuError))
    case HALT => Outcome(m, Halted)
    case NOP => Outcome(m, Running)
    case PUSH => Finish(m, ExecPush(m, ins))
    case JMP => Finish(m, ExecJmp(m, ins))
    case JZ => Finish(m, ExecJumpZero(m, ins, true))
    case JNZ => Finish(m, ExecJumpZero(m, ins, false))
    case JE | JG | JB | JNE => Finish(m, ExecCompareJump(m, ins))
  }

  /** Instruction.unpack of a fetched cell: an integer cell (never written) is HALT. */
  function DecodeCell(c: Cell): Result<Instruction> {
    match c
    case Word(_) => Ok(Instruction(HALT, None, None, None))
    case Code(b) => Unpack(b)
  }

  /** run_ins on a fetched cell. */
  function RunIns(m: MachineState, c: Cell): Outcome {
    match DecodeCell(c)
    case Err(e) => Outcome(m, Fault(e))
    case Ok(ins) => Exec(m, ins)
  }

  /** Exactly the opcodes without a handler make run_ins raise CpuError: those fault with
      the state unchanged, and no handler raises it. */
  lemma NoHandlerFaults(m: MachineState, ins: Instruction)
    ensures !HasHandler(ins.opcode) ==> Exec(m, ins) == Outcome(m, Fault(CpuError))
    ensures HasHandler(ins.opcode) ==> Exec(m, ins).status != Fault(CpuError)
  {
    if MovesData(ins.opcode) {
      DataNeverCpuError(m, ins);
    } else if HasHandler(ins.opcode) {
      ControlNeverCpuError(m, ins);
    }
  }

  lemma DataNeverCpuError(m: MachineState, ins: Instruction)
    requires MovesData(ins.opcode)
    ensures ExecData(m, ins).status != Fault(CpuError)
  {
    match ins.opcode
    case MOV =>
    case EXC =>
      if ins.source.Some? && ins.target.Some? && !ins.source.value.kind.Number? {
        var src, tgt := ins.source.value, ins.target.value;
        var r := ExchangeValues(m, src, tgt);
        if r.Err? && GetValue(m, Some(src)).Ok? && GetValue(m, Some(tgt)).Ok? {
          assert r.error in {RegisterError, MemoryError};
        }
      }
    case POP =>
    case NOT =>
    case PNC =>
    case PAC =>
    case ADD | SUB | MUL | MOD | AND | OR | XOR | SHL | SHR =>
      assert ExecBinary(m, ins).Err? ==>
        ExecBinary(m, ins).error in {MissingOperand, RegisterError, MemoryError, TypeError, ZeroDivisionError, ValueError};
  }

  lemma ControlNeverCpuError(m: MachineState, ins: Instruction)
    requires !MovesData(ins.opcode) && HasHandler(ins.opcode)
    ensures ExecControl(m, ins).status != Fault(CpuError)
  {
  }

  /** One iteration of Core.run: fetch at pc, run it, then tc += 1 and pc += 1. */
  function Step(m: MachineState): Outcome {
    match MemRead(m.inst, m.regs.pc)
    case Err(e) => Outcome(m, Fault(e))
    case Ok(c) =>
      var o := RunIns(m, c);
      if o.status.Running? then
        Outcome(o.state.(regs := o.state.regs.(tc := o.state.regs.tc + 1, pc := o.state.regs.pc + 1)), Running)
      else o
  }

  /** A loop of Core.run over any one-iteration transition, cut off after fuel iterations. */
  function Iterate(step: MachineState -> Outcome, m: MachineState, fuel: nat): Outcome
    decreases fuel, 0
  {
    if fuel == 0 then Outcome(m, Running) else Continue(step, step(m), fuel - 1)
  }

  /** Continue from a step's outcome while it is still running. */
  function Continue(step: MachineState -> Outcome, o: Outcome, fuel: nat): Outcome
    decreases fuel, 1
  {
    if o.status.Running? then Iterate(step, o.state, fuel) else o
  }

  /** Core.run, which never returns by itself, cut off after fuel iterations. */
  function Run(m: MachineState, fuel: nat): Outcome {
    Iterate(Step, m, fuel)
  }

  /** Core.run resumed from a step's outcome. */
  function Resume(o: Outcome, fuel: nat): Outcome {
    Continue(Step, o, fuel)
  }

  /** Writing the program's instructions into instruction memory cells 0, 1, ... */
  function LoadCode(mem: MemoryState, code: seq<bytes>, i: nat): Result<MemoryState>
    decreases |code| - i
  {
    if i >= |code| then Ok(mem)
    else
      var mem' :- MemWrite(mem, i, Code(code[i]));
      LoadCode(mem', code, i + 1)
  }

  /** The runtime's start-up: a strict register file, non-strict memories, an empty stack,
      and the instructions copied into instruction memory. */
  function Boot(p: Programs.ProgramData): Result<MachineState> {
    var inst :- LoadCode(NewMemory(p.instMem, false), p.instructions, 0);
    Ok(MachineState(NewRegisters(p.nGPR, true), NewMemory(p.dataMem, false), inst,
      StackState(p.stackSize, []), []))
  }

  // ---------------------------------------------------------------- properties

  /** Writing the code from index i into a non-strict memory puts instruction j in cell j
      and leaves every other cell; it fails with MemoryError exactly when the code does not
      fit. */
  lemma {:induction false} LoadCodeCells(mem: MemoryState, code: seq<bytes>, i: nat)
    requires !mem.strict && i <= |code|
    ensures LoadCode(mem, code, i).Ok? <==> i == |code| || |code| <= |mem.cells|
    ensures LoadCode(mem, code, i).Err? ==> LoadCode(mem, code, i).error == MemoryError
    ensures LoadCode(mem, code, i).Ok? ==>
      var m := LoadCode(mem, code, i).value;
      && !m.strict && |m.cells| == |mem.cells|
      && forall j :: 0 <= j < |m.cells| ==> m.cells[j] == if i <= j < |code| then Code(code[j]) else mem.cells[j]
    decreases |code| - i
  {
    if i < |code| {
      if 0 <= i < |mem.cells| {
        var mem' := MemWrite(mem, i, Code(code[i])).value;
        assert mem' == mem.(cells := mem.cells[i := Code(code[i])]);
        LoadCodeCells(mem', code, i + 1);
      }
    }
  }

  /** Start-up succeeds exactly when the instructions fit instruction memory; it then gives
      fresh devices, instruction i in cell i and 0 (which decodes as HALT) in every other cell. */
  lemma BootLoads(p: Programs.ProgramData)
    ensures Boot(p).Ok? <==> |p.instructions| <= Max0(p.instMem)
    ensures Boot(p).Ok? ==>
      var m := Boot(p).value;
      && m.regs == NewRegisters(p.nGPR, true) && m.data == NewMemory(p.dataMem, false)
      && m.stack == StackState(p.stackSize, []) && m.output == []
      && |m.inst.cells| == Max0(p.instMem) && !m.inst.strict
      && forall j :: 0 <= j < |m.inst.cells| ==>
           m.inst.cells[j] == if j < |p.instructions| then Code(p.instructions[j]) else Word(0)
  {
    LoadCodeCells(NewMemory(p.instMem, false), p.instructions, 0);
  }

  /** A cell that was never written holds 0 and decodes as HALT: the machine stops there. */
  lemma UnwrittenCellHalts(m: MachineState, v: int)
    requires MemRead(m.inst, m.regs.pc) == Ok(Word(v))
    ensures Step(m) == Outcome(m, Halted)
  {
  }

  /** pc is incremented after every completed instruction, so after JMP to a the next fetch
      is at a + 1. */
  lemma JumpThenFetch(m: MachineState, ins: Instruction, a: int)
    requires MemRead(m.inst, m.regs.pc).Ok? && DecodeCell(MemRead(m.inst, m.regs.pc).value) == Ok(ins)
    requires ins.opcode == JMP && GetValue(m, ins.source) == Ok(a)
    ensures Step(m).status == Running
    ensures Step(m).state == m.(regs := m.regs.(pc := a + 1, tc := m.regs.tc + 1))
  {
  }

  /** JZ jumps to the target operand's literal value: a register target is not read. */
  lemma JzTargetIsLiteral(m: MachineState, src: Operand, tgt: Operand)
    requires GetValue(m, Some(src)) == Ok(0)
    ensures Exec(m, Instruction(JZ, Some(src), Some(tgt), None)) == Outcome(SetPc(m, tgt.value), Running)
  {
  }

  /** JNZ on a non-zero source jumps to the target operand's literal value. */
  lemma JnzTaken(m: MachineState, src: Operand, tgt: Operand, s: int)
    requires GetValue(m, Some(src)) == Ok(s) && s != 0
    ensures Exec(m, Instruction(JNZ, Some(src), Some(tgt), None)) == Outcome(SetPc(m, tgt.value), Running)
  {
  }

  /** A compare jump whose condition holds sets pc to the parameter's value, read
      through its kind (unlike the literal target of JZ and JNZ), and changes nothing else. */
  lemma CompareJumpTaken(m: MachineState, ins: Instruction, s: int, t: int, a: int)
    requires IsCompareJump(ins.opcode)
    requires GetValue(m, ins.source) == Ok(s) && GetValue(m, ins.target) == Ok(t)
    requires GetValue(m, ins.parameter) == Ok(a)
    requires Holds(ins.opcode, s, t)
    ensures Exec(m, ins) == Outcome(SetPc(m, a), Running)
  {
  }

  /** PAC writes the character whose code is the source value, and raises with the state
      unchanged when chr() or the UTF-8 stdout refuses it. */
  lemma PacPrintsChar(m: MachineState, src: Operand, v: int)
    requires GetValue(m, Some(src)) == Ok(v)
    ensures Chr(v).Ok? ==>
      Exec(m, Instruction(PAC, Some(src), None, None)) == Outcome(m.(output := m.output + [v as char]), Running)
    ensures Chr(v).Err? ==>
      Exec(m, Instruction(PAC, Some(src), None, None)) == Outcome(m, Fault(Chr(v).error))
  {
  }

  /** A conditional jump whose condition fails changes nothing. */
  lemma CompareJumpNotTaken(m: MachineState, ins: Instruction, s: int, t: int, a: int)
    requires IsCompareJump(ins.opcode)
    requires GetValue(m, ins.source) == Ok(s) && GetValue(m, ins.target) == Ok(t)
    requires GetValue(m, ins.parameter) == Ok(a)
    requires !Holds(ins.opcode, s, t)
    ensures Exec(m, ins) == Outcome(m, Running)
  {
  }

  /** MOD by zero raises. */
  lemma ModByZero(m: MachineState, ins: Instruction)
    requires ins.opcode == MOD && GetValue(m, ins.source) == Ok(0) && GetValue(m, ins.target).Ok?
    ensures Exec(m, ins) == Outcome(m, Fault(ZeroDivisionError))
  {
  }

  /** A binary handler with a register parameter stores the (masked) result there and
      changes nothing else. */
  lemma BinaryToRegister(m: MachineState, ins: Instruction, s: int, t: int, r: int)
    requires IsBinary(ins.opcode)
    requires GetValue(m, ins.source) == Ok(s) && GetValue(m, ins.target) == Ok(t)
    requires Compute(ins.opcode, t, s) == Ok(r)
    requires ins.parameter.Some? && ins.parameter.value.kind == Register
    requires 0 <= ins.parameter.value.value < |m.regs.gpr|
    ensures var p := ins.parameter.value.value;
      Exec(m, ins) == Outcome(m.(regs := m.regs.(gpr := m.regs.gpr[p := if m.regs.strict then Mask8(r) else r])), Running)
  {
  }

  /** A write to an immediate destination is silently dropped. */
  lemma BinaryToNumber(m: MachineState, ins: Instruction, s: int, t: int, r: int)
    requires IsBinary(ins.opcode)
    requires GetValue(m, ins.source) == Ok(s) && GetValue(m, ins.target) == Ok(t)
    requires Compute(ins.opcode, t, s) == Ok(r)
    requires ins.parameter.Some? && ins.parameter.value.kind == Number
    ensures Exec(m, ins) == Outcome(m, Running)
  {
  }

  /** A binary handler with a memory parameter stores the (masked) result in that data cell
      and changes nothing else. */
  lemma BinaryToMemory(m: MachineState, ins: Instruction, s: int, t: int, r: int)
    requires IsBinary(ins.opcode)
    requires GetValue(m, ins.source) == Ok(s) && GetValue(m, ins.target) == Ok(t)
    requires Compute(ins.opcode, t, s) == Ok(r)
    requires ins.parameter.Some? && ins.parameter.value.kind == Memory
    requires 0 <= ins.parameter.value.value < |m.data.cells|
    ensures var p := ins.parameter.value.value;
      Exec(m, ins) == Outcome(m.(data := m.data.(cells := m.data.cells[p := Word(if m.data.strict then Mask8(r) else r)])), Running)
  {
  }

  /** MOV copies the source value into a register or a data-memory cell (masked when that
      device is strict) and changes nothing else; an out-of-range destination raises; an
      immediate destination is error("Unable to write to immediate"). */
  lemma MovStores(m: MachineState, ins: Instruction, s: int)
    requires ins.opcode == MOV && GetValue(m, ins.source) == Ok(s) && ins.target.Some?
    ensures var t := ins.target.value;
      && (t.kind == Register && 0 <= t.value < |m.regs.gpr| ==>
            Exec(m, ins) == Outcome(m.(regs := m.regs.(gpr := m.regs.gpr[t.value := if m.regs.strict then Mask8(s) else s])), Running))
      && (t.kind == Register && !(0 <= t.value < |m.regs.gpr|) ==> Exec(m, ins) == Outcome(m, Fault(RegisterError)))
      && (t.kind == Memory && 0 <= t.value < |m.data.cells| ==>
            Exec(m, ins) == Outcome(m.(data := m.data.(cells := m.data.cells[t.value := Word(if m.data.strict then Mask8(s) else s)])), Running))
      && (t.kind == Memory && !(0 <= t.value < |m.data.cells|) ==> Exec(m, ins) == Outcome(m, Fault(MemoryError)))
      && (t.kind == Number ==>
            Exec(m, ins) == Outcome(m.(output := m.output + "ERROR: Unable to write to immediate\n"), Halted))
  {
    assert Exec(m, ins) == ExecMov(m, ins);
    var t := ins.target.value;
    match t.kind
    case Register =>
      assert ExecMov(m, ins) == Finish(m, WriteValue(m, Register, t.value, s));
    case Memory =>
      assert ExecMov(m, ins) == Finish(m, WriteValue(m, Memory, t.value, s));
    case Number =>
      assert ExecMov(m, ins) == ErrorExit(m, "Unable to write to immediate");
  }

  /** NOT stores ~v = -v - 1 of the source value v into a register or a data-memory cell
      (masked when that device is strict) and changes nothing else; an immediate
      destination is silently dropped. */
  lemma NotWrites(m: MachineState, ins: Instruction, s: int)
    requires ins.opcode == NOT && GetValue(m, ins.source) == Ok(s) && ins.target.Some?
    ensures var t := ins.target.value;
      && (t.kind == Register && 0 <= t.value < |m.regs.gpr| ==>
            Exec(m, ins) == Outcome(m.(regs := m.regs.(gpr := m.regs.gpr[t.value := if m.regs.strict then Mask8(-s - 1) else -s - 1])), Running))
      && (t.kind == Memory && 0 <= t.value < |m.data.cells| ==>
            Exec(m, ins) == Outcome(m.(data := m.data.(cells := m.data.cells[t.value := Word(if m.data.strict then Mask8(-s - 1) else -s - 1)])), Running))
      && (t.kind == Number ==> Exec(m, ins) == Outcome(m, Running))
  {
  }

  /** EXC of two distinct registers swaps their contents (they hold bytes already). */
  lemma ExcSwapsRegisters(m: MachineState, i: int, j: int)
    requires HoldsBytes(m.regs)
    requires 0 <= i < |m.regs.gpr| && 0 <= j < |m.regs.gpr| && i != j
    ensures var o := Exec(m, Instruction(EXC, Some(Operand(i, Register)), Some(Operand(j, Register)), None));
      && o.status == Running
      && o.state == m.(regs := m.regs.(gpr := m.regs.gpr[i := m.regs.gpr[j]][j := m.regs.gpr[i]]))
  {
    var g := m.regs.gpr;
    var a, b := g[i], g[j];
    assert (if m.regs.strict then Mask8(a) else a) == a;
    assert (if m.regs.strict then Mask8(b) else b) == b;
  }

  /** PUSH then POP into a register restores the pushed value (if it fits the register). */
  lemma PushPopRegister(m: MachineState, src: Operand, n: int, v: int)
    requires GetValue(m, Some(src)) == Ok(v) && !Full(m.stack)
    requires 0 <= n < |m.regs.gpr|
    ensures var o := Exec(m, Instruction(PUSH, Some(src), None, None));
      && o.status == Running
      && Exec(o.state, Instruction(POP, Some(Operand(n, Register)), None, None)).state
         == m.(regs := m.regs.(gpr := m.regs.gpr[n := if m.regs.strict then Mask8(v) else v]))
  {
    PopPush(m.stack, v);
  }

  /** PNC writes the decimal text of the value, which int() reads back. */
  lemma PncPrintsDecimal(m: MachineState, src: Operand, v: int)
    requires GetValue(m, Some(src)) == Ok(v)
    ensures var o := Exec(m, Instruction(PNC, Some(src), None, None));
      && o.status == Running
      && o.state.output == m.output + Decimal(v)
      && ParseInt(o.state.output[|m.output|..]) == Ok(v)
  {
    var o := Exec(m, Instruction(PNC, Some(src), None, None));
    assert o.state.output[|m.output|..] == Decimal(v);
    DecimalRoundTrip(v);
  }

  /** What a step leaves alone: sizes, modes, capacity; the output only grows. */
  predicate Conforms(m: MachineState, m': MachineState) {
    && |m'.regs.gpr| == |m.regs.gpr| && m'.regs.strict == m.regs.strict
    && |m'.data.cells| == |m.data.cells| && m'.data.strict == m.data.strict
    && m'.inst == m.inst
    && m'.stack.capacity == m.stack.capacity
    && |m.output| <= |m'.output| && m'.output[..|m.output|] == m.output
  }

  lemma ConformsTrans(a: MachineState, b: MachineState, c: MachineState)
    requires Conforms(a, b) && Conforms(b, c)
    ensures Conforms(a, c)
  {
    assert c.output[..|a.output|] == c.output[..|b.output|][..|a.output|];
  }

  lemma WriteValueConforms(m: MachineState, kind: OperandType, address: int, d: int)
    requires WriteValue(m, kind, address, d).Ok?
    ensures Conforms(m, WriteValue(m, kind, address, d).value)
    ensures HoldsBytes(m.regs) ==> HoldsBytes(WriteValue(m, kind, address, d).value.regs)
  {
    if kind == Register && HoldsBytes(m.regs) {
      RegSetHoldsBytes(m.regs, address, d);
    }
  }

  lemma FinishConforms(m: MachineState, r: Result<MachineState>)
    requires r.Ok? ==> Conforms(m, r.value) && (HoldsBytes(m.regs) ==> HoldsBytes(r.value.regs))
    ensures Conforms(m, Finish(m, r).state)
    ensures HoldsBytes(m.regs) ==> HoldsBytes(Finish(m, r).state.regs)
  {
  }

  lemma OutputConforms(m: MachineState, extra: string)
    ensures Conforms(m, m.(output := m.output + extra))
  {
    assert (m.output + extra)[..|m.output|] == m.output;
  }

  /** The common shape of the facts each handler keeps. */
  predicate Keeps(m: MachineState, o: Outcome) {
    Conforms(m, o.state) && (HoldsBytes(m.regs) ==> HoldsBytes(o.state.regs))
  }

  /** Every handler keeps the machine's shape and keeps strict registers holding bytes. */
  lemma ExecConforms(m: MachineState, ins: Instruction)
    ensures Keeps(m, Exec(m, ins))
  {
    if MovesData(ins.opcode) {
      DataConforms(m, ins);
    } else {
      ControlConforms(m, ins);
    }
  }

  lemma DataConforms(m: MachineState, ins: Instruction)
    requires MovesData(ins.opcode)
    ensures Keeps(m, ExecData(m, ins))
  {
    assert m.output[..|m.output|] == m.output;
    match ins.opcode
    case MOV => MovConforms(m, ins);
    case EXC => ExcConforms(m, ins);
    case POP => PopConforms(m, ins);
    case NOT => NotConforms(m, ins);
    case PNC => PncConforms(m, ins);
    case PAC => PacConforms(m, ins);
    case ADD | SUB | MUL | MOD | AND | OR | XOR | SHL | SHR => BinaryConforms(m, ins);
  }

  /** PUSH, the jumps, HALT, NOP and the opcodes without a handler touch at most the
      stack and pc. */
  lemma ControlConforms(m: MachineState, ins: Instruction)
    requires !MovesData(ins.opcode)
    ensures Keeps(m, ExecControl(m, ins))
  {
    assert m.output[..|m.output|] == m.output;
  }

  lemma MovConforms(m: MachineState, ins: Instruction)
    ensures Keeps(m, ExecMov(m, ins))
  {
    assert m.output[..|m.output|] == m.output;
    if GetValue(m, ins.source).Ok? && ins.target.Some? {
      var t := ins.target.value;
      var text := "Unable to write to immediate";
      if t.kind.Number? {
        OutputConforms(m, "ERROR: " + text + "\n");
        assert ExecMov(m, ins).state == m.(output := m.output + ("ERROR: " + text + "\n"));
      } else if WriteValue(m, t.kind, t.value, GetValue(m, ins.source).value).Ok? {
        WriteValueConforms(m, t.kind, t.value, GetValue(m, ins.source).value);
      }
    }
  }

  lemma ExcConforms(m: MachineState, ins: Instruction)
    ensures Keeps(m, ExecExc(m, ins))
  {
    assert m.output[..|m.output|] == m.output;
    if ins.source.Some? && ins.target.Some? {
      var src, tgt := ins.source.value, ins.target.value;
      var text := "Cannot have an immediate as a swapped object";
      if src.kind.Number? {
        OutputConforms(m, "ERROR: " + text + "\n");
        assert ExecExc(m, ins).state == m.(output := m.output + ("ERROR: " + text + "\n"));
      } else {
        ExchangeConforms(m, src, tgt);
      }
    }
  }

  lemma PopConforms(m: MachineState, ins: Instruction)
    ensures Keeps(m, ExecPop(m, ins))
  {
    assert m.output[..|m.output|] == m.output;
    var (v, stack) := StackPop(m.stack);
    var m1 := m.(stack := stack);
    assert Conforms(m, m1);
    if ins.source.Some? && WriteValue(m1, ins.source.value.kind, ins.source.value.value, v).Ok? {
      WriteValueConforms(m1, ins.source.value.kind, ins.source.value.value, v);
      ConformsTrans(m, m1, ExecPop(m, ins).state);
    }
  }

  lemma NotConforms(m: MachineState, ins: Instruction)
    ensures Keeps(m, Finish(m, ExecNot(m, ins)))
  {
    assert m.output[..|m.output|] == m.output;
    var r := ExecNot(m, ins);
    if r.Ok? {
      WriteValueConforms(m, ins.target.value.kind, ins.target.value.value, BitNot(GetValue(m, ins.source).value));
    }
    FinishConforms(m, r);
  }

  lemma PncConforms(m: MachineState, ins: Instruction)
    ensures Keeps(m, Finish(m, ExecPnc(m, ins)))
  {
    assert m.output[..|m.output|] == m.output;
    if GetValue(m, ins.source).Ok? {
      OutputConforms(m, Decimal(GetValue(m, ins.source).value));
    }
  }

  lemma PacConforms(m: MachineState, ins: Instruction)
    ensures Keeps(m, Finish(m, ExecPac(m, ins)))
  {
    assert m.output[..|m.output|] == m.output;
    var r := ExecPac(m, ins);
    if r.Ok? {
      OutputConforms(m, [Chr(GetValue(m, ins.source).value).value]);
    }
  }

  lemma BinaryConforms(m: MachineState, ins: Instruction)
    requires IsBinary(ins.opcode)
    ensures Keeps(m, Finish(m, ExecBinary(m, ins)))
  {
    assert m.output[..|m.output|] == m.output;
    var r := ExecBinary(m, ins);
    if r.Ok? {
      var s := GetValue(m, ins.source).value;
      var t := GetValue(m, ins.target).value;
      WriteValueConforms(m, ins.parameter.value.kind, ins.parameter.value.value, Compute(ins.opcode, t, s).value);
    }
    FinishConforms(m, r);
  }

  lemma ExchangeConforms(m: MachineState, src: Operand, tgt: Operand)
    ensures var r := ExchangeValues(m, src, tgt);
      r.Ok? ==> Conforms(m, r.value) && (HoldsBytes(m.regs) ==> HoldsBytes(r.value.regs))
  {
    var r := ExchangeValues(m, src, tgt);
    if r.Ok? {
      var s := GetValue(m, Some(src)).value;
      var t := GetValue(m, Some(tgt)).value;
      WriteValueConforms(m, tgt.kind, tgt.value, s);
      var m1 := WriteValue(m, tgt.kind, tgt.value, s).value;
      WriteValueConforms(m1, src.kind, src.value, t);
      ConformsTrans(m, m1, r.value);
    }
  }

  /** Every step keeps the machine's shape, keeps strict registers holding bytes, and only
      appends to the output. */
  lemma StepConforms(m: MachineState)
    ensures Conforms(m, Step(m).state)
    ensures HoldsBytes(m.regs) ==> HoldsBytes(Step(m).state.regs)
  {
    assert m.output[..|m.output|] == m.output;
    if MemRead(m.inst, m.regs.pc).Ok? {
      var c := MemRead(m.inst, m.regs.pc).value;
      if DecodeCell(c).Ok? {
        ExecConforms(m, DecodeCell(c).value);
      }
    }
  }

  /** A transition whose every step keeps the machine's shape keeps it over any run. */
  lemma {:induction false} IterateKeeps(step: MachineState -> Outcome, m: MachineState, fuel: nat)
    requires forall m' :: Keeps(m', step(m'))
    ensures Keeps(m, Iterate(step, m, fuel))
    decreases fuel
  {
    assert m.output[..|m.output|] == m.output;
    if fuel > 0 {
      var o := step(m);
      if o.status.Running? {
        IterateKeeps(step, o.state, fuel - 1);
        ConformsTrans(m, o.state, Iterate(step, o.state, fuel - 1).state);
      }
    }
  }

  /** Any run keeps the machine's shape, keeps strict registers holding bytes, and only
      appends to the output. */
  lemma RunConforms(m: MachineState, fuel: nat)
    ensures Conforms(m, Run(m, fuel).state)
    ensures HoldsBytes(m.regs) ==> HoldsBytes(Run(m, fuel).state.regs)
  {
    forall m' ensures Keeps(m', Step(m')) {
      StepConforms(m');
    }
    IterateKeeps(Step, m, fuel);
  }

  /** Once the machine has stopped, more fuel changes nothing (for Step and any other
      transition). */
  lemma {:induction false} RunStopped(step: MachineState -> Outcome, m: MachineState, fuel: nat, more: nat)
    requires !Iterate(step, m, fuel).status.Running?
    ensures Iterate(step, m, fuel + more) == Iterate(step, m, fuel)
    decreases fuel
  {
    if fuel > 0 {
      var o := step(m);
      if o.status.Running? {
        RunStopped(step, o.state, fuel - 1, more);
      }
    }
  }

  /** Running a + b steps is running a steps, then b more from where they left off. */
  lemma {:induction false} RunSplit(step: MachineState -> Outcome, m: MachineState, a: nat, b: nat)
    ensures Iterate(step, m, a + b) == Continue(step, Iterate(step, m, a), b)
    decreases a
  {
    if a > 0 {
      var o := step(m);
      assert Iterate(step, m, a + b) == Continue(step, o, a - 1 + b);
      if o.status.Running? {
        RunSplit(step, o.state, a - 1, b);
      }
    }
  }
}
