/**
 * Core (asimr/core.py) over the device objects: the handlers of
 * asimr/instruction/instruction.py as methods that update the register file,
 * data memory, stack and output in place, run_ins, one iteration of run,
 * and run itself bounded by fuel. Every method is proved to have the effect
 * the Machine module describes.
 */
module Cpu {
  import opened Errors
  import opened Bytes
  import opened Text
  import opened Isa
  import opened Devices
  import opened Machine

  class Core {
    const register: Register
    const memory: Memory
    const instructionMemory: Memory
    const stack: Stack
    /** What sys.stdout received. */
    var output: string

    /** The two memories are separate objects. */
    predicate Valid()
      reads this
    {
      memory != instructionMemory
    }

    function State(): MachineState
      reads this, register, memory, instructionMemory, stack
    {
      MachineState(register.Value(), memory.Value(), instructionMemory.Value(), stack.Value(), output)
    }

    constructor (register: Register, dataMem: Memory, instMem: Memory, stack: Stack)
      requires dataMem != instMem
      ensures Valid()
      ensures this.register == register && memory == dataMem && instructionMemory == instMem && this.stack == stack
      ensures State() == MachineState(register.Value(), dataMem.Value(), instMem.Value(), stack.Value(), [])
    {
      this.register := register;
      memory := dataMem;
      instructionMemory := instMem;
      this.stack := stack;
      output := [];
    }

    /** write_value(cpu, type, address, data). */
    method WriteValue(kind: OperandType, address: int, d: int) returns (r: Result<()>)
      requires Valid()
      modifies register, memory
      ensures Machine.WriteValue(old(State()), kind, address, d).Ok? ==>
        r.Ok? && State() == Machine.WriteValue(old(State()), kind, address, d).value
      ensures Machine.WriteValue(old(State()), kind, address, d).Err? ==>
        r == Err(Machine.WriteValue(old(State()), kind, address, d).error) && State() == old(State())
    {
      match kind
      case Register => r := register.Set(address, d);
      case Memory => r := memory.Write(address, Word(d));
      case Number => r := Ok(());
    }

    /** ADD, SUB, MUL, MOD, AND, OR, XOR, SHL, SHR. */
    method Binary(ins: Instruction) returns (status: Status)
      requires Valid() && IsBinary(ins.opcode)
      modifies register, memory
      ensures Outcome(State(), status) == Finish(old(State()), ExecBinary(old(State()), ins))
    {
      var s := GetValue(State(), ins.source);
      if s.Err? {
        return Fault(s.error);
      }
      var t := GetValue(State(), ins.target);
      if t.Err? {
        return Fault(t.error);
      }
      var result := Compute(ins.opcode, t.value, s.value);
      if result.Err? {
        return Fault(result.error);
      }
      if ins.parameter.None? {
        return Fault(MissingOperand);
      }
      var w := WriteValue(ins.parameter.value.kind, ins.parameter.value.value, result.value);
      status := if w.Ok? then Running else Fault(w.error);
    }

    method Not(ins: Instruction) returns (status: Status)
      requires Valid()
      modifies register, memory
      ensures Outcome(State(), status) == Finish(old(State()), ExecNot(old(State()), ins))
    {
      var s := GetValue(State(), ins.source);
      if s.Err? {
        return Fault(s.error);
      }
      if ins.target.None? {
        return Fault(MissingOperand);
      }
      var w := WriteValue(ins.target.value.kind, ins.target.value.value, -s.value - 1);
      status := if w.Ok? then Running else Fault(w.error);
    }

    /** error(text): print, then exit. */
    method Error(text: string) returns (status: Status)
      modifies this
      ensures output == old(output) + "ERROR: " + text + "\n" && status == Halted
    {
      output := output + "ERROR: " + text + "\n";
      status := Halted;
    }

    method Mov(ins: Instruction) returns (status: Status)
      requires Valid()
      modifies this, register, memory
      ensures Outcome(State(), status) == ExecMov(old(State()), ins)
    {
      var s := GetValue(State(), ins.source);
      if s.Err? {
        return Fault(s.error);
      }
      if ins.target.None? {
        return Fault(MissingOperand);
      }
      var target := ins.target.value;
      if target.kind == Register {
        var w := register.Set(target.value, s.value);
        status := if w.Ok? then Running else Fault(w.error);
      } else if target.kind == Memory {
        var w := memory.Write(target.value, Word(s.value));
        status := if w.Ok? then Running else Fault(w.error);
      } else {
        status := Error("Unable to write to immediate");
      }
    }

    method Exc(ins: Instruction) returns (status: Status)
      requires Valid()
      modifies this, register, memory
      ensures Outcome(State(), status) == ExecExc(old(State()), ins)
    {
      if ins.source.None? || ins.target.None? {
        return Fault(MissingOperand);
      }
      var source, target := ins.source.value, ins.target.value;
      if source.kind == Number {
        status := Error("Cannot have an immediate as a swapped object");
        return;
      }
      var s := GetValue(State(), ins.source);
      if s.Err? {
        return Fault(s.error);
      }
      var t := GetValue(State(), ins.target);
      if t.Err? {
        return Fault(t.error);
      }
      var w := WriteValue(target.kind, target.value, s.value);
      if w.Err? {
        return Fault(w.error);
      }
      w := WriteValue(source.kind, source.value, t.value);
      if w.Err? {
        return Fault(w.error);
      }
      status := Running;
    }

    method Push(ins: Instruction) returns (status: Status)
      requires Valid()
      modifies stack
      ensures Outcome(State(), status) == Finish(old(State()), ExecPush(old(State()), ins))
    {
      var s := GetValue(State(), ins.source);
      if s.Err? {
        return Fault(s.error);
      }
      var p := stack.Push(s.value);
      status := if p.Ok? then Running else Fault(p.error);
    }

    method Pop(ins: Instruction) returns (status: Status)
      requires Valid()
      modifies register, memory, stack
      ensures Outcome(State(), status) == ExecPop(old(State()), ins)
    {
      var v := stack.Pop();
      if ins.source.None? {
        return Fault(MissingOperand);
      }
      var w := WriteValue(ins.source.value.kind, ins.source.value.value, v);
      status := if w.Ok? then Running else Fault(w.error);
    }

    method Jmp(ins: Instruction) returns (status: Status)
      requires Valid()
      modifies register
      ensures Outcome(State(), status) == Finish(old(State()), ExecJmp(old(State()), ins))
    {
      var s := GetValue(State(), ins.source);
      if s.Err? {
        return Fault(s.error);
      }
      register.pc := s.value;
      status := Running;
    }

    /** JZ (onZero) and JNZ. */
    method JumpZero(ins: Instruction, onZero: bool) returns (status: Status)
      requires Valid()
      modifies register
      ensures Outcome(State(), status) == Finish(old(State()), ExecJumpZero(old(State()), ins, onZero))
    {
      var s := GetValue(State(), ins.source);
      if s.Err? {
        return Fault(s.error);
      }
      if (s.value == 0) == onZero {
        if ins.target.None? {
          return Fault(MissingOperand);
        }
        register.pc := ins.target.value.value;
      }
      status := Running;
    }

    /** JE, JG, JB, JNE. */
    method CompareJump(ins: Instruction) returns (status: Status)
      requires Valid() && IsCompareJump(ins.opcode)
      modifies register
      ensures Outcome(State(), status) == Finish(old(State()), ExecCompareJump(old(State()), ins))
    {
      var s := GetValue(State(), ins.source);
      if s.Err? {
        return Fault(s.error);
      }
      var t := GetValue(State(), ins.target);
      if t.Err? {
        return Fault(t.error);
      }
      var a := GetValue(State(), ins.parameter);
      if a.Err? {
        return Fault(a.error);
      }
      if Holds(ins.opcode, s.value, t.value) {
        register.pc := a.value;
      }
      status := Running;
    }

    method Pnc(ins: Instruction) returns (status: Status)
      requires Valid()
      modifies this
      ensures Outcome(State(), status) == Finish(old(State()), ExecPnc(old(State()), ins))
    {
      var s := GetValue(State(), ins.source);
      if s.Err? {
        return Fault(s.error);
      }
      output := output + Decimal(s.value);
      status := Running;
    }

    method Pac(ins: Instruction) returns (status: Status)
      requires Valid()
      modifies this
      ensures Outcome(State(), status) == Finish(old(State()), ExecPac(old(State()), ins))
    {
      var s := GetValue(State(), ins.source);
      if s.Err? {
        return Fault(s.error);
      }
      var c := Chr(s.value);
      if c.Err? {
        return Fault(c.error);
      }
      output := output + [c.value];
      status := Running;
    }

    /** run_ins(ins): decode, then call the handler named after the opcode. */
    method RunIns(cell: Cell) returns (status: Status)
      requires Valid()
      modifies this, register, memory, stack
      ensures Outcome(State(), status) == Machine.RunIns(old(State()), cell)
    {
      var decoded := DecodeCell(cell);
      if decoded.Err? {
        return Fault(decoded.error);
      }
      var ins := decoded.value;
      if MovesData(ins.opcode) {
        status := RunData(ins);
      } else {
        status := RunControl(ins);
      }
    }

    /** The handlers that move data or print. */
    method RunData(ins: Instruction) returns (status: Status)
      requires Valid()
      requires MovesData(ins.opcode)
      modifies this, register, memory, stack
      ensures Outcome(State(), status) == ExecData(old(State()), ins)
    {
      match ins.opcode
      case MOV => status := Mov(ins);
      case EXC => status := Exc(ins);
      case POP => status := Pop(ins);
      case NOT => status := Not(ins);
      case PNC => status := Pnc(ins);
      case PAC => status := Pac(ins);
      case ADD | SUB | MUL | MOD | AND | OR | XOR | SHL | SHR => status := Binary(ins);
    }

    /** HALT, NOP, the jumps, and the opcodes without a handler. */
    method RunControl(ins: Instruction) returns (status: Status)
      requires Valid()
      requires !MovesData(ins.opcode)
      modifies this, register, memory, stack
      ensures Outcome(State(), status) == ExecControl(old(State()), ins)
    {
      match ins.opcode
      case HALT => status := Halted;
      case NOP => status := Running;
      case PUSH => status := Push(ins);
      case JMP => status := Jmp(ins);
      case JZ => status := JumpZero(ins, true);
      case JNZ => status := JumpZero(ins, false);
      case JE | JG | JB | JNE => status := CompareJump(ins);
      case CALL | RET | CPUID | MPC | MSR | MTC | SDF | EDF => status := Fault(CpuError);
    }

    /** One iteration of run: fetch at pc, run it, then tc += 1 and pc += 1. */
    method Step() returns (status: Status)
      requires Valid()
      modifies this, register, memory, stack
      ensures Outcome(State(), status) == Machine.Step(old(State()))
    {
      var cell := instructionMemory.Read(register.pc);
      if cell.Err? {
        return Fault(cell.error);
      }
      status := RunIns(cell.value);
      if status.Running? {
        register.tc := register.tc + 1;
        register.pc := register.pc + 1;
      }
    }

    /** One iteration of run inside a run of k steps that ends in goal. */
    method Advance(k: nat, ghost goal: Outcome) returns (status: Status)
      requires Valid() && k > 0 && RunsTo(State(), k, goal)
      modifies this, register, memory, stack
      ensures status.Running? ==> RunsTo(State(), k - 1, goal)
      ensures !status.Running? ==> Outcome(State(), status) == goal
    {
      ghost var before := State();
      status := Step();
      RunOneStep(goal, before, Outcome(State(), status), k);
    }

    /** run(): iterations until HALT, error() or an exception, here at most fuel of them. */
    method Run(fuel: nat) returns (status: Status)
      requires Valid()
      modifies this, register, memory, stack
      ensures Outcome(State(), status) == Machine.Run(old(State()), fuel)
    {
      ghost var goal := Machine.Run(State(), fuel);
      var k := fuel;
      status := Running;
      while k > 0
        invariant Valid()
        invariant status == Running
        invariant RunsTo(State(), k, goal)
      {
        status := Advance(k, goal);
        if !status.Running? {
          return;
        }
        k := k - 1;
      }
    }

    /** The start-up loop writing instruction i into instruction-memory cell i. */
    method LoadProgram(code: seq<bytes>) returns (r: Result<()>)
      requires Valid()
      modifies instructionMemory
      ensures LoadCode(old(instructionMemory.Value()), code, 0).Ok? <==> r.Ok?
      ensures r.Ok? ==> instructionMemory.Value() == LoadCode(old(instructionMemory.Value()), code, 0).value
      ensures r.Err? ==> r.error == LoadCode(old(instructionMemory.Value()), code, 0).error
    {
      var i := 0;
      while i < |code|
        invariant 0 <= i <= |code|
        invariant LoadCode(instructionMemory.Value(), code, i) == LoadCode(old(instructionMemory.Value()), code, 0)
      {
        var w := instructionMemory.Write(i, Code(code[i]));
        if w.Err? {
          return Err(w.error);
        }
        i := i + 1;
      }
      r := Ok(());
    }
  }

  /** Running m for k steps ends in goal. */
  predicate RunsTo(m: MachineState, k: nat, goal: Outcome)
  {
    Machine.Run(m, k) == goal
  }

  /** A run of k > 0 steps from before that takes step o goes on from o. */
  lemma RunOneStep(goal: Outcome, before: MachineState, o: Outcome, k: nat)
    requires k > 0 && RunsTo(before, k, goal) && o == Machine.Step(before)
    ensures o.status.Running? ==> RunsTo(o.state, k - 1, goal)
    ensures !o.status.Running? ==> goal == o
  {
    assert Machine.Run(before, k) == Resume(o, k - 1);
  }
}
