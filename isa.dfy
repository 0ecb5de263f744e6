/**
 * The instruction set (asimr/constant.py InstructionSet, OperandType) and the
 * variable-length instruction encoding of asimr/core.py (Instruction.pack /
 * Instruction.unpack): one opcode byte, then five bytes per PRESENT operand
 * (a kind byte and a 4-byte little-endian value), in source, target,
 * parameter order. Decoding always reads the slots at offsets 1, 6 and 11.
 */
module Isa {
  import opened Errors
  import opened Bytes
  import opened Text

  /** InstructionSet, numbered from 0 in declaration order. */
  datatype Opcode =
    | MOV | EXC | ADD | SUB | MUL | MOD | PUSH | POP | AND | OR | XOR | NOT | SHL | SHR
    | CALL | RET | HALT | JMP | JNZ | JZ | JE | JG | JB | JNE | NOP | CPUID
    | MPC | MSR | MTC | SDF | EDF | PNC | PAC

  /** The number of opcodes. */
  const OpcodeCount := 33

  /** The opcode numbered n (n < OpcodeCount), in declaration order. */
  function OpcodeAt(n: nat): Opcode
    requires n < OpcodeCount
  {
    match n
    case 0 => MOV
    case 1 => EXC
    case 2 => ADD
    case 3 => SUB
    case 4 => MUL
    case 5 => MOD
    case 6 => PUSH
    case 7 => POP
    case 8 => AND
    case 9 => OR
    case 10 => XOR
    case 11 => NOT
    case 12 => SHL
    case 13 => SHR
    case 14 => CALL
    case 15 => RET
    case 16 => HALT
    case 17 => JMP
    case 18 => JNZ
    case 19 => JZ
    case 20 => JE
    case 21 => JG
    case 22 => JB
    case 23 => JNE
    case 24 => NOP
    case 25 => CPUID
    case 26 => MPC
    case 27 => MSR
    case 28 => MTC
    case 29 => SDF
    case 30 => EDF
    case 31 => PNC
    case _ => PAC
  }

  /** The opcode's number; decoding it gives the opcode back. */
  function OpcodeValue(op: Opcode): (v: nat)
    ensures v < OpcodeCount && OpcodeAt(v) == op
    ensures OpcodeOf(v) == Ok(op)
  {
    match op
    case MOV => 0 case EXC => 1 case ADD => 2 case SUB => 3 case MUL => 4 case MOD => 5
    case PUSH => 6 case POP => 7 case AND => 8 case OR => 9 case XOR => 10 case NOT => 11
    case SHL => 12 case SHR => 13 case CALL => 14 case RET => 15 case HALT => 16
    case JMP => 17 case JNZ => 18 case JZ => 19 case JE => 20 case JG => 21 case JB => 22
    case JNE => 23 case NOP => 24 case CPUID => 25 case MPC => 26 case MSR => 27
    case MTC => 28 case SDF => 29 case EDF => 30 case PNC => 31 case PAC => 32
  }

  /** InstructionSet(n): ValueError for a number that names no opcode. */
  function OpcodeOf(n: int): (r: Result<Opcode>)
    ensures r.Ok? <==> 0 <= n < OpcodeCount
    ensures r.Err? ==> r.error == ValueError
  {
    if 0 <= n < OpcodeCount then Ok(OpcodeAt(n)) else Err(ValueError)
  }

  /** The enum member's name (InstructionSet.X.name). */
  function Name(op: Opcode): string {
    match op
    case MOV => "MOV" case EXC => "EXC" case ADD => "ADD" case SUB => "SUB" case MUL => "MUL"
    case MOD => "MOD" case PUSH => "PUSH" case POP => "POP" case AND => "AND" case OR => "OR"
    case XOR => "XOR" case NOT => "NOT" case SHL => "SHL" case SHR => "SHR" case CALL => "CALL"
    case RET => "RET" case HALT => "HALT" case JMP => "JMP" case JNZ => "JNZ" case JZ => "JZ"
    case JE => "JE" case JG => "JG" case JB => "JB" case JNE => "JNE" case NOP => "NOP"
    case CPUID => "CPUID" case MPC => "MPC" case MSR => "MSR" case MTC => "MTC" case SDF => "SDF"
    case EDF => "EDF" case PNC => "PNC" case PAC => "PAC"
  }

  /** InstructionSet.__members__ lookup by exact name. */
  function OpcodeNamed(name: string): (r: Option<Opcode>)
    ensures r.Some? ==> Name(r.value) == name
  {
    OpcodeNamedFrom(name, 0)
  }

  function OpcodeNamedFrom(name: string, i: nat): (r: Option<Opcode>)
    requires i <= OpcodeCount
    ensures r.Some? ==> Name(r.value) == name
    ensures r.None? ==> forall j :: i <= j < OpcodeCount ==> Name(OpcodeAt(j)) != name
    decreases OpcodeCount - i
  {
    if i == OpcodeCount then None
    else if Name(OpcodeAt(i)) == name then Some(OpcodeAt(i))
    else OpcodeNamedFrom(name, i + 1)
  }

  /** Every opcode is found under its own name. */
  lemma OpcodeNamedName(op: Opcode)
    ensures OpcodeNamed(Name(op)) == Some(op)
  {
    var r := OpcodeNamed(Name(op));
    assert Name(OpcodeAt(OpcodeValue(op))) == Name(op);
    NamesDistinct(r.value, op);
  }

  /** The first two and the last letter of a name, which tell the opcode names apart. */
  function Initials(s: string): int {
    if |s| < 2 then 0 else (s[0] as int) * 65536 + (s[1] as int) * 256 + (s[|s| - 1] as int)
  }

  /** The opcode with the given initials (as character codes, first letter highest). */
  function WithInitials(k: int): Option<Opcode> {
    match k
    case 0x4D4F56 => Some(MOV) case 0x455843 => Some(EXC) case 0x414444 => Some(ADD)
    case 0x535542 => Some(SUB) case 0x4D554C => Some(MUL) case 0x4D4F44 => Some(MOD)
    case 0x505548 => Some(PUSH) case 0x504F50 => Some(POP) case 0x414E44 => Some(AND)
    case 0x4F5252 => Some(OR) case 0x584F52 => Some(XOR) case 0x4E4F54 => Some(NOT)
    case 0x53484C => Some(SHL) case 0x534852 => Some(SHR) case 0x43414C => Some(CALL)
    case 0x524554 => Some(RET) case 0x484154 => Some(HALT) case 0x4A4D50 => Some(JMP)
    case 0x4A4E5A => Some(JNZ) case 0x4A5A5A => Some(JZ) case 0x4A4545 => Some(JE)
    case 0x4A4747 => Some(JG) case 0x4A4242 => Some(JB) case 0x4A4E45 => Some(JNE)
    case 0x4E4F50 => Some(NOP) case 0x435044 => Some(CPUID) case 0x4D5043 => Some(MPC)
    case 0x4D5352 => Some(MSR) case 0x4D5443 => Some(MTC) case 0x534446 => Some(SDF)
    case 0x454446 => Some(EDF) case 0x504E43 => Some(PNC) case 0x504143 => Some(PAC)
    case _ => None
  }

  lemma InitialsOfName(op: Opcode)
    ensures WithInitials(Initials(Name(op))) == Some(op)
  {
    if op.MOV? || op.EXC? || op.ADD? || op.SUB? || op.MUL? || op.MOD? || op.PUSH? || op.POP? {
      InitialsOfGroup0(op);
    } else if op.AND? || op.OR? || op.XOR? || op.NOT? || op.SHL? || op.SHR? || op.CALL? || op.RET? {
      InitialsOfGroup1(op);
    } else if op.HALT? || op.JMP? || op.JNZ? || op.JZ? || op.JE? || op.JG? || op.JB? || op.JNE? {
      InitialsOfGroup2(op);
    } else {
      InitialsOfGroup3(op);
    }
  }

  lemma InitialsOfGroup0(op: Opcode)
    requires op.MOV? || op.EXC? || op.ADD? || op.SUB? || op.MUL? || op.MOD? || op.PUSH? || op.POP?
    ensures WithInitials(Initials(Name(op))) == Some(op)
  {
  }

  lemma InitialsOfGroup1(op: Opcode)
    requires op.AND? || op.OR? || op.XOR? || op.NOT? || op.SHL? || op.SHR? || op.CALL? || op.RET?
    ensures WithInitials(Initials(Name(op))) == Some(op)
  {
  }

  lemma InitialsOfGroup2(op: Opcode)
    requires op.HALT? || op.JMP? || op.JNZ? || op.JZ? || op.JE? || op.JG? || op.JB? || op.JNE?
    ensures WithInitials(Initials(Name(op))) == Some(op)
  {
  }

  lemma InitialsOfGroup3(op: Opcode)
    requires op.NOP? || op.CPUID? || op.MPC? || op.MSR? || op.MTC? || op.SDF? || op.EDF? || op.PNC? || op.PAC?
    ensures WithInitials(Initials(Name(op))) == Some(op)
  {
  }

  /** No two opcodes share a name. */
  lemma NamesDistinct(a: Opcode, b: Opcode)
    requires Name(a) == Name(b)
    ensures a == b
  {
    InitialsOfName(a);
    InitialsOfName(b);
  }

  /** Opcodes that asimr/instruction/instruction.py implements; the others make the core raise CPUError. */
  predicate HasHandler(op: Opcode) {
    !(op.CALL? || op.RET? || op.CPUID? || op.MPC? || op.MSR? || op.MTC? || op.SDF? || op.EDF?)
  }

  /** OperandType. */
  datatype OperandType = Memory | Register | Number

  function KindValue(k: OperandType): (v: byte)
    ensures v < 3
  {
    match k
    case Memory => 0
    case Register => 1
    case Number => 2
  }

  /** OperandType(n): ValueError for anything but 0, 1, 2. */
  function KindOf(n: int): (r: Result<OperandType>)
    ensures r.Ok? <==> 0 <= n < 3
    ensures r.Ok? ==> KindValue(r.value) == n
    ensures r.Err? ==> r.error == ValueError
  {
    if n == 0 then Ok(Memory) else if n == 1 then Ok(Register) else if n == 2 then Ok(Number)
    else Err(ValueError)
  }

  /** An operand: a register index, a memory address or an immediate, by kind. */
  datatype Operand = Operand(value: int, kind: OperandType)

  /** The operand a missing slot decodes to: kind byte 0 and value 0. */
  const ZeroOperand := Operand(0, Memory)

  datatype Instruction = Instruction(
    opcode: Opcode,
    source: Option<Operand>,
    target: Option<Operand>,
    parameter: Option<Operand>)

  /** The operands that are present, in source, target, parameter order. */
  function Present(i: Instruction): (ops: seq<Operand>)
    ensures |ops| <= 3
  {
    (if i.source.Some? then [i.source.value] else [])
    + (if i.target.Some? then [i.target.value] else [])
    + (if i.parameter.Some? then [i.parameter.value] else [])
  }

  const MaxU32: int := 0x1_0000_0000

  predicate Fits(ops: seq<Operand>) {
    forall k :: 0 <= k < |ops| ==> 0 <= ops[k].value < MaxU32
  }

  /** The five bytes of one present operand. */
  function SlotBytes(o: Operand): (r: bytes)
    requires 0 <= o.value < MaxU32
    ensures |r| == 5
  {
    [KindValue(o.kind)] + LE(o.value, 4)
  }

  function EncodeOperands(ops: seq<Operand>): (r: bytes)
    requires Fits(ops)
    ensures |r| == 5 * |ops|
  {
    if ops == [] then [] else SlotBytes(ops[0]) + EncodeOperands(ops[1..])
  }

  /** The bytes of one optional operand: nothing when absent, OverflowError when out of range. */
  function PackOperand(o: Option<Operand>): (r: Result<bytes>)
  {
    match o
    case None => Ok([])
    case Some(op) =>
      var value :- ToBytes(op.value, 4);
      Ok([KindValue(op.kind)] + value)
  }

  /** Instruction.pack(). */
  function Pack(i: Instruction): (r: Result<bytes>)
  {
    var s :- PackOperand(i.source);
    var t :- PackOperand(i.target);
    var p :- PackOperand(i.parameter);
    Ok([OpcodeValue(i.opcode)] + s + t + p)
  }

  /** Instruction.pack(to_int=True): the packed bytes read as a little-endian integer. */
  function PackInt(i: Instruction): (r: Result<nat>)
  {
    var b :- Pack(i);
    Ok(FromLE(b))
  }

  /** Offset of the kind byte of slot k (0 = source, 1 = target, 2 = parameter). */
  function SlotStart(k: nat): nat { 1 + 5 * k }

  /** The operand unpack reads from slot k, missing bytes counting as zero. */
  function ReadOperand(data: bytes, k: nat): (r: Result<Operand>)
  {
    var kind :- KindOf(FromLE(Slice(data, SlotStart(k), SlotStart(k) + 1)));
    Ok(Operand(FromLE(Slice(data, SlotStart(k) + 1, SlotStart(k) + 5)), kind))
  }

  /** Slot k is read whenever the buffer reaches the slot's first byte offset. */
  function ReadSlot(data: bytes, k: nat): (r: Result<Option<Operand>>)
  {
    if |data| >= SlotStart(k) then
      var o :- ReadOperand(data, k);
      Ok(Some(o))
    else Ok(None)
  }

  /** Instruction.unpack(data) for a bytes buffer. */
  function Unpack(data: bytes): (r: Result<Instruction>)
  {
    var opcode :- OpcodeOf(FromLE(Slice(data, 0, 1)));
    var source :- ReadSlot(data, 0);
    var target :- ReadSlot(data, 1);
    var parameter :- ReadSlot(data, 2);
    Ok(Instruction(opcode, source, target, parameter))
  }

  /** Instruction.unpack(x, from_int=True): x is re-expanded to 16 little-endian bytes first. */
  function UnpackInt(x: int): (r: Result<Instruction>)
  {
    var data :- ToBytes(x, 16);
    Unpack(data)
  }

  // ---------------------------------------------------------------- properties

  lemma PackOperandOk(o: Option<Operand>)
    ensures PackOperand(o).Ok? <==> (o.None? || 0 <= o.value.value < MaxU32)
    ensures PackOperand(o).Ok? ==> PackOperand(o).value == (if o.None? then [] else SlotBytes(o.value))
  {
  }

  /** The slot bytes of an optional operand that fits. */
  function OptionSlot(o: Option<Operand>): bytes
    requires o.Some? ==> 0 <= o.value.value < MaxU32
  {
    if o.None? then [] else SlotBytes(o.value)
  }

  predicate OptionFits(o: Option<Operand>) {
    o.Some? ==> 0 <= o.value.value < MaxU32
  }

  lemma FitsPresent(i: Instruction)
    ensures Fits(Present(i)) <==> OptionFits(i.source) && OptionFits(i.target) && OptionFits(i.parameter)
  {
    var ops := Present(i);
    if Fits(ops) {
      var k := 0;
      if i.source.Some? { assert ops[k] == i.source.value; k := k + 1; }
      if i.target.Some? { assert ops[k] == i.target.value; k := k + 1; }
      if i.parameter.Some? { assert ops[k] == i.parameter.value; }
    }
  }

  lemma EncodePresent(i: Instruction)
    requires Fits(Present(i))
    ensures OptionFits(i.source) && OptionFits(i.target) && OptionFits(i.parameter)
    ensures EncodeOperands(Present(i)) == OptionSlot(i.source) + OptionSlot(i.target) + OptionSlot(i.parameter)
  {
    FitsPresent(i);
    var ops := Present(i);
    EncodeOperandsSlots(ops);
  }

  /** pack's layout: the opcode byte, then one 5-byte slot per present operand in order;
      it fails exactly when a present value is outside 0..2^32-1. */
  lemma PackLayout(i: Instruction)
    ensures Pack(i).Ok? <==> Fits(Present(i))
    ensures Pack(i).Ok? ==> Pack(i).value == [OpcodeValue(i.opcode)] + EncodeOperands(Present(i))
    ensures Pack(i).Ok? ==> |Pack(i).value| == 1 + 5 * |Present(i)|
  {
    PackSlots(i);
    FitsPresent(i);
    if Fits(Present(i)) {
      EncodePresent(i);
      var a, b, c := OptionSlot(i.source), OptionSlot(i.target), OptionSlot(i.parameter);
      assert [OpcodeValue(i.opcode)] + a + b + c == [OpcodeValue(i.opcode)] + (a + b + c);
    }
  }

  /** pack succeeds exactly when every present operand fits, with the slots in order. */
  lemma PackSlots(i: Instruction)
    ensures Pack(i).Ok? <==> OptionFits(i.source) && OptionFits(i.target) && OptionFits(i.parameter)
    ensures Pack(i).Ok? ==>
      Pack(i).value == [OpcodeValue(i.opcode)] + OptionSlot(i.source) + OptionSlot(i.target) + OptionSlot(i.parameter)
  {
    PackOperandOk(i.source);
    PackOperandOk(i.target);
    PackOperandOk(i.parameter);
  }

  /** The concatenated slots, spelt out (there are at most three). */
  lemma EncodeOperandsSlots(ops: seq<Operand>)
    requires Fits(ops) && |ops| <= 3
    ensures EncodeOperands(ops) ==
      if |ops| == 0 then []
      else if |ops| == 1 then SlotBytes(ops[0])
      else if |ops| == 2 then SlotBytes(ops[0]) + SlotBytes(ops[1])
      else SlotBytes(ops[0]) + SlotBytes(ops[1]) + SlotBytes(ops[2])
  {
    if |ops| > 0 {
      assert EncodeOperands(ops) == SlotBytes(ops[0]) + EncodeOperands(ops[1..]);
      if |ops| > 1 {
        assert EncodeOperands(ops[1..]) == SlotBytes(ops[1]) + EncodeOperands(ops[2..]);
        if |ops| > 2 {
          assert EncodeOperands(ops[2..]) == SlotBytes(ops[2]) + EncodeOperands(ops[3..]);
        }
      }
    }
  }

  /** Slot k of an encoding holds the k-th operand's five bytes. */
  lemma {:induction false} EncodeOperandsAt(ops: seq<Operand>, k: nat)
    requires Fits(ops) && k < |ops|
    ensures EncodeOperands(ops)[5 * k..5 * k + 5] == SlotBytes(ops[k])
  {
    if k > 0 {
      EncodeOperandsAt(ops[1..], k - 1);
      assert EncodeOperands(ops) == SlotBytes(ops[0]) + EncodeOperands(ops[1..]);
    }
  }

  /** What unpack reads from a slot that holds a written operand. */
  lemma ReadWrittenSlot(data: bytes, k: nat, o: Operand)
    requires 0 <= o.value < MaxU32
    requires SlotStart(k) + 5 <= |data| && data[SlotStart(k)..SlotStart(k) + 5] == SlotBytes(o)
    ensures ReadOperand(data, k) == Ok(o)
  {
    var s := SlotStart(k);
    assert Slice(data, s, s + 1) == [KindValue(o.kind)];
    assert Slice(data, s + 1, s + 5) == LE(o.value, 4);
    FromLEOfLE(o.value, 4);
    assert FromLE([KindValue(o.kind)]) == KindValue(o.kind);
  }

  /** What unpack reads from a slot that starts exactly at the end of the buffer. */
  lemma ReadSlotAtEnd(data: bytes, k: nat)
    requires SlotStart(k) == |data|
    ensures ReadSlot(data, k) == Ok(Some(ZeroOperand))
  {
    assert Slice(data, SlotStart(k), SlotStart(k) + 1) == [];
    assert Slice(data, SlotStart(k) + 1, SlotStart(k) + 5) == [];
  }

  /** The operand list unpack rebuilds: the present operands, then zero operands. */
  function Padded(i: Instruction): (ops: seq<Operand>)
    ensures |ops| >= 3
  {
    Present(i) + [ZeroOperand, ZeroOperand, ZeroOperand]
  }

  /** unpack(pack(i)) for every packable instruction: with c present operands the buffer is
      1 + 5c bytes long, so slots 0..c are read (slot c, if any, past the end, as a zero
      operand) and later slots are absent. The present operands move to the front. */
  function Repacked(i: Instruction): Instruction {
    var c := |Present(i)|;
    var ops := Padded(i);
    Instruction(i.opcode, Some(ops[0]), if c >= 1 then Some(ops[1]) else None,
      if c >= 2 then Some(ops[2]) else None)
  }

  /** What unpack reads from slot k of an opcode byte followed by encoded operands:
      the operand written there, a zero operand for the slot that starts at the end of
      the buffer, and nothing past it. */
  function SlotValue(ops: seq<Operand>, k: nat): Option<Operand> {
    if k < |ops| then Some(ops[k]) else if k == |ops| then Some(ZeroOperand) else None
  }

  lemma SlotOf(op: Opcode, ops: seq<Operand>, k: nat)
    requires Fits(ops) && |ops| <= 3 && k < 3
    ensures ReadSlot([OpcodeValue(op)] + EncodeOperands(ops), k) == Ok(SlotValue(ops, k))
  {
    var data := [OpcodeValue(op)] + EncodeOperands(ops);
    if k < |ops| {
      assert data[1..] == EncodeOperands(ops);
      EncodeOperandsAt(ops, k);
      SlotWritten(data, ops[k], k);
    } else if k == |ops| {
      ReadSlotAtEnd(data, k);
    }
  }

  lemma SlotWritten(data: bytes, o: Operand, k: nat)
    requires 0 <= o.value < MaxU32 && SlotStart(k) + 5 <= |data|
    requires data[1..][5 * k..5 * k + 5] == SlotBytes(o)
    ensures ReadSlot(data, k) == Ok(Some(o))
  {
    SliceOfTail(data, 5 * k, 5 * k + 5);
    ReadWrittenSlot(data, k, o);
  }

  lemma SliceOfTail<T>(s: seq<T>, i: nat, j: nat)
    requires i <= j && j + 1 <= |s|
    ensures s[1..][i..j] == s[i + 1..j + 1]
  {
  }

  lemma OpcodeByte(op: Opcode, rest: bytes)
    ensures OpcodeOf(FromLE(Slice([OpcodeValue(op)] + rest, 0, 1))) == Ok(op)
  {
    assert Slice([OpcodeValue(op)] + rest, 0, 1) == [OpcodeValue(op)];
    assert FromLE([OpcodeValue(op)]) == OpcodeValue(op);
  }

  /** unpack of an opcode byte followed by at most three encoded operands. */
  lemma UnpackLayout(op: Opcode, ops: seq<Operand>)
    requires Fits(ops) && |ops| <= 3
    ensures Unpack([OpcodeValue(op)] + EncodeOperands(ops)) ==
      Ok(Instruction(op, SlotValue(ops, 0), SlotValue(ops, 1), SlotValue(ops, 2)))
  {
    OpcodeByte(op, EncodeOperands(ops));
    SlotOf(op, ops, 0);
    SlotOf(op, ops, 1);
    SlotOf(op, ops, 2);
  }

  lemma UnpackPack(i: Instruction)
    requires Pack(i).Ok?
    ensures Unpack(Pack(i).value) == Ok(Repacked(i))
  {
    PackLayout(i);
    var ops := Present(i);
    UnpackLayout(i.opcode, ops);
    var ps := Padded(i);
    assert forall k :: 0 <= k < |ops| ==> ps[k] == ops[k];
    assert forall k :: |ops| <= k < 3 ==> ps[k] == ZeroOperand;
  }

  /** The round trip the tests check: with all three operands present (and in range),
      unpack(pack(i)) == i. */
  lemma UnpackPackFull(i: Instruction)
    requires i.source.Some? && i.target.Some? && i.parameter.Some?
    requires Fits(Present(i))
    ensures Pack(i).Ok? && Unpack(Pack(i).value) == Ok(i)
  {
    PackLayout(i);
    UnpackPack(i);
  }

  /** With fewer operands the round trip fails: a two-operand instruction comes back
      with a zero parameter, a one-operand one with a zero target. */
  lemma UnpackPackTwo(op: Opcode, s: Operand, t: Operand)
    requires 0 <= s.value < MaxU32 && 0 <= t.value < MaxU32
    ensures var i := Instruction(op, Some(s), Some(t), None);
      Pack(i).Ok? && Unpack(Pack(i).value) == Ok(Instruction(op, Some(s), Some(t), Some(ZeroOperand)))
  {
    var i := Instruction(op, Some(s), Some(t), None);
    PackLayout(i);
    UnpackPack(i);
  }

  lemma UnpackPackOne(op: Opcode, s: Operand)
    requires 0 <= s.value < MaxU32
    ensures var i := Instruction(op, Some(s), None, None);
      Pack(i).Ok? && Unpack(Pack(i).value) == Ok(Instruction(op, Some(s), Some(ZeroOperand), None))
  {
    var i := Instruction(op, Some(s), None, None);
    PackLayout(i);
    UnpackPack(i);
  }

  /** unpack reads nothing beyond byte 15: trailing bytes are ignored. */
  lemma UnpackIgnoresTrailing(data: bytes, extra: bytes)
    requires |data| >= 16
    ensures Unpack(data + extra) == Unpack(data)
  {
    var d := data + extra;
    forall i: nat, j: nat | i <= j <= 16 ensures Slice(d, i, j) == Slice(data, i, j) {
    }
  }

  /** An empty buffer decodes as a MOV without operands (from_bytes of no bytes is 0). */
  lemma UnpackEmpty()
    ensures Unpack([]) == Ok(Instruction(MOV, None, None, None))
  {
    var empty: bytes := [];
    assert Slice(empty, 0, 1) == [];
  }

  /** unpack rejects an opcode byte that names no opcode. */
  lemma UnpackBadOpcode(data: bytes)
    requires |data| >= 1 && data[0] >= 33
    ensures Unpack(data) == Err(ValueError)
  {
    assert Slice(data, 0, 1) == [data[0]];
    assert FromLE([data[0]]) == data[0];
  }

  /** unpack rejects a kind byte other than 0, 1, 2 in any slot it reads. */
  lemma UnpackBadKind(data: bytes, k: nat)
    requires k < 3 && SlotStart(k) < |data| && data[SlotStart(k)] >= 3
    ensures Unpack(data).Err?
  {
    var s := SlotStart(k);
    assert Slice(data, s, s + 1) == [data[s]];
    assert FromLE([data[s]]) == data[s];
    assert ReadSlot(data, k).Err?;
  }

  /** The integer view: unpack(pack(i, to_int=True), from_int=True) decodes the same bytes
      padded with zeros to 16, so all three slots are read. */
  lemma UnpackIntPackInt(i: Instruction)
    requires Pack(i).Ok?
    ensures PackInt(i).Ok?
    ensures UnpackInt(PackInt(i).value) == Ok(Filled(i))
  {
    PackLayout(i);
    var data := Pack(i).value;
    FilledPack(i);
    var padded := Pack(Filled(i)).value;
    assert padded == data + seq(16 - |data|, _ => 0);
    ToBytesPadded(data, 16);
    UnpackIntOf(FromLE(data), padded);
    UnpackPackFull(Filled(i));
  }

  /** unpack(x, from_int=True) unpacks the 16 bytes to_bytes gives for x. */
  lemma UnpackIntOf(x: int, data: bytes)
    requires ToBytes(x, 16) == Ok(data)
    ensures UnpackInt(x) == Unpack(data)
  {
  }

  /** The instruction with every slot taken from the padded operand list. */
  function Filled(i: Instruction): Instruction {
    var ps := Padded(i);
    Instruction(i.opcode, Some(ps[0]), Some(ps[1]), Some(ps[2]))
  }

  /** Padding a packing with zeros to 16 bytes gives the packing of Filled(i). */
  lemma FilledPack(i: Instruction)
    requires Pack(i).Ok?
    ensures Fits(Present(Filled(i)))
    ensures Pack(Filled(i)).Ok?
    ensures Pack(Filled(i)).value == Pack(i).value + seq(15 - 5 * |Present(i)|, _ => 0)
  {
    PackLayout(i);
    var f := Filled(i);
    var ops := Present(i);
    var ps := Padded(i);
    assert Present(f) == ps[..3];
    FitsPadded(i);
    PackLayout(f);
    EncodePadded(ops);
    assert ps[..3] == (ops + [ZeroOperand, ZeroOperand, ZeroOperand])[..3];
  }

  /** The three slots of an operand list padded with zero operands: its own encoding,
      then zero bytes. */
  lemma EncodePadded(ops: seq<Operand>)
    requires Fits(ops) && |ops| <= 3
    ensures Fits((ops + [ZeroOperand, ZeroOperand, ZeroOperand])[..3])
    ensures EncodeOperands((ops + [ZeroOperand, ZeroOperand, ZeroOperand])[..3]) ==
      EncodeOperands(ops) + seq(15 - 5 * |ops|, _ => 0)
  {
    var zs := seq(3 - |ops|, _ => ZeroOperand);
    PadTake(ops, ZeroOperand);
    EncodeZeros(3 - |ops|);
    EncodeAppend(ops, zs);
  }

  /** Encoding is a homomorphism from operand lists to byte strings. */
  lemma {:induction false} EncodeAppend(a: seq<Operand>, b: seq<Operand>)
    requires Fits(a) && Fits(b)
    ensures Fits(a + b) && EncodeOperands(a + b) == EncodeOperands(a) + EncodeOperands(b)
  {
    FitsAppend(a, b);
    if a != [] {
      FitsAppend(a[1..], b);
      EncodeAppend(a[1..], b);
      assert (a + b)[0] == a[0] && (a + b)[1..] == a[1..] + b;
      var h, t, u := SlotBytes(a[0]), EncodeOperands(a[1..]), EncodeOperands(b);
      assert EncodeOperands(a) == h + t;
      assert EncodeOperands(a + b) == h + (t + u);
      assert h + (t + u) == (h + t) + u;
    } else {
      assert a + b == b;
    }
  }

  /** The first three of a list padded with three copies of z: the list, then copies of z. */
  lemma PadTake<T>(s: seq<T>, z: T)
    requires |s| <= 3
    ensures (s + [z, z, z])[..3] == s + seq(3 - |s|, _ => z)
  {
  }

  lemma FitsAppend(a: seq<Operand>, b: seq<Operand>)
    requires Fits(a) && Fits(b)
    ensures Fits(a + b)
  {
    assert forall k :: 0 <= k < |a + b| ==> (a + b)[k] == if k < |a| then a[k] else b[k - |a|];
  }

  /** n zero operands encode to 5n zero bytes. */
  lemma {:induction false} EncodeZeros(n: nat)
    ensures Fits(seq(n, _ => ZeroOperand))
    ensures EncodeOperands(seq(n, _ => ZeroOperand)) == seq(5 * n, _ => 0)
  {
    if n > 0 {
      EncodeZeros(n - 1);
      ZeroSlot();
      assert seq(n, _ => ZeroOperand)[1..] == seq(n - 1, _ => ZeroOperand);
    }
  }

  lemma FitsPadded(i: Instruction)
    requires Fits(Present(i))
    ensures Fits(Padded(i)[..3])
  {
  }

  lemma ZeroSlot()
    ensures SlotBytes(ZeroOperand) == [0, 0, 0, 0, 0]
  {
    LEOfZero(4);
  }
}
