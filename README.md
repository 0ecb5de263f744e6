# ASIM in Dafny

ASIM is a small virtual machine with its own assembly language. This project models
its two halves and proves properties of each:

- the runtime (`asimr`): the instruction set and its variable-length encoding of at most 16 bytes
  (`Instruction.pack`/`unpack`); the devices, i.e. a register file masked to bytes in
  strict mode, a bounds-checked memory and a bounded LIFO stack that yields 0 when
  empty; the handler of every opcode; the `Core.run` fetch/execute loop; and the
  `Program` container with its `+` merge and its `dumps`/`load` binary image;
- the assembler (`asimc`): `CodeParser`, which parses one line at a time into labels,
  directives and packed instructions and memoises packed lines in an `LRUCache(128)`;
  the `LRUCache` and `lru_cache` of `asimc/cache.py`; and `Parser`, which cuts the
  source into contiguous partitions (`divide_list`), assembles each with a fresh
  `CodeParser` and folds the partial programs together in partition order.

Values that the source keeps in objects and updates in place are Dafny classes:
`Register`, `Memory`, `Stack`, `Core`, `Program`, `LRUCache`, `CodeParser` and `Parser`.
Their methods are proved against pure functions on datatypes (`Registers`,
`MemoryState`, `StackState`, `MachineState`, `ProgramData`, `ParserState`). The
properties are proved about those functions. Python built-ins the core relies on
are modelled where their behaviour matters:

- `int()` and `int(x, 16)`, including signs, whitespace and underscores;
- `str.split`, `str.strip` and `str.upper`;
- `int.to_bytes` and `int.from_bytes`;
- UTF-8 `encode`/`decode`;
- insertion-ordered `dict`;
- floored `%` and `>>`, and the bitwise operators on unbounded two's-complement
  integers.

Exceptions are `Err` values of one `Error` datatype. `sys.exit()` is the `Halted`
status. Text written to standard output is a `string` field of the machine.

The model follows the code as written, including where it departs from what its
tests and the assembly examples evidently expect:

- the assembler rejects a reference to a label defined at instruction index 0, as
  `if n:` in `parsern_operand` does (see Findings; `Assembler.IntendedOperand` is the
  corrected operand parser, which the assembler does not use);
- every directive formats its argument into a log message before acting, so a
  directive without an argument raises `IndexError`, `.include_file` included;
- `unpack` reads every slot whose first byte offset is at or before the end of the buffer, so a
  packed instruction with fewer than three operands comes back with a zero operand
  in the next slot.

The multi-worker assembler keeps each partition's labels as indices local to that
partition. A later partition without directives resets the four size fields to
their defaults. Both follow from the code as written and are stated as lemmas
(`Programs.MergeLabels`, `Programs.MergeDefaultRight`).

## Model

| member | source | states |
|---|---|---|
| Isa.OpcodeValue | asimr/constant.py:7-46 | each opcode's number is below 33 and decodes back to the same opcode (`auto()` numbering from 0 in declaration order) |
| Isa.OpcodeOf | asimr/constant.py:7-46 | `InstructionSet(n)` succeeds exactly for 0 <= n < 33 and raises ValueError otherwise |
| Isa.OpcodeNamedName | asimr/constant.py:7-46 | every opcode is found under its own member name |
| Isa.NamesDistinct | asimr/constant.py:7-46 | no two opcodes share a member name |
| Isa.KindOf | asimr/constant.py:49-52 | `OperandType(n)` succeeds exactly for 0, 1 and 2, is the inverse of the kind's value, and raises ValueError otherwise |
| Isa.Pack | asimr/core.py:29-69 | the definition of `pack`; its properties are stated by PackLayout, PackSlots, EncodeOperandsAt and UnpackPack |
| Isa.PackInt | asimr/core.py:66-67 | the definition of `pack(to_int=True)`, the packed bytes read as a little-endian integer; stated by UnpackIntPackInt and FilledPack |
| Isa.Unpack | asimr/core.py:71-109 | the definition of `unpack`; its properties are stated by UnpackLayout, UnpackPack, UnpackIgnoresTrailing, UnpackEmpty, UnpackBadOpcode and UnpackBadKind |
| Isa.UnpackInt | asimr/core.py:73-74 | the definition of `unpack(from_int=True)`, the integer's 16 little-endian bytes unpacked; stated by UnpackIntOf and UnpackIntPackInt |
| Isa.PackOperandOk | asimr/core.py:31-64 | one operand slot packs when absent or when its value fits 4 unsigned bytes, and is then the 5-byte slot |
| Isa.PackLayout | asimr/core.py:29-69 | pack succeeds exactly when every present operand fits; the result is the opcode byte followed by one 5-byte slot per present operand, so it is 1 + 5c bytes long |
| Isa.PackSlots | asimr/core.py:29-69 | the packed bytes are the opcode byte, then the source, target and parameter slots, an absent operand contributing nothing |
| Isa.EncodeOperandsAt | asimr/core.py:31-64 | slot k of the encoding holds the k-th present operand's kind byte and little-endian value |
| Isa.UnpackLayout | asimr/core.py:71-109 | unpack of an opcode byte followed by c encoded operands yields those operands in their slots, a zero operand in the slot starting at the end of the buffer, and nothing after it |
| Isa.UnpackPack | asimr/core.py:29-109 | unpack(pack(i)) is the instruction with its present operands moved to the front and the next slot zero |
| Isa.UnpackPackFull | test/test_pack.py:5-26 | with all three operands present and in range, unpack(pack(i)) == i |
| Isa.UnpackPackTwo | asimr/core.py:84-107 | a two-operand instruction round-trips with a zero parameter added |
| Isa.UnpackPackOne | asimr/core.py:84-107 | a one-operand instruction round-trips with a zero target added |
| Isa.UnpackIgnoresTrailing | test/test_pack.py:53-73 | unpack reads nothing beyond byte 15, so trailing bytes are ignored |
| Isa.UnpackEmpty | asimr/core.py:79-109 | an empty buffer decodes as MOV with no operands |
| Isa.UnpackBadOpcode | asimr/core.py:79 | an opcode byte of 33 or more raises ValueError |
| Isa.UnpackBadKind | asimr/core.py:84-106 | a kind byte of 3 or more in any slot read raises |
| Isa.UnpackIntPackInt | test/test_pack.py:29-50 | unpack(pack(i, to_int=True), from_int=True) reads all three slots of the zero-padded 16 bytes |
| Isa.UnpackIntOf | asimr/core.py:73-74 | from_int unpacking is unpacking the 16 little-endian bytes of the integer |
| Isa.FilledPack | asimr/core.py:66-74 | padding a packing with zeros to 16 bytes gives the packing of the instruction with all slots filled |
| Bytes.ToBytes | asimr/core.py:30-59 | `int.to_bytes(n, "little")` succeeds exactly for 0 <= v < 256^n and gives n bytes |
| Bytes.FromLEOfLE | asimr/constant.py:109-113 | reading back the little-endian bytes of a value that fits gives the value |
| Bytes.LEOfFromLE | asimr/constant.py:140-148 | re-encoding a decoded byte string gives the same bytes |
| Bytes.ToBytesRoundTrip | asimr/constant.py:109-113 | to_bytes then from_bytes is the identity on every value that fits |
| Bytes.FromLEZeroPad | asimr/core.py:73-74 | trailing zero bytes do not change a little-endian value |
| Bytes.ToBytesPadded | asimr/core.py:67-74 | to_bytes(16) of a value decoded from a shorter buffer is that buffer padded with zeros |
| Bytes.Slice | asimr/constant.py:137-173 | Python slicing clamps both bounds to the buffer and keeps the elements in order |
| Text.Strip | asimc/parser.py:195 | `str.strip()` yields an infix with no whitespace at either end |
| Text.StripLeft | asimc/parser.py:195 | the leading whitespace removed, and only whitespace |
| Text.StripRight | asimc/parser.py:195 | the trailing whitespace removed, and only whitespace |
| Text.Split | asimc/parser.py:33 | `s.split(sep)` yields at least one field and no field contains the separator |
| Text.SplitJoin | asimc/parser.py:33 | splitting loses nothing: joining the fields with the separator gives the text back |
| Text.Before | asimc/parser.py:166 | `line.split(";")[0]` is the text before the first `;`, which contains none |
| Text.Upper | asimc/parser.py:65 | `name.upper()` maps exactly the ASCII lower-case letters to upper case |
| Text.ParseInt | asimc/parser.py:77 | `int(text)` raises only ValueError |
| Text.ParseHex | asimc/parser.py:121 | `int(text, 16)` raises only ValueError |
| Text.Decimal | asimr/instruction/instruction.py:13 | `str(n)` is non-empty text with no surrounding whitespace |
| Text.DecimalRoundTrip | asimr/instruction/instruction.py:10-13 | int(str(n)) == n for every integer |
| Utf8.DecodeEncodeChar | asimr/constant.py:117-118 | the decoder reads back exactly the bytes the encoder wrote for one character |
| Utf8.DecodeEncode | asimr/constant.py:117-165 | decoding the UTF-8 encoding of a string gives the string back |
| Utf8.Decode | asimr/constant.py:155 | `bytes.decode()` fails only with UnicodeDecodeError |
| OrderedDicts.Get | asimc/parser.py:152 | `d.get(k)` finds a value exactly when the key is present |
| OrderedDicts.SetGet | asimc/parser.py:182 | after `d[k] = v`, k maps to v, every other key keeps its value and the keys stay distinct |
| OrderedDicts.RemoveGet | asimc/cache.py:15 | after `d.pop(k)`, k is gone and every other key keeps its value |
| OrderedDicts.UpdateAllGet | asimr/constant.py:98 | after `d.update(e)`, a key of e maps to e's value and every other key keeps d's |
| OrderedDicts.UpdateAllAssociative | asimr/constant.py:98 | `dict.update` is associative on dicts with distinct keys |
| OrderedDicts.UpdateAllEmpty | asimr/constant.py:150-159 | assigning distinct keys one by one into an empty dict rebuilds the same dict |
| Arith.FloorMod | asimr/instruction/instruction.py:102 | `t % s` raises ZeroDivisionError exactly for s == 0 and otherwise has the sign of s |
| Arith.FloorDivMod | asimr/instruction/instruction.py:102 | t == (t // s) * s + t % s, as Python guarantees |
| Arith.ShiftLeft | asimr/instruction/instruction.py:175 | `t << s` raises ValueError exactly for a negative count |
| Arith.ShiftRight | asimr/instruction/instruction.py:188 | `t >> s` raises ValueError exactly for a negative count |
| Arith.ShiftRightLeft | asimr/instruction/instruction.py:175-188 | shifting right undoes shifting left |
| Arith.ShiftRightOne | asimr/instruction/instruction.py:188 | `t >> 1` halves with floor rounding for every sign |
| Arith.AndLowBits | asimr/device.py:16 | masking with 2^k - 1 keeps the k low bits, so `data & 0xFF` is data mod 256 for every integer |
| Arith.XorInvolution | asimr/instruction/instruction.py:162 | x ^ y ^ y == x |
| Arith.XorSelf | asimr/instruction/instruction.py:162 | x ^ x == 0 |
| Arith.BitwiseCommutes | asimr/instruction/instruction.py:125-162 | `&`, `\|` and `^` are symmetric |
| Arith.AndBounded | asimr/instruction/instruction.py:125 | AND with a non-negative value is non-negative and no larger than it |
| Devices.Mask8 | asimr/device.py:16 | `data & 0xFF` is a byte congruent to data mod 256, and the identity on bytes |
| Devices.NewRegisters | asimr/device.py:6-11 | pc, sr, tc and every general-purpose register start at 0; there are n_GPR of them, none for a negative count |
| Devices.RegGet | asimr/device.py:21-25 | `get(n)` succeeds exactly for 0 <= n < n_GPR and raises otherwise |
| Devices.RegSet | asimr/device.py:13-19 | `set(n, data)` succeeds exactly for 0 <= n < n_GPR and raises otherwise |
| Devices.RegSetGet | asimr/device.py:13-25 | a set is seen by the next get of the same register (masked when strict); no other register changes, nor pc, sr or tc |
| Devices.RegSetHoldsBytes | asimr/device.py:15-17 | in strict mode every register always holds a byte |
| Devices.Register.constructor | asimr/device.py:6-11 | `Register(n_GPR, struct)` is the initial register file |
| Devices.Register.Get | asimr/device.py:21-25 | the object's get is RegGet on its state |
| Devices.Register.Set | asimr/device.py:13-19 | the object's set updates it as RegSet does, and leaves it unchanged on error |
| Devices.NewMemory | asimr/device.py:38-41 | `Memory(size)` has size cells holding 0 |
| Devices.MemRead | asimr/device.py:43-47 | `read(a)` succeeds exactly for 0 <= a < size and raises MemoryError otherwise |
| Devices.MemWrite | asimr/device.py:49-55 | `write(a, d)` raises MemoryError outside 0 <= a < size |
| Devices.MemWriteRead | asimr/device.py:43-55 | a write is read back (masked when strict); no other cell changes, nor the size |
| Devices.MemWriteOk | asimr/device.py:49-53 | a non-strict memory stores anything at a valid address; a strict one stores only integers |
| Devices.Memory.constructor | asimr/device.py:38-41 | the object starts as NewMemory |
| Devices.Memory.Read | asimr/device.py:43-47 | the object's read is MemRead on its state |
| Devices.Memory.Write | asimr/device.py:49-55 | the object's write updates it as MemWrite does, and leaves it unchanged on error |
| Devices.StackPush | asimr/device.py:67-70 | push raises StackOverflow exactly when the stack is full (a maxsize of 0 or less never fills) and otherwise adds one item |
| Devices.StackPop | asimr/device.py:72-76 | pop of an empty stack yields 0 and leaves it empty; otherwise it removes one item |
| Devices.PopPush | asimr/device.py:67-76 | a pop undoes the push before it |
| Devices.PushBounded | asimr/device.py:67-70 | a bounded stack never holds more than its capacity |
| Devices.PopAll | test/test_device.py:49-54 | values pushed come back in reverse order |
| Devices.Stack.constructor | asimr/device.py:64-65 | `Stack(size)` is an empty stack of that capacity |
| Devices.Stack.Push | asimr/device.py:67-70 | the object's push updates it as StackPush does, and leaves it unchanged on overflow |
| Devices.Stack.Pop | asimr/device.py:72-76 | the object's pop yields and leaves what StackPop gives |
| Machine.GetValue | asimr/instruction/utils.py:4-10 | an immediate is its literal; a register or memory operand reads the register or data cell and succeeds exactly when the index is in range (and the cell holds an integer); a missing operand raises; the only errors are the devices' range errors, TypeError and the missing operand |
| Machine.WriteValue | asimr/instruction/utils.py:13-17 | a write to an immediate changes nothing; a register or memory write succeeds exactly when the index is in range, fails only with the device's range error, and leaves instruction memory, the stack and the output alone |
| Machine.Compute | asimr/instruction/instruction.py:57-191 | the binary operation of ADD ... SHR fails exactly for MOD by zero (ZeroDivisionError) and a negative shift count (ValueError) |
| Machine.ErrorExit | asimr/constant.py:183-185 | the definition of `error(text)`: "ERROR: text" and a newline are printed and the machine halts; stated by MovStores |
| Machine.ExecMov | asimr/instruction/instruction.py:21-31 | the definition of the MOV handler; stated by MovStores |
| Machine.ExecExc | asimr/instruction/instruction.py:38-54 | the definition of the EXC handler; stated by ExcSwapsRegisters |
| Machine.ExecBinary | asimr/instruction/instruction.py:57-191 | the definition of the nine binary handlers; stated by BinaryToRegister, BinaryToMemory, BinaryToNumber and ModByZero |
| Machine.ExecNot | asimr/instruction/instruction.py:144-152 | the definition of the NOT handler; stated by NotWrites |
| Machine.ExecPush | asimr/instruction/instruction.py:108-110 | the definition of the PUSH handler; stated by PushPopRegister |
| Machine.ExecPop | asimr/instruction/instruction.py:113-115 | the definition of the POP handler; stated by PushPopRegister |
| Machine.ExecJmp | asimr/instruction/instruction.py:194-197 | the definition of the JMP handler; stated by JumpThenFetch |
| Machine.ExecJumpZero | asimr/instruction/instruction.py:199-207 | the definition of the JZ and JNZ handlers; stated by JzTargetIsLiteral and JnzTaken |
| Machine.ExecCompareJump | asimr/instruction/instruction.py:209-249 | the definition of the JE, JG, JB and JNE handlers; stated by CompareJumpTaken and CompareJumpNotTaken |
| Machine.ExecPnc | asimr/instruction/instruction.py:10-13 | the definition of the PNC handler; stated by PncPrintsDecimal |
| Machine.ExecPac | asimr/instruction/instruction.py:16-18 | the definition of the PAC handler; stated by PacPrintsChar |
| Machine.Exec | asimr/core.py:127-134 | the definition of the dispatch of run_ins to the handler named after the opcode; stated by NoHandlerFaults and ExecConforms |
| Machine.ExecData | asimr/instruction/instruction.py:10-191 | the definition of the dispatch to the handlers that move data or print; stated by ExecConforms |
| Machine.ExecControl | asimr/instruction/instruction.py:6-249 | the definition of the dispatch to PUSH, the jumps, HALT, NOP and the opcodes without a handler; stated by NoHandlerFaults and ExecConforms |
| Machine.DecodeCell | asimr/core.py:71-77 | the definition of `unpack` of a fetched cell: an integer cell is HALT; stated by UnwrittenCellHalts |
| Machine.RunIns | asimr/core.py:127-134 | the definition of run_ins on a fetched cell: decode, then dispatch; stated by UnwrittenCellHalts |
| Machine.Step | asimr/core.py:136-140 | the definition of one iteration of run: fetch at pc, run_ins, then tc and pc go up by one; stated by JumpThenFetch, UnwrittenCellHalts and StepConforms |
| Machine.Run | asimr/core.py:136-140 | the definition of run cut off after fuel iterations; stated by RunConforms, RunStopped and RunSplit |
| Machine.LoadCode | asimr/__main__.py:21-22 | the definition of the loop writing instruction i into instruction-memory cell i; stated by LoadCodeCells and Cpu.Core.LoadProgram |
| Machine.Boot | asimr/__main__.py:15-22 | the definition of the runtime's start-up: a strict register file, non-strict memories, an empty stack and the loaded instructions; stated by BootLoads |
| Machine.LoadCodeCells | asimr/__main__.py:21-22 | writing the instructions from index i puts instruction j in cell j and keeps every other cell, failing with MemoryError exactly when they do not fit |
| Machine.BootLoads | asimr/__main__.py:15-22 | start-up succeeds exactly when the instructions fit; it gives fresh devices, instruction i in cell i and 0 in every other cell |
| Machine.AsInt | asimr/instruction/utils.py:4-10 | an operand value is an integer unless it is packed code, which raises TypeError in arithmetic |
| Machine.Need | asimr/instruction/instruction.py:22-24 | reading the fields of a missing operand raises |
| Machine.Chr | asimr/instruction/instruction.py:18 | `chr(n)` written to stdout is the character with code n |
| Machine.NoHandlerFaults | asimr/core.py:127-134 | exactly the opcodes without a handler function make run_ins raise CPUError, with the state unchanged; no handler raises CPUError |
| Machine.JnzTaken | asimr/instruction/instruction.py:199-202 | JNZ on a non-zero source jumps to the target operand's literal value |
| Machine.CompareJumpTaken | asimr/instruction/instruction.py:209-249 | a compare jump whose condition holds sets pc to the parameter's dereferenced value and changes nothing else |
| Machine.PacPrintsChar | asimr/instruction/instruction.py:16-18 | PAC appends the character whose code is the source value, or raises with the state unchanged when chr() or the UTF-8 output refuses it |
| Machine.UnwrittenCellHalts | asimr/core.py:71-77 | an instruction-memory cell never written holds 0 and decodes as HALT, so the machine stops there |
| Machine.JumpThenFetch | asimr/core.py:136-140 | after JMP to a, pc is a + 1 (run increments pc after every instruction) and tc went up by one |
| Machine.JzTargetIsLiteral | asimr/instruction/instruction.py:204-207 | JZ jumps to the target operand's literal value and does not read a register target |
| Machine.CompareJumpNotTaken | asimr/instruction/instruction.py:209-249 | a conditional jump whose condition fails changes nothing |
| Machine.ModByZero | asimr/instruction/instruction.py:95-105 | MOD by zero raises ZeroDivisionError with the state unchanged |
| Machine.BinaryToRegister | asimr/instruction/instruction.py:57-191 | a binary handler with a register parameter stores the (masked) result there and changes nothing else |
| Machine.BinaryToMemory | asimr/instruction/instruction.py:57-191 | a binary handler with a memory parameter stores the (masked) result in that data cell and changes nothing else |
| Machine.MovStores | asimr/instruction/instruction.py:21-31 | MOV stores the source value in a register or memory target and changes nothing else; an out-of-range target raises; an immediate target prints the error text and exits |
| Machine.NotWrites | asimr/instruction/instruction.py:144-152 | NOT stores -s-1 of the source value s in a register or memory target and changes nothing else; an immediate target is dropped |
| Machine.BinaryToNumber | asimr/instruction/utils.py:13-17 | a write to an immediate destination is silently dropped |
| Machine.ExcSwapsRegisters | asimr/instruction/instruction.py:38-54 | EXC of two distinct registers swaps their contents |
| Machine.PushPopRegister | asimr/instruction/instruction.py:108-115 | PUSH then POP into a register restores the pushed value, masked to the register |
| Machine.PncPrintsDecimal | asimr/instruction/instruction.py:10-13 | PNC writes the decimal text of the value, which `int()` reads back |
| Machine.ExecConforms | asimr/instruction/instruction.py:6-249 | every handler keeps the sizes, modes and stack capacity, keeps strict registers holding bytes, and only appends to the output |
| Machine.StepConforms | asimr/core.py:136-140 | one iteration of run keeps the machine's shape and keeps strict registers holding bytes |
| Machine.RunConforms | asimr/core.py:136-140 | any run keeps the machine's shape and keeps strict registers holding bytes, and the output only grows |
| Machine.RunStopped | asimr/core.py:136-140 | once the machine has stopped, more iterations change nothing |
| Machine.RunSplit | asimr/core.py:136-140 | running a + b iterations is running a, then b more from where they stopped |
| Cpu.Core.constructor | asimr/core.py:118-125 | `Core(...)` holds the given devices, with empty output |
| Cpu.Core.WriteValue | asimr/instruction/utils.py:13-17 | `write_value` updates the registers or data memory as the machine's WriteValue does; on error nothing changes |
| Cpu.Core.Binary | asimr/instruction/instruction.py:57-191 | ADD, SUB, MUL, MOD, AND, OR, XOR, SHL and SHR in place have the effect ExecBinary describes |
| Cpu.Core.Not | asimr/instruction/instruction.py:144-152 | NOT in place has the effect ExecNot describes |
| Cpu.Core.Error | asimr/constant.py:183-185 | `error(text)` prints "ERROR: text" and exits |
| Cpu.Core.Mov | asimr/instruction/instruction.py:21-31 | MOV in place has the effect ExecMov describes |
| Cpu.Core.Exc | asimr/instruction/instruction.py:38-54 | EXC in place has the effect ExecExc describes |
| Cpu.Core.Push | asimr/instruction/instruction.py:108-110 | PUSH in place has the effect ExecPush describes |
| Cpu.Core.Pop | asimr/instruction/instruction.py:113-115 | POP in place has the effect ExecPop describes |
| Cpu.Core.Jmp | asimr/instruction/instruction.py:194-197 | JMP in place has the effect ExecJmp describes |
| Cpu.Core.JumpZero | asimr/instruction/instruction.py:199-207 | JZ and JNZ in place have the effect ExecJumpZero describes |
| Cpu.Core.CompareJump | asimr/instruction/instruction.py:209-249 | JE, JG, JB and JNE in place have the effect ExecCompareJump describes |
| Cpu.Core.Pnc | asimr/instruction/instruction.py:10-13 | PNC in place has the effect ExecPnc describes |
| Cpu.Core.Pac | asimr/instruction/instruction.py:16-18 | PAC in place has the effect ExecPac describes |
| Cpu.Core.RunIns | asimr/core.py:127-134 | run_ins in place decodes the cell and dispatches as the machine's RunIns does |
| Cpu.Core.RunData | asimr/instruction/instruction.py:10-191 | the data-moving and printing handlers in place have the effect ExecData describes |
| Cpu.Core.RunControl | asimr/instruction/instruction.py:6-249 | HALT, NOP, the jumps and the opcodes without a handler have the effect ExecControl describes |
| Cpu.Core.Step | asimr/core.py:137-140 | one iteration of the run loop in place has the effect the machine's Step describes |
| Cpu.Core.Run | asimr/core.py:136-140 | the run loop in place ends where the machine's Run ends, for the same number of iterations |
| Cpu.Core.LoadProgram | asimr/__main__.py:21-22 | writing instruction i into instruction-memory cell i fills the memory as LoadCode does, or raises its error |
| Cpu.RunOneStep | asimr/core.py:136-140 | a run of k > 0 iterations is one step followed by a run of k - 1 |
| Programs.Merge | asimr/constant.py:89-100 | `p + q` concatenates the instruction lists, takes the sizes from q and keeps p's compilation time |
| Programs.MergeLabels | asimr/constant.py:98 | a label of the merge is q's where q has it and p's otherwise; no index is shifted |
| Programs.MergeUnique | asimr/constant.py:98 | merging keeps label names distinct |
| Programs.MergeAssociative | asimr/constant.py:89-100 | merging is associative, so folding partitions in order is well defined |
| Programs.MergeDefaultLeft | asimr/constant.py:77-100 | a default program is a left identity apart from its compilation time |
| Programs.MergeDefaultRight | asimr/constant.py:77-100 | a default right operand resets the four sizes to their defaults |
| Programs.LoadData | asimr/constant.py:133-176 | load fails only on a bad magic or an undecodable string |
| Programs.ReadLabels | asimr/constant.py:150-159 | the label loop of load fails only on an undecodable name |
| Programs.ReadStrings | asimr/constant.py:160-166 | the include loop of load fails only on an undecodable name |
| Programs.LoadTables | asimr/constant.py:150-174 | the table part of load fails only on an undecodable string |
| Programs.ReadLabelsOf | asimr/constant.py:115-119 | reading the label records dumps wrote assigns every entry in order |
| Programs.ReadStringsOf | asimr/constant.py:121-124 | reading the include records dumps wrote gives the file names back in order |
| Programs.ReadChunksOf | asimr/constant.py:126-129 | reading the instruction records dumps wrote gives the instructions back in order |
| Programs.LoadTablesOf | asimr/constant.py:115-129 | loading the three tables dumps wrote gives back the labels, include files and instructions |
| Programs.LoadDumps | asimr/constant.py:102-176 | load(dumps(p)) == p, every field in order, whenever dumps succeeds |
| Programs.LoadBadMagic | asimr/constant.py:137-138 | an image not starting with "ASIM" is rejected |
| Programs.Program.constructor | asimr/constant.py:77-86 | `Program()` has the default sizes, empty lists and the given compilation time |
| Programs.Program.Add | asimr/constant.py:89-100 | `self + other` updates self in place to Merge of the old values and returns self |
| Programs.Program.Dumps | asimr/constant.py:102-131 | the buffer built field by field is the image DumpsData describes, or OverflowError |
| Programs.Program.Load | asimr/constant.py:133-176 | load fills a fresh program with LoadData's fields, or fails with its error |
| Programs.DumpLabels | asimr/constant.py:115-119 | the label loop of dumps appends the count and one record per entry, or raises OverflowError exactly when a field does not fit |
| Programs.DumpEntry | asimr/constant.py:117-119 | one label record is its key length, UTF-8 key and u32 index, or OverflowError |
| Programs.DumpStrings | asimr/constant.py:121-124 | the include loop of dumps appends the count and one record per file, or OverflowError |
| Programs.DumpChunks | asimr/constant.py:126-129 | the instruction loop of dumps appends the count and one record per instruction, or OverflowError |
| Programs.LoadTablesFrom | asimr/constant.py:150-174 | the table loops of load compute what LoadTables describes |
| Programs.LoadLabels | asimr/constant.py:150-159 | the label loop of load computes what ReadLabels describes |
| Programs.LoadStrings | asimr/constant.py:160-166 | the include loop of load computes what ReadStrings describes |
| Programs.LoadChunks | asimr/constant.py:168-174 | the instruction loop of load computes what ReadChunks describes |
| Programs.DumpsData | asimr/constant.py:102-131 | the definition of the `dumps` image: OverflowError when a number does not fit its field, else the header and the three tables; stated by LoadDumps and DumpsLayout |
| Programs.DumpsLayout | asimr/constant.py:106-131 | the header followed by the three tables is the image DumpsData describes |
| Lru.Lookup | asimc/cache.py:11-19 | get finds what the dictionary holds for the key, and a miss changes nothing |
| Lru.Insert | asimc/cache.py:21-27 | put fails exactly when the key is new, the cache is empty and the capacity is at most 0 (popitem on an empty dict), with KeyError |
| Lru.LookupHit | asimc/cache.py:13-19 | a hit returns the stored value and moves the key to the most recent end, keeping every other entry in order |
| Lru.InsertGet | asimc/cache.py:21-27 | after put, k maps to v as the most recent entry and every other key keeps its value unless it was the least recently used one, evicted |
| Lru.InsertBounded | asimc/cache.py:21-27 | replacing a key or evicting keeps the size, so with capacity at least 1 the size never exceeds it |
| Lru.OverflowEvictsOldest | test/test_parser.py:22-30 | with capacity 1, putting 1 then 2 evicts 1 |
| Lru.LRUCache.constructor | asimc/cache.py:6-9 | `LRUCache(capacity)` is empty |
| Lru.LRUCache.Get | asimc/cache.py:11-19 | the object's get returns and leaves what Lookup gives, keeping the keys distinct |
| Lru.LRUCache.Put | asimc/cache.py:21-27 | the object's put leaves what Insert gives, keeping the keys distinct, or raises KeyError with the cache unchanged |
| Lru.CachedCall | asimc/cache.py:34-43 | a wrapped call fails only with KeyError |
| Lru.CachedCallTransparent | asimc/cache.py:30-45 | when the argument text determines the result, the wrapper returns what the function returns and the cache stays coherent |
| Lru.MinusOneRecomputed | asimc/cache.py:39-42 | a result of -1 is never served from the cache, and any other result is a hit on the next call |
| Lru.Memoised.constructor | asimc/cache.py:30-33 | `lru_cache(capacity)(f)` starts with an empty cache of that capacity |
| Lru.Memoised.Call | asimc/cache.py:34-43 | the wrapper returns and stores what CachedCall gives, keeping the cache's keys distinct |
| Assembler.FindInst | asimc/parser.py:64-70 | find_inst returns the opcode named by the upper-cased mnemonic, or GrammarError with the line number |
| Assembler.FindInstNames | asimc/parser.py:64-70 | mnemonics are case-insensitive, every opcode is found under its name, and find_inst succeeds exactly when some opcode has that name |
| Assembler.LabelAsWritten | asimc/parser.py:150-158 | the label lookup as written yields only non-zero indices of defined labels |
| Assembler.LabelValue | asimc/parser.py:150-158 | the intended label lookup succeeds exactly for a defined label and yields its index |
| Assembler.LabelZeroRejected | asimc/parser.py:152-158 | the lookup as written agrees with the intended one except on a label at index 0, which it rejects |
| Assembler.LabelAtStart | asimc/parser.py:152-158 | a label on the first instruction cannot be referenced |
| Assembler.ParseAddress | asimc/parser.py:119-123 | a memory address is read as hex after `0x` and decimal otherwise, raising only ValueError |
| Assembler.ParseOperand | asimc/parser.py:114-161 | a register operand is below n_GPR; a token fails only with ValueError or GrammarError |
| Assembler.Operands | asimc/parser.py:108-163 | the tokens yield at most one operand each; the first error wins |
| Assembler.MakeInstruction | asimc/parser.py:190 | `Instruction(opcode, *operands)` puts the operands in source, target, parameter order |
| Assembler.AssembleInstruction | asimc/parser.py:187-191 | an instruction line packs to at least the opcode byte |
| Assembler.Configure | asimc/parser.py:72-106 | a directive never changes the labels |
| Assembler.ParseLine | asimc/parser.py:165-191 | a line that yields bytes leaves the program as it is, and the bytes are not empty |
| Assembler.RegisterOperand | asimc/parser.py:125-137 | `r_<n>` names register n exactly when n < n_GPR, else GrammarError |
| Assembler.MemoryOperand | asimc/parser.py:117-123 | `&<n>` is memory address n |
| Assembler.NumberOperand | asimc/parser.py:139-141 | a decimal literal is an immediate of that value |
| Assembler.DigitsOperand | asimc/parser.py:139-141 | a token of ASCII digits is the immediate its digits denote |
| Assembler.LabelOperand | asimc/parser.py:150-158 | `#name` is an immediate holding the label's index when the label is defined at a non-zero index, and a GrammarError for an undefined label or a label at index 0 |
| Assembler.IntendedOperand | asimc/parser.py:150-158 | the corrected operand parser: `#name` of any defined label, index 0 included, is an immediate holding its index |
| Assembler.IntendedDiffersAtZero | asimc/parser.py:150-158 | the corrected operand parser agrees with the one as written except on a label at index 0, which only the corrected one accepts |
| Assembler.ExtraTokensIgnored | asimc/parser.py:109-111 | only the three tokens after the mnemonic are read |
| Assembler.SameSlots | asimc/parser.py:187-191 | an instruction line is determined by its mnemonic and the operands its three slots yield |
| Assembler.EmptyTokenUsesSlot | asimc/parser.py:109-115 | an empty token (two spaces in a row) still uses one of the three slots |
| Assembler.CommentLine | asimc/parser.py:166-174 | a whole-line comment changes nothing |
| Assembler.LabelLine | asimc/parser.py:176-182 | `#name` records the instruction count under the stripped name, and fails on a name defined before |
| Assembler.SizeDirective | asimc/parser.py:75-89 | the four size directives set their field to int(argument); further tokens are ignored |
| Assembler.DirectiveErrors | asimc/parser.py:72-100 | an unknown directive is a GrammarError, a known one without argument an IndexError |
| Assembler.Append | asimc/parser.py:210-211 | appending packed bytes keeps the labels and n_GPR |
| Assembler.Feed | asimc/parser.py:194-213 | a blank line changes nothing; any other line, once handled, advances the line counter by one |
| Assembler.Reuse | asimc/parser.py:200-213 | a cache hit advances the line counter by one |
| Assembler.ParseAll | asimc/parser.py:193-213 | the definition of `parser(code)`: every line fed in order, the first error ending the run; stated by ParseAllWellFormed and CacheTransparency.CacheTransparent |
| Assembler.ParseMiss | asimc/parser.py:202-213 | a parsed miss advances the line counter by one |
| Assembler.FreshWellFormed | asimc/parser.py:59-62 | a new CodeParser satisfies the parser invariant |
| Assembler.ParseLineLabels | asimc/parser.py:165-191 | a line keeps labels distinct and within the instruction list, never shortens it and keeps every existing label |
| Assembler.NewLabel | asimc/parser.py:176-182 | a new label records the current instruction count and keeps the others |
| Assembler.FeedWellFormed | asimc/parser.py:194-213 | every iteration keeps the cache within 128 entries of non-empty bytes, and the labels distinct and in range |
| Assembler.HitWellFormed | asimc/parser.py:200-211 | a cache hit keeps the parser invariant |
| Assembler.MissWellFormed | asimc/parser.py:202-213 | a miss keeps the parser invariant |
| Assembler.ParseAllWellFormed | asimc/parser.py:193-213 | a whole run keeps the parser invariant and counts exactly the non-blank lines |
| LineCache.PlainFeed | asimc/parser.py:193-213 | the loop without the cache leaves a blank line alone |
| LineCache.ParseOperandMono | asimc/parser.py:114-161 | an operand that parses keeps its meaning against any program with the same labels and at least as many registers, at any line |
| LineCache.OperandsMono | asimc/parser.py:108-163 | the same holds for a list of operand tokens |
| LineCache.ParseLineMono | asimc/parser.py:187-191 | a packed instruction line packs the same against a program that extends its own |
| LineCache.ParseLineKeepsLabels | asimc/parser.py:165-191 | no line changes or removes an existing label |
| LineCache.ParserLawful | asimc/parser.py:165-191 | parser_l obeys the laws the cache relies on, whatever the .include_zstd loader does |
| LineCache.FeedHit | asimc/parser.py:200-211 | a cache hit appends the cached bytes, which are what the uncached parse produces |
| LineCache.FeedMissPacked | asimc/parser.py:202-213 | a miss on an instruction line parses it, caches the bytes and appends them |
| LineCache.FeedMissOther | asimc/parser.py:202-213 | a miss on a label, directive or comment updates the program and leaves the cache |
| LineCache.FeedMissFails | asimc/parser.py:202-203 | a failing parse fails the cached and the uncached loop alike |
| LineCache.PackedCoherent | asimc/parser.py:205-206 | putting freshly parsed bytes keeps every cache entry equal to what parsing its line gives |
| LineCache.ReuseCoherent | asimc/parser.py:200-211 | a hit keeps every cache entry equal to what parsing its line gives |
| CacheTransparency.FeedAgrees | asimc/parser.py:194-213 | one line fed to the cached and the uncached loop gives the same result, and the cache stays coherent unless n_GPR went down |
| CacheTransparency.CacheTransparent | asimc/parser.py:193-213 | for any lawful line parser, the cached and the uncached loop fail alike or end with the same program and line count, whenever n_GPR never decreases |
| CacheTransparency.CodeParserTransparent | asimc/parser.py:193-213 | CodeParser.parser from a fresh parser: with or without the LRU cache, the same program and line count or the same error, whenever n_GPR never decreases |
| Parsers.CodeParser.constructor | asimc/parser.py:59-62 | `CodeParser()` is at line 0 with a default program and an empty cache of 128 entries |
| Parsers.CodeParser.ParsernOperand | asimc/parser.py:108-163 | the generator yields the operands of the first three tokens, as Operands states |
| Parsers.CodeParser.IncZstd | asimc/parser.py:102-106 | the instructions of the precompiled program are appended; a missing token raises IndexError; a loader error leaves the program unchanged |
| Parsers.CodeParser.ConfigInst | asimc/parser.py:72-100 | an empty token list is ignored; otherwise the program becomes what Configure gives, or is untouched on error |
| Parsers.CodeParser.ParserL | asimc/parser.py:165-191 | parser_l in place yields and leaves what ParseLine gives; on error the program is untouched |
| Parsers.CodeParser.FeedLine | asimc/parser.py:194-213 | one iteration of the loop in place reaches the state Feed describes, or its error |
| Parsers.CodeParser.Miss | asimc/parser.py:202-213 | the miss branch in place reaches the state ParseMiss describes, or its error |
| Parsers.CodeParser.Parse | asimc/parser.py:193-213 | parser(code) in place reaches the state ParseAll describes, or its first error |
| Parsers.YieldOperands | asimc/parser.py:109-163 | the loop over range(0, 3) yields exactly the operands of the first three tokens |
| Parsers.OperandsByClassifier | asimc/parser.py:108-163 | with ParseOperand as the classifier, the loop yields what Operands states |
| Parsers.Divide | asimc/parser.py:17-30 | divide_list fails exactly for zero parts (ZeroDivisionError) and otherwise makes n parts, none for n < 0 |
| Parsers.Parts | asimc/parser.py:21-29 | the loop makes exactly as many parts as asked |
| Parsers.NeededClosed | asimc/parser.py:18-23 | the parts ask for count * k elements plus one for each part below m |
| Parsers.PartsCover | asimc/parser.py:21-29 | parts that ask for exactly the list's length join back to the list, each of its size |
| Parsers.DivideParts | asimc/parser.py:17-30 | for n > 0, exactly n parts that together are the whole list in order; the first len % n hold len / n + 1 elements, the others len / n |
| Parsers.DivideOne | asimc/parser.py:17-30 | one part is the list itself |
| Parsers.HandleAll | asimc/parser.py:43-46 | collecting the futures yields one program per partition |
| Parsers.MergeAll | asimc/parser.py:48-50 | the fold keeps the parser's compilation time and takes the sizes from the last partition |
| Parsers.Assemble | asimc/parser.py:32-50 | parser() with at most zero workers raises ValueError |
| Parsers.HandleAllResults | asimc/parser.py:43-46 | every partition's program in order when all succeed, else the error of the first partition that failed, all earlier ones having succeeded |
| Parsers.HandleAllPrefix | asimc/parser.py:43-46 | a failed prefix of partitions fails the whole run with the same error |
| Parsers.MergeAllInstructions | asimc/parser.py:48-50 | the merged program holds the base's instructions, then each partition's in order |
| Parsers.AssembleParts | asimc/parser.py:32-50 | with at least one worker, min(workers, #lines) contiguous partitions cover all lines; the run succeeds exactly when every partition does and then holds their instructions in order |
| Parsers.SingleWorker | asimc/parser.py:32-55 | with one worker the run is the handler on all lines merged into the parser's program |
| Parsers.Parser.constructor | asimc/parser.py:12-15 | `Parser(code, max_worker)` holds the code, the worker count and a default program |
| Parsers.Parser.DivideList | asimc/parser.py:17-30 | the divide_list loop computes what Divide describes |
| Parsers.Parser.Handler | asimc/parser.py:52-55 | handler runs a fresh CodeParser on the partition and returns its program (as Handle gives) with the index |
| Parsers.Parser.Run | asimc/parser.py:32-50 | parser() in place leaves the program Assemble describes, or raises its error with the program unchanged |

## Left out

- Worker processes: `ProcessPoolExecutor`, `submit` and pickling between processes are not modelled. `Parsers.Parser.Run` takes the worker function as a parameter `handle`. `Parsers.Parser.Handler` is proved against `Handle`, and `Parsers.Handlers` is that function for the real handler. Results come back in submission order, so the `sorted` by index is the identity.
- Parsers.Parser.Run: holds for any worker function; that the workers run `Handler` is stated by `Parsers.SingleWorker` and `Parsers.Handlers`, not by Run's own contract.
- `.include_zstd` decoding (`base64.b85decode`, `zstandard.decompress`, `pickle.loads`) is foreign code. The model takes it as the parameter `precompiled`, a function from the token to the instructions or an error.
- Runtime start-up file I/O and decompression in `asimr/__main__.py` are not modelled. `Machine.Boot` and `Cpu.Core.LoadProgram` start from the loaded `Program` value.
- Logging (`loguru`), the debugging `print(i)` in `parsern_operand` and the `__str__`/`__repr__` methods produce no state the model observes.
- Cpu.Core.Run: `Core.run` never returns by itself; the model stops after `fuel` iterations, and a run still `Running` at that point says nothing about later iterations.
- Machine.Run: bounded by `fuel` iterations for the same reason.
- `sys.exit()` and `sys.stdout.write` are the `Halted` status and the machine's `output` string; the process ending is not modelled.
- The `threading.Lock` of `LRUCache` only matters under concurrency, which the model does not have.
- Error messages and their formatting (`ASIMError.msg`) are not modelled. Only the error kind is kept, plus the line number of a `GrammarError`.
- `str.isdigit()` and `int()` also accept non-ASCII digits. The model accepts only ASCII digits, and `str.upper()` only changes ASCII letters.
- `Program.compilation_time` defaults to the clock reading at module load. It is a parameter `time` of every constructor.
- Programs.Program.Load: `assert magic == b"ASIM"` is `Err(BadMagic)`; under `python -O` the assertion would be skipped, which is not modelled.
- CacheTransparency.CodeParserTransparent: proved only for runs where `n_GPR` never decreases. After `.n_GPR` lowers the register count, a cached line naming a now-invalid register is reused without the range check, so the cache is not transparent there.
- `asimc/__main__.py`, `asimc/translator.py`, `asimc/funcs.py`, `asimc/log.py` and the C++ templates are not part of this model: they are the command line, the Jinja pre-processing and the translator, outside the assembler and runtime core.
- `SyscallTable` and the handler functions `JGE`/`JBE` have no opcode in `InstructionSet`, so `run_ins` can never dispatch to them; they are not modelled.

## Findings

| source | as written | input that shows it | evidently intended | confidence | as-written member | corrected member |
|---|---|---|---|---|---|---|
| asimc/parser.py:152-158 | `if n:` treats a label at instruction index 0 as missing and raises "Label that does not exist" | `#start` on the first line, then `JMP #start` | any defined label, index 0 included, resolves to its index | high (not executed) | Assembler.LabelAsWritten, Assembler.LabelAtStart, Assembler.LabelZeroRejected, Assembler.ParseOperand | Assembler.LabelValue, Assembler.IntendedOperand, Assembler.IntendedDiffersAtZero |
