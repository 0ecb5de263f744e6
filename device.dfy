/**
 * The machine's devices (asimr/device.py): a bounds-checked register file
 * whose writes are masked to 8 bits in strict mode, a bounds-checked memory,
 * and a bounded LIFO stack that yields 0 when empty. Each device is a value
 * type with its operations as functions, and a class whose methods update
 * the device in place and are proved against those functions.
 */
module Devices {
  import opened Errors
  import opened Bytes

  /** A memory cell: the integers the machine computes with, or the packed bytes of an
      instruction that the loader stores in instruction memory. */
  datatype Cell = Word(value: int) | Code(code: bytes)

  /** data & 0xFF: the low byte in two's complement, which is the Euclidean remainder. */
  function Mask8(d: int): (r: int)
    ensures 0 <= r < 256
    ensures 0 <= d < 256 ==> r == d
    ensures (d - r) % 256 == 0
  {
    d % 256
  }

  function Max0(n: int): nat { if n > 0 then n else 0 }

  // ---------------------------------------------------------------- register file

  datatype Registers = Registers(pc: int, sr: int, tc: int, strict: bool, gpr: seq<int>)

  /** Register(n_GPR, struct): pc, sr, tc and every general purpose register start at 0;
      [0] * n is empty for a negative n. */
  function NewRegisters(n: int, strict: bool): (r: Registers)
    ensures r.pc == 0 && r.sr == 0 && r.tc == 0 && r.strict == strict
    ensures |r.gpr| == Max0(n) && forall i :: 0 <= i < |r.gpr| ==> r.gpr[i] == 0
  {
    Registers(0, 0, 0, strict, seq(Max0(n), _ => 0))
  }

  /** Register.get(n): RegisterError outside [0, n_GPR). */
  function RegGet(r: Registers, n: int): (v: Result<int>)
    ensures v.Ok? <==> 0 <= n < |r.gpr|
    ensures v.Err? ==> v.error == RegisterError
  {
    if 0 <= n < |r.gpr| then Ok(r.gpr[n]) else Err(RegisterError)
  }

  /** Register.set(n, data): RegisterError outside [0, n_GPR); stores data & 0xFF when strict. */
  function RegSet(r: Registers, n: int, d: int): (v: Result<Registers>)
    ensures v.Ok? <==> 0 <= n < |r.gpr|
    ensures v.Err? ==> v.error == RegisterError
  {
    if 0 <= n < |r.gpr| then Ok(r.(gpr := r.gpr[n := if r.strict then Mask8(d) else d]))
    else Err(RegisterError)
  }

  /** A set is seen by the next get of the same register (masked when strict); no other
      register and none of pc, sr, tc changes. */
  lemma RegSetGet(r: Registers, n: int, d: int, m: int)
    requires RegSet(r, n, d).Ok?
    ensures var r' := RegSet(r, n, d).value;
      && RegGet(r', n) == Ok(if r.strict then Mask8(d) else d)
      && (m != n ==> RegGet(r', m) == RegGet(r, m))
      && r'.pc == r.pc && r'.sr == r.sr && r'.tc == r.tc && r'.strict == r.strict
      && |r'.gpr| == |r.gpr|
  {
  }

  /** In strict mode every register always holds a byte. */
  predicate HoldsBytes(r: Registers) {
    r.strict ==> forall i :: 0 <= i < |r.gpr| ==> 0 <= r.gpr[i] < 256
  }

  lemma RegSetHoldsBytes(r: Registers, n: int, d: int)
    requires HoldsBytes(r) && RegSet(r, n, d).Ok?
    ensures HoldsBytes(RegSet(r, n, d).value)
  {
  }

  /** The register file of a Register object. */
  class Register {
    var pc: int
    var sr: int
    var tc: int
    const strict: bool
    var gpr: seq<int>

    function Value(): Registers
      reads this
    {
      Registers(pc, sr, tc, strict, gpr)
    }

    constructor (n: int, strict: bool)
      ensures Value() == NewRegisters(n, strict)
    {
      pc := 0;
      sr := 0;
      tc := 0;
      this.strict := strict;
      gpr := seq(Max0(n), _ => 0);
    }

    function Get(n: int): (v: Result<int>)
      reads this
      ensures v == RegGet(Value(), n)
    {
      if 0 <= n < |gpr| then Ok(gpr[n]) else Err(RegisterError)
    }

    method Set(n: int, d: int) returns (r: Result<()>)
      modifies this
      ensures RegSet(old(Value()), n, d).Ok? ==> r.Ok? && Value() == RegSet(old(Value()), n, d).value
      ensures RegSet(old(Value()), n, d).Err? ==> r == Err(RegisterError) && Value() == old(Value())
    {
      if 0 <= n < |gpr| {
        var v := d;
        if strict {
          v := d % 256;
        }
        gpr := gpr[n := v];
        r := Ok(());
      } else {
        r := Err(RegisterError);
      }
    }
  }

  // ---------------------------------------------------------------- memory

  /** A memory: size == len(data), a negative size behaving as an empty memory. */
  datatype MemoryState = MemoryState(strict: bool, cells: seq<Cell>)

  function NewMemory(size: int, strict: bool): (m: MemoryState)
    ensures |m.cells| == Max0(size) && m.strict == strict
    ensures forall a :: 0 <= a < |m.cells| ==> m.cells[a] == Word(0)
  {
    MemoryState(strict, seq(Max0(size), _ => Word(0)))
  }

  /** Memory.read(address): MemoryError unless 0 <= address < size. */
  function MemRead(m: MemoryState, a: int): (r: Result<Cell>)
    ensures r.Ok? <==> 0 <= a < |m.cells|
    ensures r.Err? ==> r.error == MemoryError
  {
    if 0 <= a < |m.cells| then Ok(m.cells[a]) else Err(MemoryError)
  }

  /** The stored form of a written cell: data & 0xFF when strict, which bytes objects do
      not support (TypeError). */
  function Stored(strict: bool, c: Cell): Result<Cell> {
    if !strict then Ok(c)
    else match c
      case Word(v) => Ok(Word(Mask8(v)))
      case Code(_) => Err(TypeError)
  }

  /** Memory.write(address, data). */
  function MemWrite(m: MemoryState, a: int, c: Cell): (r: Result<MemoryState>)
    ensures r.Ok? ==> 0 <= a < |m.cells|
    ensures !(0 <= a < |m.cells|) ==> r == Err(MemoryError)
  {
    if 0 <= a < |m.cells| then
      var s :- Stored(m.strict, c);
      Ok(m.(cells := m.cells[a := s]))
    else Err(MemoryError)
  }

  /** A write is read back (masked when strict); no other cell changes, nor the size. */
  lemma MemWriteRead(m: MemoryState, a: int, c: Cell, b: int)
    requires MemWrite(m, a, c).Ok?
    ensures var m' := MemWrite(m, a, c).value;
      && MemRead(m', a) == Stored(m.strict, c)
      && (b != a ==> MemRead(m', b) == MemRead(m, b))
      && |m'.cells| == |m.cells| && m'.strict == m.strict
  {
  }

  /** A non-strict memory stores anything at a valid address; a strict one every integer. */
  lemma MemWriteOk(m: MemoryState, a: int, c: Cell)
    requires 0 <= a < |m.cells|
    ensures MemWrite(m, a, c).Ok? <==> !m.strict || c.Word?
  {
  }

  class Memory {
    const strict: bool
    var data: seq<Cell>

    function Value(): MemoryState
      reads this
    {
      MemoryState(strict, data)
    }

    /** Memory(size, strict): size cells of 0. */
    constructor (size: int, strict: bool)
      ensures Value() == NewMemory(size, strict)
    {
      this.strict := strict;
      data := seq(Max0(size), _ => Word(0));
    }

    function Read(a: int): (r: Result<Cell>)
      reads this
      ensures r == MemRead(Value(), a)
    {
      if 0 <= a < |data| then Ok(data[a]) else Err(MemoryError)
    }

    method Write(a: int, c: Cell) returns (r: Result<()>)
      modifies this
      ensures MemWrite(old(Value()), a, c).Ok? ==> r.Ok? && Value() == MemWrite(old(Value()), a, c).value
      ensures MemWrite(old(Value()), a, c).Err? ==>
        r == Err(MemWrite(old(Value()), a, c).error) && Value() == old(Value())
    {
      if 0 <= a < |data| {
        var s := c;
        if strict {
          if c.Code? {
            return Err(TypeError);
          }
          s := Word(c.value % 256);
        }
        data := data[a := s];
        r := Ok(());
      } else {
        r := Err(MemoryError);
      }
    }
  }

  // ---------------------------------------------------------------- stack

  /** A LifoQueue(maxsize) of integers, the top at the end. */
  datatype StackState = StackState(capacity: int, items: seq<int>)

  /** LifoQueue.full(): a maxsize of 0 or less means unbounded. */
  predicate Full(s: StackState) { 0 < s.capacity <= |s.items| }

  /** Stack.push(data): StackOverflow when full. */
  function StackPush(s: StackState, d: int): (r: Result<StackState>)
    ensures r.Ok? <==> !Full(s)
    ensures r.Err? ==> r.error == StackOverflow
    ensures r.Ok? ==> |r.value.items| == |s.items| + 1 && r.value.capacity == s.capacity
  {
    if Full(s) then Err(StackOverflow) else Ok(s.(items := s.items + [d]))
  }

  /** Stack.pop(): the most recent value, or 0 on an empty stack, which stays empty. */
  function StackPop(s: StackState): (r: (int, StackState))
    ensures r.1.capacity == s.capacity
    ensures s.items == [] ==> r == (0, s)
    ensures s.items != [] ==> |r.1.items| == |s.items| - 1
  {
    if s.items == [] then (0, s)
    else (s.items[|s.items| - 1], s.(items := s.items[..|s.items| - 1]))
  }

  /** Last in, first out: a pop undoes the push before it. */
  lemma PopPush(s: StackState, d: int)
    requires !Full(s)
    ensures StackPop(StackPush(s, d).value) == (d, s)
  {
    assert (s.items + [d])[..|s.items|] == s.items;
  }

  /** A bounded stack never holds more than its capacity. */
  lemma PushBounded(s: StackState, d: int)
    requires 0 < s.capacity && |s.items| <= s.capacity && StackPush(s, d).Ok?
    ensures |StackPush(s, d).value.items| <= s.capacity
  {
  }

  /** Values come back in reverse order of pushing. */
  lemma {:induction false} PopAll(s: StackState, ds: seq<int>)
    requires s.capacity <= 0 || |s.items| + |ds| <= s.capacity
    ensures PushAll(s, ds).Ok?
    ensures PopN(PushAll(s, ds).value, |ds|) == (Reverse(ds), s)
    decreases |ds|
  {
    if ds != [] {
      var last := ds[|ds| - 1];
      var front := ds[..|ds| - 1];
      PopAll(s, front);
      var t := PushAll(s, front).value;
      assert t.capacity == s.capacity && |t.items| == |s.items| + |front| by {
        PushAllShape(s, front);
      }
      PopPush(t, last);
      assert Reverse(ds) == [last] + Reverse(front);
    }
  }

  function PushAll(s: StackState, ds: seq<int>): Result<StackState>
    decreases |ds|
  {
    if ds == [] then Ok(s)
    else
      var t :- PushAll(s, ds[..|ds| - 1]);
      StackPush(t, ds[|ds| - 1])
  }

  lemma {:induction false} PushAllShape(s: StackState, ds: seq<int>)
    requires PushAll(s, ds).Ok?
    ensures PushAll(s, ds).value.capacity == s.capacity
    ensures |PushAll(s, ds).value.items| == |s.items| + |ds|
    decreases |ds|
  {
    if ds != [] {
      PushAllShape(s, ds[..|ds| - 1]);
    }
  }

  /** n pops, collecting the values in the order they come out. */
  function PopN(s: StackState, n: nat): (seq<int>, StackState)
    decreases n
  {
    if n == 0 then ([], s)
    else
      var (v, t) := StackPop(s);
      var (vs, u) := PopN(t, n - 1);
      ([v] + vs, u)
  }

  function Reverse(ds: seq<int>): (r: seq<int>)
    ensures |r| == |ds|
  {
    if ds == [] then [] else [ds[|ds| - 1]] + Reverse(ds[..|ds| - 1])
  }

  class Stack {
    const capacity: int
    var items: seq<int>

    function Value(): StackState
      reads this
    {
      StackState(capacity, items)
    }

    /** Stack(size): an empty LifoQueue(size). */
    constructor (size: int)
      ensures Value() == StackState(size, [])
    {
      capacity := size;
      items := [];
    }

    method Push(d: int) returns (r: Result<()>)
      modifies this
      ensures StackPush(old(Value()), d).Ok? ==> r.Ok? && Value() == StackPush(old(Value()), d).value
      ensures StackPush(old(Value()), d).Err? ==> r == Err(StackOverflow) && Value() == old(Value())
    {
      if 0 < capacity <= |items| {
        return Err(StackOverflow);
      }
      items := items + [d];
      r := Ok(());
    }

    method Pop() returns (v: int)
      modifies this
      ensures (v, Value()) == StackPop(old(Value()))
    {
      if items == [] {
        return 0;
      }
      v := items[|items| - 1];
      items := items[..|items| - 1];
    }
  }
}
