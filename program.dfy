/**
 * The compiled program container (asimr/constant.py Program): its defaults,
 * the in-place merge `p + q` that joins the assembler's partitions, and the
 * binary image written by dumps and read back by load.
 */
module Programs {
  import opened Errors
  import opened Bytes
  import opened Utf8
  import opened OrderedDicts

  const DefaultMemory: int := 8 * 1024 * 1024
  const DefaultGPR: int := 16
  const DefaultStackSize: int := 64

  /** The magic "ASIM" at the start of every image. */
  const Magic: bytes := [0x41, 0x53, 0x49, 0x4D]

  const U16: int := 0x1_0000
  const U32: int := 0x1_0000_0000
  const U64: int := 0x1_0000_0000_0000_0000

  /** A program's fields as a value. */
  datatype ProgramData = ProgramData(
    instructions: seq<bytes>,
    dataMem: int,
    instMem: int,
    nGPR: int,
    stackSize: int,
    labels: Dict<string, int>,
    includeFile: seq<string>,
    compilationTime: int)

  /** Program(): the default configuration with empty lists. The default compilation time is
      the clock reading taken when the module was loaded, so it is a parameter here. */
  function Default(time: int): ProgramData {
    ProgramData([], DefaultMemory, DefaultMemory, DefaultGPR, DefaultStackSize, [], [], time)
  }

  /** p + q: lists concatenated, labels updated from q (not rebased), sizes from q, p's time. */
  function Merge(p: ProgramData, q: ProgramData): (r: ProgramData)
    ensures |r.instructions| == |p.instructions| + |q.instructions|
    ensures r.compilationTime == p.compilationTime
    ensures (r.dataMem, r.instMem, r.nGPR, r.stackSize) == (q.dataMem, q.instMem, q.nGPR, q.stackSize)
  {
    ProgramData(p.instructions + q.instructions, q.dataMem, q.instMem, q.nGPR, q.stackSize,
      UpdateAll(p.labels, q.labels), p.includeFile + q.includeFile, p.compilationTime)
  }

  // ---------------------------------------------------------------- merge laws

  /** A label of the merge is q's where q has it and p's otherwise; no index is shifted. */
  lemma MergeLabels(p: ProgramData, q: ProgramData, name: string)
    requires UniqueKeys(q.labels)
    ensures Get(Merge(p, q).labels, name) ==
      if Contains(q.labels, name) then Get(q.labels, name) else Get(p.labels, name)
  {
    UpdateAllGet(p.labels, q.labels, name);
  }

  lemma MergeUnique(p: ProgramData, q: ProgramData)
    requires UniqueKeys(p.labels)
    ensures UniqueKeys(Merge(p, q).labels)
  {
    UpdateAllUnique(p.labels, q.labels);
  }

  /** Merging is associative, so the order in which partitions are folded does not matter
      as long as their sequence is kept. */
  lemma MergeAssociative(a: ProgramData, b: ProgramData, c: ProgramData)
    requires UniqueKeys(b.labels)
    ensures Merge(Merge(a, b), c) == Merge(a, Merge(b, c))
  {
    UpdateAllAssociative(a.labels, b.labels, c.labels);
    var left, right := Merge(Merge(a, b), c), Merge(a, Merge(b, c));
    assert left.labels == right.labels;
    assert left.instructions == right.instructions;
    assert left.includeFile == right.includeFile;
  }

  /** A default program is a left identity, except that it keeps its own compilation time. */
  lemma MergeDefaultLeft(time: int, q: ProgramData)
    requires UniqueKeys(q.labels)
    ensures Merge(Default(time), q) == q.(compilationTime := time)
  {
    UpdateAllEmpty(q.labels);
    var m := Merge(Default(time), q);
    assert m.instructions == q.instructions;
    assert m.includeFile == q.includeFile;
  }

  /** As a right operand a default program is not neutral: it resets the four sizes. */
  lemma MergeDefaultRight(p: ProgramData, time: int)
    ensures Merge(p, Default(time)) ==
      p.(dataMem := DefaultMemory, instMem := DefaultMemory, nGPR := DefaultGPR, stackSize := DefaultStackSize)
  {
    assert p.instructions + [] == p.instructions;
    assert p.includeFile + [] == p.includeFile;
  }

  // ---------------------------------------------------------------- dumps

  /** Everything dumps writes fits its field: otherwise int.to_bytes raises OverflowError. */
  predicate EntryFits(e: (string, int)) { |Encode(e.0)| < U16 && 0 <= e.1 < U32 }
  predicate StringFits(s: string) { |Encode(s)| < U16 }
  predicate ChunkFits(b: bytes) { |b| < U16 }

  predicate LabelsFit(l: Dict<string, int>) { forall j :: 0 <= j < |l| ==> EntryFits(l[j]) }
  predicate StringsFit(fs: seq<string>) { forall j :: 0 <= j < |fs| ==> StringFits(fs[j]) }
  predicate ChunksFit(cs: seq<bytes>) { forall j :: 0 <= j < |cs| ==> ChunkFits(cs[j]) }

  predicate HeaderFits(p: ProgramData) {
    && 0 <= p.instMem < U32 && 0 <= p.dataMem < U32 && 0 <= p.nGPR < U32 && 0 <= p.stackSize < U32
    && 0 <= p.compilationTime < U64
  }

  predicate CanDump(p: ProgramData) {
    && HeaderFits(p)
    && |p.labels| < U32 && LabelsFit(p.labels)
    && |p.includeFile| < U32 && StringsFit(p.includeFile)
    && |p.instructions| < U32 && ChunksFit(p.instructions)
  }

  /** One label record: u16 name length, the UTF-8 name, u32 index. */
  function EntryBytes(e: (string, int)): bytes
    requires EntryFits(e)
  {
    LE(|Encode(e.0)|, 2) + Encode(e.0) + LE(e.1, 4)
  }

  function LabelsBytes(l: Dict<string, int>): bytes
    requires LabelsFit(l)
  {
    if l == [] then [] else EntryBytes(l[0]) + LabelsBytes(l[1..])
  }

  /** One include record: u16 length and the UTF-8 text. */
  function StringBytes(s: string): bytes
    requires StringFits(s)
  {
    LE(|Encode(s)|, 2) + Encode(s)
  }

  function StringsBytes(fs: seq<string>): bytes
    requires StringsFit(fs)
  {
    if fs == [] then [] else StringBytes(fs[0]) + StringsBytes(fs[1..])
  }

  /** One instruction record: u16 length and the packed bytes. */
  function ChunkBytes(b: bytes): bytes
    requires ChunkFits(b)
  {
    LE(|b|, 2) + b
  }

  function ChunksBytes(cs: seq<bytes>): bytes
    requires ChunksFit(cs)
  {
    if cs == [] then [] else ChunkBytes(cs[0]) + ChunksBytes(cs[1..])
  }

  /** The image dumps produces, or OverflowError. */
  function DumpsData(p: ProgramData): Result<bytes> {
    if !CanDump(p) then Err(OverflowError)
    else Ok(Magic + (LE(p.instMem, 4) + (LE(p.dataMem, 4) + (LE(p.nGPR, 4) + (LE(p.stackSize, 4)
      + (LE(p.compilationTime, 8) + TablesBytes(p)))))))
  }

  /** The three tables after the header: labels, include files, instructions, each
      preceded by its u32 count. */
  function TablesBytes(p: ProgramData): bytes
    requires CanDump(p)
  {
    LE(|p.labels|, 4) + (LabelsBytes(p.labels)
      + (LE(|p.includeFile|, 4) + (StringsBytes(p.includeFile)
      + (LE(|p.instructions|, 4) + ChunksBytes(p.instructions)))))
  }

  // ---------------------------------------------------------------- load

  /** data[:n] and data[n:]. */
  function Take(data: bytes, n: nat): bytes { Slice(data, 0, n) }
  function Drop(data: bytes, n: nat): bytes { Slice(data, n, |data|) }

  /** int.from_bytes(data[:n]) and the rest of the buffer. */
  function Next(data: bytes, n: nat): (nat, bytes) {
    (FromLE(Take(data, n)), Drop(data, n))
  }

  /** The label loop of load: n records, each assigned into the dictionary in turn. */
  function ReadLabels(data: bytes, n: nat, acc: Dict<string, int>): (r: Result<(Dict<string, int>, bytes)>)
    ensures r.Err? ==> r.error == UnicodeDecodeError
    decreases n
  {
    if n == 0 then Ok((acc, data))
    else
      var (len, d1) := Next(data, 2);
      var name :- Decode(Take(d1, len));
      var (index, d2) := Next(Drop(d1, len), 4);
      ReadLabels(d2, n - 1, Set(acc, name, index))
  }

  function ReadStrings(data: bytes, n: nat, acc: seq<string>): (r: Result<(seq<string>, bytes)>)
    ensures r.Err? ==> r.error == UnicodeDecodeError
    decreases n
  {
    if n == 0 then Ok((acc, data))
    else
      var (len, d1) := Next(data, 2);
      var s :- Decode(Take(d1, len));
      ReadStrings(Drop(d1, len), n - 1, acc + [s])
  }

  function ReadChunks(data: bytes, n: nat, acc: seq<bytes>): (seq<bytes>, bytes)
    decreases n
  {
    if n == 0 then (acc, data)
    else
      var (len, d1) := Next(data, 2);
      ReadChunks(Drop(d1, len), n - 1, acc + [Take(d1, len)])
  }

  /** Program.load: BadMagic unless the image starts with "ASIM" (the assertion), then the
      fields in dumps order. Short input reads as zeros and empty strings; trailing bytes are
      ignored. */
  function LoadData(data: bytes): (r: Result<ProgramData>)
    ensures r.Err? ==> r.error == BadMagic || r.error == UnicodeDecodeError
  {
    if Take(data, 4) != Magic then Err(BadMagic)
    else
      var (header, rest) := ReadHeader(Drop(data, 4));
      LoadTables(rest, header)
  }

  /** The five header fields after the magic, in a program with empty tables. */
  function ReadHeader(d: bytes): (ProgramData, bytes) {
    var (instMem, d1) := Next(d, 4);
    var (dataMem, d2) := Next(d1, 4);
    var (nGPR, d3) := Next(d2, 4);
    var (stackSize, d4) := Next(d3, 4);
    var (time, d5) := Next(d4, 8);
    (ProgramData([], dataMem, instMem, nGPR, stackSize, [], [], time), d5)
  }

  /** The rest of load after the header: the label, include and instruction tables. */
  function LoadTables(d: bytes, header: ProgramData): (r: Result<ProgramData>)
    ensures r.Err? ==> r.error == UnicodeDecodeError
  {
    var (nLabels, d6) := Next(d, 4);
    var labels :- ReadLabels(d6, nLabels, []);
    var (nInclude, d7) := Next(labels.1, 4);
    var includes :- ReadStrings(d7, nInclude, []);
    var (nIns, d8) := Next(includes.1, 4);
    var instructions := ReadChunks(d8, nIns, []);
    Ok(header.(instructions := instructions.0, labels := labels.0, includeFile := includes.0))
  }

  // ---------------------------------------------------------------- round trip

  lemma NextOf(v: nat, n: nat, rest: bytes)
    requires v < Pow256(n)
    ensures Next(LE(v, n) + rest, n) == (v, rest)
  {
    var d := LE(v, n) + rest;
    assert Take(d, n) == LE(v, n);
    assert Drop(d, n) == rest;
    FromLEOfLE(v, n);
  }

  lemma TakeDrop(a: bytes, rest: bytes)
    ensures Take(a + rest, |a|) == a && Drop(a + rest, |a|) == rest
  {
  }

  lemma Pow256Of2()
    ensures Pow256(2) == U16 && Pow256(4) == U32 && Pow256(8) == U64
  {
    assert Pow256(1) == 256;
  }

  /** Reading one u16-prefixed UTF-8 string that dumps wrote. */
  lemma ReadStringOf(text: string, rest: bytes)
    requires StringFits(text)
    ensures var (len, d1) := Next(StringBytes(text) + rest, 2);
      Decode(Take(d1, len)) == Ok(text) && Drop(d1, len) == rest
  {
    var key := Encode(text);
    assert StringBytes(text) + rest == LE(|key|, 2) + (key + rest);
    Pow256Of2();
    NextOf(|key|, 2, key + rest);
    TakeDrop(key, rest);
    DecodeEncode(text);
  }

  lemma ReadLabelsStep(e: (string, int), tail: bytes, n: nat, acc: Dict<string, int>)
    requires EntryFits(e)
    ensures ReadLabels(EntryBytes(e) + tail, n + 1, acc) == ReadLabels(tail, n, Set(acc, e.0, e.1))
  {
    assert StringFits(e.0);
    var d := EntryBytes(e) + tail;
    assert d == StringBytes(e.0) + (LE(e.1, 4) + tail);
    ReadStringOf(e.0, LE(e.1, 4) + tail);
    Pow256Of2();
    NextOf(e.1, 4, tail);
  }

  lemma {:induction false} ReadLabelsOf(l: Dict<string, int>, rest: bytes, acc: Dict<string, int>)
    requires LabelsFit(l)
    ensures ReadLabels(LabelsBytes(l) + rest, |l|, acc) == Ok((UpdateAll(acc, l), rest))
  {
    if l != [] {
      var tail := LabelsBytes(l[1..]) + rest;
      assert LabelsBytes(l) + rest == EntryBytes(l[0]) + tail;
      ReadLabelsStep(l[0], tail, |l| - 1, acc);
      ReadLabelsOf(l[1..], rest, Set(acc, l[0].0, l[0].1));
    } else {
      assert LabelsBytes(l) + rest == rest;
    }
  }

  lemma ReadStringsStep(text: string, tail: bytes, n: nat, acc: seq<string>)
    requires StringFits(text)
    ensures ReadStrings(StringBytes(text) + tail, n + 1, acc) == ReadStrings(tail, n, acc + [text])
  {
    ReadStringOf(text, tail);
  }

  lemma {:induction false} ReadStringsOf(fs: seq<string>, rest: bytes, acc: seq<string>)
    requires StringsFit(fs)
    ensures ReadStrings(StringsBytes(fs) + rest, |fs|, acc) == Ok((acc + fs, rest))
  {
    if fs == [] {
      assert StringsBytes(fs) + rest == rest;
      assert acc + fs == acc;
    } else {
      var tail := StringsBytes(fs[1..]) + rest;
      StringsBytesCons(fs, rest);
      ReadStringsStep(fs[0], tail, |fs| - 1, acc);
      ReadStringsOf(fs[1..], rest, acc + [fs[0]]);
      AppendCons(acc, fs);
    }
  }

  lemma StringsBytesCons(fs: seq<string>, rest: bytes)
    requires StringsFit(fs) && fs != []
    ensures StringsBytes(fs) + rest == StringBytes(fs[0]) + (StringsBytes(fs[1..]) + rest)
  {
  }

  /** Moving the head of a list onto an accumulator keeps the concatenation. */
  lemma AppendCons<T>(acc: seq<T>, xs: seq<T>)
    requires xs != []
    ensures acc + [xs[0]] + xs[1..] == acc + xs
  {
    assert xs == [xs[0]] + xs[1..];
  }

  lemma ReadChunksStep(c: bytes, tail: bytes, n: nat, acc: seq<bytes>)
    requires ChunkFits(c)
    ensures ReadChunks(ChunkBytes(c) + tail, n + 1, acc) == ReadChunks(tail, n, acc + [c])
  {
    assert ChunkBytes(c) + tail == LE(|c|, 2) + (c + tail);
    Pow256Of2();
    NextOf(|c|, 2, c + tail);
    TakeDrop(c, tail);
  }

  lemma {:induction false} ReadChunksOf(cs: seq<bytes>, rest: bytes, acc: seq<bytes>)
    requires ChunksFit(cs)
    ensures ReadChunks(ChunksBytes(cs) + rest, |cs|, acc) == (acc + cs, rest)
  {
    if cs != [] {
      var tail := ChunksBytes(cs[1..]) + rest;
      assert ChunksBytes(cs) + rest == ChunkBytes(cs[0]) + tail;
      ReadChunksStep(cs[0], tail, |cs| - 1, acc);
      ReadChunksOf(cs[1..], rest, acc + [cs[0]]);
      AppendCons(acc, cs);
    } else {
      assert ChunksBytes(cs) + rest == rest;
      assert acc + cs == acc;
    }
  }

  /** The label table: its count, then the records, read back into the same dictionary. */
  lemma LabelTableOf(l: Dict<string, int>, rest: bytes)
    requires |l| < U32 && LabelsFit(l) && UniqueKeys(l)
    ensures var (n, d) := Next(LE(|l|, 4) + (LabelsBytes(l) + rest), 4);
      ReadLabels(d, n, []) == Ok((l, rest))
  {
    Pow256Of2();
    NextOf(|l|, 4, LabelsBytes(l) + rest);
    ReadLabelsOf(l, rest, []);
    UpdateAllEmpty(l);
  }

  lemma StringTableOf(fs: seq<string>, rest: bytes)
    requires |fs| < U32 && StringsFit(fs)
    ensures var (n, d) := Next(LE(|fs|, 4) + (StringsBytes(fs) + rest), 4);
      ReadStrings(d, n, []) == Ok((fs, rest))
  {
    Pow256Of2();
    NextOf(|fs|, 4, StringsBytes(fs) + rest);
    ReadStringsOf(fs, rest, []);
    assert [] + fs == fs;
  }

  lemma ChunkTableOf(cs: seq<bytes>)
    requires |cs| < U32 && ChunksFit(cs)
    ensures var (n, d) := Next(LE(|cs|, 4) + ChunksBytes(cs), 4);
      ReadChunks(d, n, []).0 == cs
  {
    Pow256Of2();
    NextOf(|cs|, 4, ChunksBytes(cs));
    ReadChunksOf(cs, [], []);
    assert ChunksBytes(cs) + [] == ChunksBytes(cs);
    assert [] + cs == cs;
  }

  /** Loading the tables dumps wrote gives back the labels, include files and
      instructions, in order. */
  lemma LoadTablesOf(p: ProgramData, header: ProgramData)
    requires CanDump(p) && UniqueKeys(p.labels)
    ensures LoadTables(TablesBytes(p), header) ==
      Ok(header.(instructions := p.instructions, labels := p.labels, includeFile := p.includeFile))
  {
    var t9 := LE(|p.instructions|, 4) + ChunksBytes(p.instructions);
    var t7 := LE(|p.includeFile|, 4) + (StringsBytes(p.includeFile) + t9);
    LabelTableOf(p.labels, t7);
    StringTableOf(p.includeFile, t9);
    ChunkTableOf(p.instructions);
  }

  /** load(dumps(p)) == p whenever dumps succeeds: every field, in order. (A Python dict's
      keys are distinct, which the labels of a ProgramData need not be.) */
  lemma LoadDumps(p: ProgramData)
    requires DumpsData(p).Ok? && UniqueKeys(p.labels)
    ensures LoadData(DumpsData(p).value) == Ok(p)
  {
    Pow256Of2();
    var t5 := TablesBytes(p);
    var t4 := LE(p.compilationTime, 8) + t5;
    var t3 := LE(p.stackSize, 4) + t4;
    var t2 := LE(p.nGPR, 4) + t3;
    var t1 := LE(p.dataMem, 4) + t2;
    var t0 := LE(p.instMem, 4) + t1;
    assert DumpsData(p).value == Magic + t0;
    TakeDrop(Magic, t0);
    NextOf(p.instMem, 4, t1);
    NextOf(p.dataMem, 4, t2);
    NextOf(p.nGPR, 4, t3);
    NextOf(p.stackSize, 4, t4);
    NextOf(p.compilationTime, 8, t5);
    LoadTablesOf(p, ProgramData([], p.dataMem, p.instMem, p.nGPR, p.stackSize, [], [], p.compilationTime));
  }

  /** An image that does not start with "ASIM" is rejected. */
  lemma LoadBadMagic(data: bytes)
    requires |data| < 4 || data[..4] != Magic
    ensures LoadData(data) == Err(BadMagic)
  {
    if |data| >= 4 {
      assert Take(data, 4) == data[..4];
    }
  }

  // ---------------------------------------------------------------- helpers for the loops

  lemma {:induction false} LabelsBytesAppend(a: Dict<string, int>, b: Dict<string, int>)
    requires LabelsFit(a) && LabelsFit(b)
    ensures LabelsFit(a + b) && LabelsBytes(a + b) == LabelsBytes(a) + LabelsBytes(b)
  {
    if a != [] {
      assert (a + b)[1..] == a[1..] + b;
      LabelsBytesAppend(a[1..], b);
    } else {
      assert a + b == b;
    }
  }

  lemma {:induction false} StringsBytesAppend(a: seq<string>, b: seq<string>)
    requires StringsFit(a) && StringsFit(b)
    ensures StringsFit(a + b) && StringsBytes(a + b) == StringsBytes(a) + StringsBytes(b)
  {
    if a != [] {
      assert (a + b)[1..] == a[1..] + b;
      StringsBytesAppend(a[1..], b);
    } else {
      assert a + b == b;
    }
  }

  lemma {:induction false} ChunksBytesAppend(a: seq<bytes>, b: seq<bytes>)
    requires ChunksFit(a) && ChunksFit(b)
    ensures ChunksFit(a + b) && ChunksBytes(a + b) == ChunksBytes(a) + ChunksBytes(b)
  {
    if a != [] {
      assert (a + b)[1..] == a[1..] + b;
      ChunksBytesAppend(a[1..], b);
    } else {
      assert a + b == b;
    }
  }

  /** One more label record at the end of a dumped prefix. */
  lemma LabelsGrow(data: bytes, labels: Dict<string, int>, i: nat)
    requires i < |labels| && LabelsFit(labels[..i]) && EntryFits(labels[i])
    ensures LabelsFit(labels[..i + 1])
    ensures data + LabelsBytes(labels[..i]) + EntryBytes(labels[i]) == data + LabelsBytes(labels[..i + 1])
  {
    assert labels[..i + 1] == labels[..i] + [labels[i]];
    assert LabelsBytes([labels[i]]) == EntryBytes(labels[i]) + LabelsBytes([]);
    LabelsBytesAppend(labels[..i], [labels[i]]);
  }

  lemma StringsGrow(data: bytes, files: seq<string>, i: nat)
    requires i < |files| && StringsFit(files[..i]) && StringFits(files[i])
    ensures StringsFit(files[..i + 1])
    ensures data + StringsBytes(files[..i]) + StringBytes(files[i]) == data + StringsBytes(files[..i + 1])
  {
    assert files[..i + 1] == files[..i] + [files[i]];
    assert StringsBytes([files[i]]) == StringBytes(files[i]) + StringsBytes([]);
    StringsBytesAppend(files[..i], [files[i]]);
  }

  lemma ChunksGrow(data: bytes, chunks: seq<bytes>, i: nat)
    requires i < |chunks| && ChunksFit(chunks[..i]) && ChunkFits(chunks[i])
    ensures ChunksFit(chunks[..i + 1])
    ensures data + ChunksBytes(chunks[..i]) + ChunkBytes(chunks[i]) == data + ChunksBytes(chunks[..i + 1])
  {
    assert chunks[..i + 1] == chunks[..i] + [chunks[i]];
    assert ChunksBytes([chunks[i]]) == ChunkBytes(chunks[i]) + ChunksBytes([]);
    ChunksBytesAppend(chunks[..i], [chunks[i]]);
  }

  /** The object the assembler fills in place and the runtime reads. */
  class Program {
    var instructions: seq<bytes>
    var dataMem: int
    var instMem: int
    var nGPR: int
    var stackSize: int
    var labels: Dict<string, int>
    var includeFile: seq<string>
    var compilationTime: int

    function Value(): ProgramData
      reads this
    {
      ProgramData(instructions, dataMem, instMem, nGPR, stackSize, labels, includeFile, compilationTime)
    }

    /** Program() with the module-load clock reading as its compilation time. */
    constructor (time: int)
      ensures Value() == Default(time)
    {
      instructions := [];
      dataMem := DefaultMemory;
      instMem := DefaultMemory;
      nGPR := DefaultGPR;
      stackSize := DefaultStackSize;
      labels := [];
      includeFile := [];
      compilationTime := time;
    }

    /** The program load fills in: a fresh Program whose fields are set one by one. */
    constructor Loaded(v: ProgramData)
      ensures Value() == v
    {
      instructions := v.instructions;
      dataMem := v.dataMem;
      instMem := v.instMem;
      nGPR := v.nGPR;
      stackSize := v.stackSize;
      labels := v.labels;
      includeFile := v.includeFile;
      compilationTime := v.compilationTime;
    }

    /** self + other: updates self in place and returns it. Reading other before any
        assignment makes p + p behave as in the source, where every right-hand side
        still sees the old lists. */
    method Add(other: Program) returns (r: Program)
      modifies this
      ensures r == this
      ensures Value() == Merge(old(Value()), old(other.Value()))
    {
      var o := other.Value();
      instructions := instructions + o.instructions;
      dataMem := o.dataMem;
      instMem := o.instMem;
      nGPR := o.nGPR;
      stackSize := o.stackSize;
      labels := UpdateAll(labels, o.labels);
      includeFile := includeFile + o.includeFile;
      r := this;
    }

    /** dumps(): appends each field to a growing buffer; int.to_bytes raises OverflowError. */
    method Dumps() returns (r: Result<bytes>)
      ensures r == DumpsData(Value())
    {
      var data := Magic;
      var field :- ToBytes(instMem, 4);
      data := data + field;
      field :- ToBytes(dataMem, 4);
      data := data + field;
      field :- ToBytes(nGPR, 4);
      data := data + field;
      field :- ToBytes(stackSize, 4);
      data := data + field;
      field :- ToBytes(compilationTime, 8);
      data := data + field;
      Pow256Of2();
      ghost var header := data;
      data :- DumpLabels(data, labels);
      ghost var labelPart := data;
      data :- DumpStrings(data, includeFile);
      ghost var includePart := data;
      data :- DumpChunks(data, instructions);
      DumpsLayout(Value(), header, labelPart, includePart, data);
      r := Ok(data);
    }

    /** Program.load(data): reslices the buffer field by field and fills a fresh program. */
    static method Load(data: bytes) returns (r: Result<Program>)
      ensures r.Ok? <==> LoadData(data).Ok?
      ensures r.Ok? ==> fresh(r.value) && r.value.Value() == LoadData(data).value
      ensures r.Err? ==> r.error == LoadData(data).error
    {
      if Take(data, 4) != Magic {
        return Err(BadMagic);
      }
      var d := Drop(data, 4);
      var instMem := FromLE(Take(d, 4));
      d := Drop(d, 4);
      var dataMem := FromLE(Take(d, 4));
      d := Drop(d, 4);
      var nGPR := FromLE(Take(d, 4));
      d := Drop(d, 4);
      var stackSize := FromLE(Take(d, 4));
      d := Drop(d, 4);
      var time := FromLE(Take(d, 8));
      d := Drop(d, 8);
      var header := ProgramData([], dataMem, instMem, nGPR, stackSize, [], [], time);
      assert ReadHeader(Drop(data, 4)) == (header, d);
      var tables :- LoadTablesFrom(d, header);

      var p := new Program.Loaded(tables);
      r := Ok(p);
    }
  }

  /** The label loop of dumps: the count, then one record per entry in insertion order. */
  method DumpLabels(data: bytes, labels: Dict<string, int>) returns (r: Result<bytes>)
    ensures r.Ok? <==> |labels| < U32 && LabelsFit(labels)
    ensures r.Ok? ==> r.value == data + LE(|labels|, 4) + LabelsBytes(labels)
    ensures r.Err? ==> r.error == OverflowError
  {
    Pow256Of2();
    var count :- ToBytes(|labels|, 4);
    var out := data + count;
    var i := 0;
    while i < |labels|
      invariant 0 <= i <= |labels|
      invariant LabelsFit(labels[..i])
      invariant out == data + count + LabelsBytes(labels[..i])
    {
      var entry := DumpEntry(labels[i]);
      if entry.Err? {
        return Err(OverflowError);
      }
      LabelsGrow(data + count, labels, i);
      out := out + entry.value;
      i := i + 1;
    }
    assert labels[..i] == labels;
    r := Ok(out);
  }

  /** One label record: u16 key length, the UTF-8 key, the u32 index. */
  method DumpEntry(e: (string, int)) returns (r: Result<bytes>)
    ensures r.Ok? <==> EntryFits(e)
    ensures r.Ok? ==> r.value == EntryBytes(e)
    ensures r.Err? ==> r.error == OverflowError
  {
    Pow256Of2();
    var (name, index) := e;
    var key := Encode(name);
    var len :- ToBytes(|key|, 2);
    var value :- ToBytes(index, 4);
    r := Ok(len + key + value);
  }

  /** The include loop of dumps. */
  method DumpStrings(data: bytes, files: seq<string>) returns (r: Result<bytes>)
    ensures r.Ok? <==> |files| < U32 && StringsFit(files)
    ensures r.Ok? ==> r.value == data + LE(|files|, 4) + StringsBytes(files)
    ensures r.Err? ==> r.error == OverflowError
  {
    Pow256Of2();
    var count :- ToBytes(|files|, 4);
    var out := data + count;
    var i := 0;
    while i < |files|
      invariant 0 <= i <= |files|
      invariant StringsFit(files[..i])
      invariant out == data + count + StringsBytes(files[..i])
    {
      var text := Encode(files[i]);
      var len := ToBytes(|text|, 2);
      if len.Err? {
        assert !StringFits(files[i]);
        return Err(OverflowError);
      }
      StringsGrow(data + count, files, i);
      out := out + len.value + text;
      i := i + 1;
    }
    assert files[..i] == files;
    r := Ok(out);
  }

  /** The instruction loop of dumps. */
  method DumpChunks(data: bytes, chunks: seq<bytes>) returns (r: Result<bytes>)
    ensures r.Ok? <==> |chunks| < U32 && ChunksFit(chunks)
    ensures r.Ok? ==> r.value == data + LE(|chunks|, 4) + ChunksBytes(chunks)
    ensures r.Err? ==> r.error == OverflowError
  {
    Pow256Of2();
    var count :- ToBytes(|chunks|, 4);
    var out := data + count;
    var i := 0;
    while i < |chunks|
      invariant 0 <= i <= |chunks|
      invariant ChunksFit(chunks[..i])
      invariant out == data + count + ChunksBytes(chunks[..i])
    {
      var len := ToBytes(|chunks[i]|, 2);
      if len.Err? {
        assert !ChunkFits(chunks[i]);
        return Err(OverflowError);
      }
      ChunksGrow(data + count, chunks, i);
      out := out + len.value + chunks[i];
      i := i + 1;
    }
    assert chunks[..i] == chunks;
    r := Ok(out);
  }

  /** One record of the label loop, with the reads named as the loop names them. */
  lemma LabelRecordRead(d: bytes, n: nat, acc: Dict<string, int>, len: nat, name: Result<string>,
      index: nat, rest: bytes)
    requires n > 0 && len == FromLE(Take(d, 2)) && name == Decode(Take(Drop(d, 2), len))
    requires index == FromLE(Take(Drop(Drop(d, 2), len), 4)) && rest == Drop(Drop(Drop(d, 2), len), 4)
    ensures name.Err? ==> ReadLabels(d, n, acc) == Err(name.error)
    ensures name.Ok? ==> ReadLabels(d, n, acc) == ReadLabels(rest, n - 1, Set(acc, name.value, index))
  {
  }

  /** The three tables of load, read after the header. */
  method LoadTablesFrom(data: bytes, header: ProgramData) returns (r: Result<ProgramData>)
    ensures r == LoadTables(data, header)
  {
    var d := data;
    var nLabels := FromLE(Take(d, 4));
    d := Drop(d, 4);
    var labels;
    labels, d :- LoadLabels(d, nLabels);
    var nInclude := FromLE(Take(d, 4));
    d := Drop(d, 4);
    var includeFile;
    includeFile, d :- LoadStrings(d, nInclude);
    var nIns := FromLE(Take(d, 4));
    d := Drop(d, 4);
    var instructions;
    instructions, d := LoadChunks(d, nIns);
    r := Ok(header.(instructions := instructions, labels := labels, includeFile := includeFile));
  }

  /** The label loop of load. */
  method LoadLabels(data: bytes, count: nat) returns (r: Result<Dict<string, int>>, rest: bytes)
    ensures ReadLabels(data, count, []).Ok? <==> r.Ok?
    ensures r.Ok? ==> ReadLabels(data, count, []) == Ok((r.value, rest))
    ensures r.Err? ==> r.error == UnicodeDecodeError
  {
    var d := data;
    var labels: Dict<string, int> := [];
    var left: nat := count;
    while left > 0
      invariant ReadLabels(d, left, labels) == ReadLabels(data, count, [])
    {
      ghost var d0, labels0, left0 := d, labels, left;
      var n := FromLE(Take(d, 2));
      d := Drop(d, 2);
      var name := Decode(Take(d, n));
      var index := FromLE(Take(Drop(d, n), 4));
      if name.Err? {
        LabelRecordRead(d0, left, labels, n, name, index, Drop(Drop(d, n), 4));
        return Err(name.error), d;
      }
      d := Drop(Drop(d, n), 4);
      labels := Set(labels, name.value, index);
      left := left - 1;
      LabelRecordRead(d0, left0, labels0, n, name, index, d);
    }
    return Ok(labels), d;
  }

  /** The include loop of load. */
  method LoadStrings(data: bytes, count: nat) returns (r: Result<seq<string>>, rest: bytes)
    ensures ReadStrings(data, count, []).Ok? <==> r.Ok?
    ensures r.Ok? ==> ReadStrings(data, count, []) == Ok((r.value, rest))
    ensures r.Err? ==> r.error == UnicodeDecodeError
  {
    var d := data;
    var files: seq<string> := [];
    var left: nat := count;
    while left > 0
      invariant ReadStrings(d, left, files) == ReadStrings(data, count, [])
    {
      var n := FromLE(Take(d, 2));
      d := Drop(d, 2);
      var text := Decode(Take(d, n));
      if text.Err? {
        return Err(text.error), d;
      }
      files := files + [text.value];
      d := Drop(d, n);
      left := left - 1;
    }
    return Ok(files), d;
  }

  /** The instruction loop of load: each record is kept as raw bytes. */
  method LoadChunks(data: bytes, count: nat) returns (chunks: seq<bytes>, rest: bytes)
    ensures ReadChunks(data, count, []) == (chunks, rest)
  {
    var d := data;
    chunks := [];
    var left: nat := count;
    while left > 0
      invariant ReadChunks(d, left, chunks) == ReadChunks(data, count, [])
    {
      var n := FromLE(Take(d, 2));
      d := Drop(d, 2);
      chunks := chunks + [Take(d, n)];
      d := Drop(d, n);
      left := left - 1;
    }
    rest := d;
  }

  /** The buffer built section by section is the image DumpsData describes. */
  lemma DumpsLayout(p: ProgramData, header: bytes, labelPart: bytes, includePart: bytes, data: bytes)
    requires CanDump(p)
    requires header == Magic + LE(p.instMem, 4) + LE(p.dataMem, 4) + LE(p.nGPR, 4) + LE(p.stackSize, 4)
      + LE(p.compilationTime, 8)
    requires labelPart == header + LE(|p.labels|, 4) + LabelsBytes(p.labels)
    requires includePart == labelPart + LE(|p.includeFile|, 4) + StringsBytes(p.includeFile)
    requires data == includePart + LE(|p.instructions|, 4) + ChunksBytes(p.instructions)
    ensures DumpsData(p) == Ok(data)
  {
    var t9 := LE(|p.instructions|, 4) + ChunksBytes(p.instructions);
    var t8 := StringsBytes(p.includeFile) + t9;
    var t7 := LE(|p.includeFile|, 4) + t8;
    var t6 := LabelsBytes(p.labels) + t7;
    var t5 := LE(|p.labels|, 4) + t6;
    var t4 := LE(p.compilationTime, 8) + t5;
    var t3 := LE(p.stackSize, 4) + t4;
    var t2 := LE(p.nGPR, 4) + t3;
    var t1 := LE(p.dataMem, 4) + t2;
    var t0 := LE(p.instMem, 4) + t1;
    Assoc3(includePart, LE(|p.instructions|, 4), ChunksBytes(p.instructions));
    Assoc4(labelPart, LE(|p.includeFile|, 4), StringsBytes(p.includeFile), t9);
    Assoc4(header, LE(|p.labels|, 4), LabelsBytes(p.labels), t7);
    var h4 := Magic + LE(p.instMem, 4) + LE(p.dataMem, 4) + LE(p.nGPR, 4) + LE(p.stackSize, 4);
    Assoc3(h4, LE(p.compilationTime, 8), t5);
    var h3 := Magic + LE(p.instMem, 4) + LE(p.dataMem, 4) + LE(p.nGPR, 4);
    Assoc3(h3, LE(p.stackSize, 4), t4);
    var h2 := Magic + LE(p.instMem, 4) + LE(p.dataMem, 4);
    Assoc3(h2, LE(p.nGPR, 4), t3);
    Assoc3(Magic + LE(p.instMem, 4), LE(p.dataMem, 4), t2);
    Assoc3(Magic, LE(p.instMem, 4), t1);
    assert data == Magic + t0;
  }

  lemma Assoc3(a: bytes, b: bytes, c: bytes)
    ensures a + b + c == a + (b + c)
  {
  }

  lemma Assoc4(a: bytes, b: bytes, c: bytes, d: bytes)
    ensures a + b + c + d == a + (b + (c + d))
  {
  }
}
