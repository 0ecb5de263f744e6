/**
 * The two classes of asimc/parser.py that hold state. CodeParser runs the line
 * assembler of module Assembler over a list of lines, updating its line
 * counter, its Program and its LRUCache in place. Parser splits the source text
 * into contiguous partitions, assembles each with a fresh CodeParser (one worker
 * process per partition) and folds the partial programs into its own Program in
 * partition order.
 */
module Parsers {
  import opened Errors
  import opened Bytes
  import opened Text
  import opened Isa
  import opened OrderedDicts
  import opened Lru
  import opened Programs
  import opened Assembler

  // ---------------------------------------------------------------- CodeParser

  class CodeParser {
    var line: int
    const out: Program
    const cache: LRUCache<string, bytes>
    /** The .include_zstd loader (base85, zstd, pickle), a parameter of the model. */
    const precompiled: string -> Result<seq<bytes>>

    /** The line counter, the program built so far and the cache entries, as a value. */
    function State(): ParserState
      reads this, out, cache
    {
      ParserState(line, out.Value(), cache.entries)
    }

    /** CodeParser(): line 0, Program() and LRUCache(128). */
    constructor (time: int, precompiled: string -> Result<seq<bytes>>)
      ensures State() == Fresh(time) && cache.capacity == CacheCapacity && cache.Valid()
      ensures this.precompiled == precompiled && fresh(out) && fresh(cache)
    {
      line := 0;
      out := new Program(time);
      cache := new LRUCache(CacheCapacity);
      this.precompiled := precompiled;
    }

    /** parsern_operand: the loop over at most the first three tokens, each classified
        by ParseOperand. */
    method ParsernOperand(operands: seq<string>) returns (r: Result<seq<Operand>>)
      ensures r == Operands(operands[..Min(3, |operands|)], out.Value(), line)
    {
      var p, n := out.Value(), line;
      var classify := op => ParseOperand(op, p, n);
      r := YieldOperands(operands, classify);
      OperandsByClassifier(operands[..Min(3, |operands|)], p, n, classify);
    }

    /** inc_zstd: the instructions of the precompiled program named by the third token
        are appended; a missing token raises IndexError. */
    method IncZstd(tokens: seq<string>) returns (r: Result<()>)
      modifies out
      ensures |tokens| < 3 ==> r == Err(IndexError) && out.Value() == old(out.Value())
      ensures |tokens| >= 3 && precompiled(tokens[2]).Ok? ==>
        r == Ok(()) &&
        out.Value() == old(out.Value()).(instructions := old(out.instructions) + precompiled(tokens[2]).value)
      ensures |tokens| >= 3 && precompiled(tokens[2]).Err? ==>
        r == Err(precompiled(tokens[2]).error) && out.Value() == old(out.Value())
    {
      if |tokens| < 3 {
        return Err(IndexError);
      }
      var more :- precompiled(tokens[2]);
      out.instructions := out.instructions + more;
      r := Ok(());
    }

    /** config_inst: an empty token list is ignored; otherwise the directive is applied
        to the program, or its error is raised with the program untouched. */
    method ConfigInst(tokens: seq<string>) returns (r: Result<()>)
      modifies out
      ensures tokens == [] ==> r == Ok(()) && out.Value() == old(out.Value())
      ensures tokens != [] ==> var c := Configure(old(out.Value()), tokens, line, precompiled);
        (c.Ok? ==> r == Ok(()) && out.Value() == c.value) &&
        (c.Err? ==> r == Err(c.error) && out.Value() == old(out.Value()))
    {
      if |tokens| < 1 {
        return Ok(());
      }
      var name := tokens[0];
      if name == ".data_mem" || name == ".n_GPR" || name == ".stack_size" || name == ".inst_mem" {
        if |tokens| < 2 {
          return Err(IndexError);
        }
        var v :- ParseInt(tokens[1]);
        if name == ".data_mem" {
          out.dataMem := v;
        } else if name == ".n_GPR" {
          out.nGPR := v;
        } else if name == ".stack_size" {
          out.stackSize := v;
        } else {
          out.instMem := v;
        }
      } else if name == ".include_zstd" {
        if |tokens| < 2 {
          return Err(IndexError);
        }
        r := IncZstd(tokens);
        return;
      } else if name == ".include_file" {
        if |tokens| < 2 {
          return Err(IndexError);
        }
      } else {
        return Err(GrammarError(line));
      }
      r := Ok(());
    }

    /** parser_l: a label or directive updates the program and yields nothing, an
        instruction yields its packed bytes; on an error the program is untouched. */
    method ParserL(l: string) returns (r: Result<Option<bytes>>)
      modifies out
      ensures var e := ParseLine(old(out.Value()), line, l, precompiled);
        (e.Ok? ==> r == Ok(e.value.1) && out.Value() == e.value.0) &&
        (e.Err? ==> r == Err(e.error) && out.Value() == old(out.Value()))
    {
      var text := Before(l, ';');
      var tokens := Split(text, ' ');
      if text == "" {
        return Ok(None);
      }
      if StartsWith(text, "#") {
        var name := Strip(text[1..]);
        if Contains(out.labels, name) {
          return Err(GrammarError(line));
        }
        out.labels := Set(out.labels, name, |out.instructions|);
        return Ok(None);
      }
      if StartsWith(text, ".") {
        var c := ConfigInst(tokens);
        if c.Err? {
          return Err(c.error);
        }
        return Ok(None);
      }
      var opcode :- FindInst(tokens[0], line);
      var ops :- ParsernOperand(tokens[1..]);
      var inst := MakeInstruction(opcode, ops);
      var packed :- Pack(inst);
      PackLayout(inst);
      r := Ok(Some(packed));
    }

    /** One iteration of parser(code): strip, skip blank lines, take the bytes from the
        cache when get finds them, else parse the line; append the bytes when non-empty
        and count the line. */
    method FeedLine(raw: string) returns (r: Result<()>)
      requires cache.capacity == CacheCapacity && cache.Valid()
      modifies this, out, cache
      ensures cache.Valid()
      ensures var e := Feed(old(State()), raw, Assembler.Parser(precompiled));
        (r.Ok? <==> e.Ok?) && (e.Ok? ==> State() == e.value) && (e.Err? ==> r.error == e.error)
    {
      var l := Strip(raw);
      if l == "" {
        return Ok(());
      }
      ghost var before := State();
      var res := cache.Get(l);
      if res.None? {
        r := Miss(l);
      } else {
        if res.value != [] {
          out.instructions := out.instructions + [res.value];
        }
        line := line + 1;
        assert State() == Reuse(before, l);
        r := Ok(());
      }
    }

    /** The miss branch: get returned -1, so parser_l runs; non-empty bytes are put in
        the cache and appended. */
    method Miss(l: string) returns (r: Result<()>)
      requires cache.capacity == CacheCapacity && cache.Valid()
      modifies this, out, cache
      ensures cache.Valid()
      ensures var e := ParseMiss(old(State()), l, Assembler.Parser(precompiled));
        (r.Ok? <==> e.Ok?) && (e.Ok? ==> State() == e.value) && (e.Err? ==> r.error == e.error)
    {
      var result :- ParserL(l);
      if result.Some? && result.value != [] {
        var put := cache.Put(l, result.value);
        out.instructions := out.instructions + [result.value];
      }
      line := line + 1;
      r := Ok(());
    }

    /** parser(code): every line in order; the first error ends the run. */
    method Parse(code: seq<string>) returns (r: Result<()>)
      requires cache.capacity == CacheCapacity && cache.Valid()
      modifies this, out, cache
      ensures cache.Valid()
      ensures var e := ParseAll(old(State()), code, Assembler.Parser(precompiled));
        (r.Ok? <==> e.Ok?) && (e.Ok? ==> State() == e.value) && (e.Err? ==> r.error == e.error)
    {
      var i := 0;
      while i < |code|
        invariant 0 <= i <= |code| && cache.Valid()
        invariant ParseAll(old(State()), code, Assembler.Parser(precompiled)) == ParseAll(State(), code[i..], Assembler.Parser(precompiled))
      {
        ghost var before := State();
        var step := FeedLine(code[i]);
        ParseAllStep(before, code, i, Assembler.Parser(precompiled));
        if step.Err? {
          return Err(step.error);
        }
        i := i + 1;
      }
      r := Ok(());
    }
  }

  /** The operands a classifier yields for a list of tokens, in order; a token it maps
      to None yields nothing, the first error ends the list. */
  function Yield(tokens: seq<string>, classify: string -> Result<Option<Operand>>): (r: Result<seq<Operand>>)
    ensures r.Ok? ==> |r.value| <= |tokens|
  {
    if tokens == [] then Ok([])
    else
      var o :- classify(tokens[0]);
      var rest :- Yield(tokens[1..], classify);
      Ok(OptionSeq(o) + rest)
  }

  /** The for loop of parsern_operand: `range(0, 3)`, stopping at the last token; a
      skipped token `continue`s, any other is yielded. */
  method YieldOperands(operands: seq<string>, classify: string -> Result<Option<Operand>>)
    returns (r: Result<seq<Operand>>)
    ensures r == Yield(operands[..Min(3, |operands|)], classify)
  {
    ghost var all := operands[..Min(3, |operands|)];
    var found: seq<Operand> := [];
    var i := 0;
    assert all[0..] == all;
    PrefixedEmpty(Yield(all, classify));
    while i < 3 && i < |operands|
      invariant 0 <= i <= Min(3, |operands|)
      invariant Yield(all, classify) == Prefixed(found, Yield(all[i..], classify))
    {
      var o := classify(operands[i]);
      assert all[i..][0] == operands[i] && all[i..][1..] == all[i + 1..];
      if o.Err? {
        assert Yield(all[i..], classify) == Err(o.error);
        return Err(o.error);
      }
      PrefixedAppend(found, OptionSeq(o.value), Yield(all[i + 1..], classify));
      found := found + OptionSeq(o.value);
      i := i + 1;
    }
    assert all[i..] == [] && found + [] == found;
    r := Ok(found);
  }

  /** With ParseOperand as the classifier, the loop yields what Operands states. */
  lemma {:induction false} OperandsByClassifier(tokens: seq<string>, p: ProgramData, line: int,
    classify: string -> Result<Option<Operand>>)
    requires forall op :: classify(op) == ParseOperand(op, p, line)
    ensures Yield(tokens, classify) == Operands(tokens, p, line)
  {
    if tokens != [] {
      OperandsByClassifier(tokens[1..], p, line, classify);
    }
  }

  /** found + the operands of a Result, or its error. */
  function Prefixed(found: seq<Operand>, r: Result<seq<Operand>>): Result<seq<Operand>> {
    if r.Ok? then Ok(found + r.value) else r
  }

  lemma PrefixedEmpty(r: Result<seq<Operand>>)
    ensures Prefixed([], r) == r
  {
    if r.Ok? {
      assert [] + r.value == r.value;
    }
  }

  lemma PrefixedAppend(found: seq<Operand>, o: seq<Operand>, rest: Result<seq<Operand>>)
    ensures Prefixed(found, Prefixed(o, rest)) == Prefixed(found + o, rest)
  {
    if rest.Ok? {
      assert found + (o + rest.value) == found + o + rest.value;
    }
  }

  /** Running the loop from line i is one Feed then the run from line i + 1. */
  lemma ParseAllStep(s: ParserState, lines: seq<string>, i: int, parse: LineParser)
    requires 0 <= i < |lines|
    ensures ParseAll(s, lines[i..], parse) ==
      match Feed(s, lines[i], parse)
      case Ok(s1) => ParseAll(s1, lines[i + 1..], parse)
      case Err(e) => Err(e)
  {
    assert lines[i..][0] == lines[i] && lines[i..][1..] == lines[i + 1..];
  }

  // ---------------------------------------------------------------- divide_list

  /** The size divide_list gives part i: k = len / n, one more while i < m = len % n. */
  function Size(k: nat, m: int, i: nat): nat {
    k + (if i < m then 1 else 0)
  }

  /** count parts of divide_list from part i on, cut from the front of lst; like a
      Python slice, a part stops at the end of the list. */
  function Parts<T>(lst: seq<T>, k: nat, m: int, i: nat, count: nat): (r: seq<seq<T>>)
    ensures |r| == count
    decreases count
  {
    if count == 0 then []
    else
      var end := Min(Size(k, m, i), |lst|);
      [lst[..end]] + Parts(lst[end..], k, m, i + 1, count - 1)
  }

  /** divide_list(lst, n): divmod by zero raises ZeroDivisionError; range(n) is empty
      for n < 0. */
  function Divide<T>(lst: seq<T>, n: int): (r: Result<seq<seq<T>>>)
    ensures r.Err? <==> n == 0
    ensures r.Err? ==> r.error == ZeroDivisionError
    ensures r.Ok? ==> |r.value| == if n < 0 then 0 else n
  {
    if n == 0 then Err(ZeroDivisionError)
    else if n < 0 then Ok([])
    else Ok(Parts(lst, |lst| / n, |lst| % n, 0, n))
  }

  /** The parts joined back together, in order. */
  function Concat<T>(parts: seq<seq<T>>): seq<T> {
    if parts == [] then [] else parts[0] + Concat(parts[1..])
  }

  /** The elements count parts from part i on ask for. */
  function Needed(k: nat, m: int, i: nat, count: nat): nat
    decreases count
  {
    if count == 0 then 0 else Size(k, m, i) + Needed(k, m, i + 1, count - 1)
  }

  lemma {:induction false} NeededClosed(k: nat, m: int, i: nat, count: nat)
    ensures Needed(k, m, i, count) ==
      count * k + (if m <= i then 0 else if m >= i + count then count else m - i)
    decreases count
  {
    if count > 0 {
      NeededClosed(k, m, i + 1, count - 1);
      assert count * k == k + (count - 1) * k;
    }
  }

  /** Parts that ask for exactly the list's length are, joined, the list, and part j
      has the size Size gives it. */
  lemma {:induction false} PartsCover<T>(lst: seq<T>, k: nat, m: int, i: nat, count: nat)
    requires Needed(k, m, i, count) == |lst|
    ensures Concat(Parts(lst, k, m, i, count)) == lst
    ensures forall j :: 0 <= j < count ==> |Parts(lst, k, m, i, count)[j]| == Size(k, m, i + j)
    decreases count
  {
    if count > 0 {
      var size := Size(k, m, i);
      var parts := Parts(lst, k, m, i, count);
      PartsCover(lst[size..], k, m, i + 1, count - 1);
      assert parts[1..] == Parts(lst[size..], k, m, i + 1, count - 1);
      assert lst == lst[..size] + lst[size..];
      forall j | 1 <= j < count
        ensures |parts[j]| == Size(k, m, i + j)
      {
        assert parts[j] == parts[1..][j - 1];
      }
    }
  }

  /** divide_list(lst, n) for n > 0 makes exactly n parts that together are the whole
      list, in order; the first len % n parts hold len / n + 1 elements, the others len / n. */
  lemma DivideParts<T>(lst: seq<T>, n: int)
    requires n > 0
    ensures |Divide(lst, n).value| == n
    ensures Concat(Divide(lst, n).value) == lst
    ensures forall i :: 0 <= i < n ==> |Divide(lst, n).value[i]| == Size(|lst| / n, |lst| % n, i)
  {
    NeededClosed(|lst| / n, |lst| % n, 0, n);
    PartsCover(lst, |lst| / n, |lst| % n, 0, n);
  }

  /** One part is the list itself. */
  lemma DivideOne<T>(lst: seq<T>)
    ensures Divide(lst, 1) == Ok([lst])
  {
    assert |lst| / 1 == |lst| && |lst| % 1 == 0;
    assert lst[..|lst|] == lst;
    assert Parts(lst[|lst|..], |lst|, 0, 1, 0) == [];
    assert Parts(lst, |lst|, 0, 0, 1) == [lst];
  }

  /** One iteration of the divide_list loop takes the next part off what is left. */
  lemma PartsStep<T>(lst: seq<T>, k: nat, m: int, start: nat, i: nat, count: nat, parts: seq<seq<T>>)
    requires count > 0
    ensures parts + Parts(lst[Min(start, |lst|)..], k, m, i, count) ==
      (parts + [lst[Min(start, |lst|)..Min(start + Size(k, m, i), |lst|)]]) +
        Parts(lst[Min(start + Size(k, m, i), |lst|)..], k, m, i + 1, count - 1)
  {
    SliceStep(lst, start, Size(k, m, i));
    var rest := lst[Min(start, |lst|)..];
    var part := lst[Min(start, |lst|)..Min(start + Size(k, m, i), |lst|)];
    assert Parts(rest, k, m, i, count) == [part] + Parts(lst[Min(start + Size(k, m, i), |lst|)..], k, m, i + 1, count - 1);
  }

  /** One step of the divide_list loop: slicing [start:start + size] of the list is taking
      size elements from what follows start. */
  lemma SliceStep<T>(lst: seq<T>, start: nat, size: nat)
    ensures var rest := lst[Min(start, |lst|)..];
      lst[Min(start, |lst|)..Min(start + size, |lst|)] == rest[..Min(size, |rest|)] &&
      lst[Min(start + size, |lst|)..] == rest[Min(size, |rest|)..]
  {
  }

  // ---------------------------------------------------------------- Parser.parser

  /** handler(part, n): a fresh CodeParser over one partition; its program is the result. */
  function Handle(part: seq<string>, time: int, pre: string -> Result<seq<bytes>>): (r: Result<ProgramData>)
  {
    var s :- ParseAll(Fresh(time), part, Assembler.Parser(pre));
    Ok(s.out)
  }

  /** The handler every worker runs, as a value. */
  function Handlers(time: int, pre: string -> Result<seq<bytes>>): seq<string> -> Result<ProgramData> {
    part => Handle(part, time, pre)
  }

  /** future.result() in submission order: every partition's program, or the error of
      the first partition that failed. */
  function HandleAll(parts: seq<seq<string>>, handle: seq<string> -> Result<ProgramData>)
    : (r: Result<seq<ProgramData>>)
    ensures r.Ok? ==> |r.value| == |parts|
  {
    if parts == [] then Ok([])
    else
      var init :- HandleAll(parts[..|parts| - 1], handle);
      var last :- handle(parts[|parts| - 1]);
      Ok(init + [last])
  }

  /** self.out = self.out + out for every partition's program, in partition order. */
  function MergeAll(base: ProgramData, outs: seq<ProgramData>): (r: ProgramData)
    ensures r.compilationTime == base.compilationTime
    ensures outs != [] ==> r.nGPR == outs[|outs| - 1].nGPR && r.stackSize == outs[|outs| - 1].stackSize
    ensures outs != [] ==> r.dataMem == outs[|outs| - 1].dataMem && r.instMem == outs[|outs| - 1].instMem
  {
    if outs == [] then base else Merge(MergeAll(base, outs[..|outs| - 1]), outs[|outs| - 1])
  }

  /** Parser.parser() with handle run on each partition: split the text on newlines,
      use min(workers, #lines) processes (a pool of at most zero workers raises
      ValueError; the split never yields zero lines), assemble the partitions and merge
      their programs into the parser's own. */
  function Assemble(base: ProgramData, code: string, workers: int, handle: seq<string> -> Result<ProgramData>)
    : (r: Result<ProgramData>)
    ensures workers <= 0 ==> r == Err(ValueError)
  {
    var lines := Split(code, '\n');
    var num := Min(workers, |lines|);
    if num <= 0 then Err(ValueError)
    else
      var outs :- HandleAll(Divide(lines, num).value, handle);
      Ok(MergeAll(base, outs))
  }

  /** The partitions' results: all of them when every partition assembles, otherwise
      the error of the first partition that fails, all earlier ones having succeeded. */
  lemma {:induction false} HandleAllResults(parts: seq<seq<string>>, handle: seq<string> -> Result<ProgramData>)
    ensures var r := HandleAll(parts, handle);
      r.Ok? ==> forall i :: 0 <= i < |parts| ==> handle(parts[i]) == Ok(r.value[i])
    ensures var r := HandleAll(parts, handle);
      r.Err? ==> exists i :: FirstFailure(parts, handle, i, r.error)
  {
    if parts != [] {
      var init := parts[..|parts| - 1];
      HandleAllResults(init, handle);
      var r := HandleAll(parts, handle);
      var ri := HandleAll(init, handle);
      if ri.Err? {
        var i :| FirstFailure(init, handle, i, ri.error);
        assert forall j :: 0 <= j <= i ==> parts[j] == init[j];
        assert FirstFailure(parts, handle, i, r.error);
      } else if r.Err? {
        var i := |parts| - 1;
        assert forall j :: 0 <= j < i ==> parts[j] == init[j];
        assert FirstFailure(parts, handle, i, r.error);
      } else {
        forall i | 0 <= i < |parts|
          ensures handle(parts[i]) == Ok(r.value[i])
        {
          if i < |parts| - 1 {
            assert parts[i] == init[i];
          }
        }
      }
    }
  }

  /** Partition i fails with e and every earlier partition succeeds. */
  predicate FirstFailure(parts: seq<seq<string>>, handle: seq<string> -> Result<ProgramData>, i: int, e: Error) {
    0 <= i < |parts| && handle(parts[i]) == Err(e) && forall j :: 0 <= j < i ==> handle(parts[j]).Ok?
  }

  /** A failed prefix of partitions fails the whole run with the same error. */
  lemma {:induction false} HandleAllPrefix(parts: seq<seq<string>>, n: nat, handle: seq<string> -> Result<ProgramData>)
    requires n <= |parts| && HandleAll(parts[..n], handle).Err?
    ensures HandleAll(parts, handle) == HandleAll(parts[..n], handle)
    decreases |parts| - n
  {
    if n < |parts| {
      assert parts[..n + 1][..n] == parts[..n];
      HandleAllPrefix(parts, n + 1, handle);
    } else {
      assert parts[..n] == parts;
    }
  }

  /** Every partition's instructions, in partition order. */
  function AllInstructions(outs: seq<ProgramData>): seq<bytes> {
    if outs == [] then [] else AllInstructions(outs[..|outs| - 1]) + outs[|outs| - 1].instructions
  }

  /** The merged program holds the base's instructions, then each partition's in order. */
  lemma {:induction false} MergeAllInstructions(base: ProgramData, outs: seq<ProgramData>)
    ensures MergeAll(base, outs).instructions == base.instructions + AllInstructions(outs)
  {
    if outs != [] {
      MergeAllInstructions(base, outs[..|outs| - 1]);
    }
  }

  /** With at least one worker the lines are cut into min(workers, #lines) contiguous
      partitions that together are all the lines; the run succeeds exactly when every
      partition does, and then holds the base's instructions followed by each
      partition's, in order. */
  lemma AssembleParts(base: ProgramData, code: string, workers: int, handle: seq<string> -> Result<ProgramData>)
    requires workers > 0
    ensures var lines := Split(code, '\n');
      var parts := Divide(lines, Min(workers, |lines|)).value;
      |parts| == Min(workers, |lines|) && Concat(parts) == lines &&
      (Assemble(base, code, workers, handle).Ok? <==> HandleAll(parts, handle).Ok?) &&
      (Assemble(base, code, workers, handle).Ok? ==>
        Assemble(base, code, workers, handle).value.instructions ==
          base.instructions + AllInstructions(HandleAll(parts, handle).value))
  {
    var lines := Split(code, '\n');
    var parts := Divide(lines, Min(workers, |lines|)).value;
    DivideParts(lines, Min(workers, |lines|));
    if HandleAll(parts, handle).Ok? {
      MergeAllInstructions(base, HandleAll(parts, handle).value);
    }
  }

  /** With a single worker the run is the handler on all lines, merged into the parser's
      program; for the workers' CodeParser (Handlers) that is CodeParser.parser over the
      whole text. */
  lemma SingleWorker(base: ProgramData, code: string, handle: seq<string> -> Result<ProgramData>)
    ensures var e := handle(Split(code, '\n'));
      Assemble(base, code, 1, handle) == if e.Ok? then Ok(Merge(base, e.value)) else Err(e.error)
  {
    var lines := Split(code, '\n');
    DivideOne(lines);
    assert [lines][..0] == [];
    var e := handle(lines);
    var parts := [lines];
    assert parts[..|parts| - 1] == [] && parts[|parts| - 1] == lines;
    if e.Ok? {
      assert HandleAll(parts, handle) == Ok([] + [e.value]);
      assert [] + [e.value] == [e.value] && [e.value][..0] == [];
      assert MergeAll(base, [e.value]) == Merge(base, e.value);
    } else {
      assert HandleAll(parts, handle) == Err(e.error);
    }
  }

  class Parser {
    const code: string
    const worker: int
    var out: Program

    /** Parser(code, max_worker). */
    constructor (code: string, maxWorker: int, time: int)
      ensures this.code == code && worker == maxWorker
      ensures fresh(out) && out.Value() == Default(time)
    {
      this.code := code;
      worker := maxWorker;
      out := new Program(time);
    }

    /** divide_list(lst, num_parts): consecutive slices, the first len % num_parts of
        them one element longer. */
    method DivideList<T>(lst: seq<T>, numParts: int) returns (r: Result<seq<seq<T>>>)
      ensures r == Divide(lst, numParts)
    {
      if numParts == 0 {
        return Err(ZeroDivisionError);
      }
      if numParts < 0 {
        return Ok([]);
      }
      var k: nat, m: nat := |lst| / numParts, |lst| % numParts;
      var parts: seq<seq<T>> := [];
      var start: nat := 0;
      assert lst[Min(0, |lst|)..] == lst;
      for i := 0 to numParts
        invariant Parts(lst, k, m, 0, numParts) == parts + Parts(lst[Min(start, |lst|)..], k, m, i, numParts - i)
      {
        var size := k + (if i < m then 1 else 0);
        var end := start + size;
        PartsStep(lst, k, m, start, i, numParts - i, parts);
        parts := parts + [lst[Min(start, |lst|)..Min(end, |lst|)]];
        start := end;
      }
      assert Parts(lst[Min(start, |lst|)..], k, m, numParts, 0) == [];
      assert parts + [] == parts;
      r := Ok(parts);
    }

    /** handler(code, n): a fresh CodeParser assembles one partition; what goes back to
        the parent process is a copy of its program (pickled) and the index. */
    method Handler(part: seq<string>, n: int, time: int, pre: string -> Result<seq<bytes>>)
      returns (r: Result<(ProgramData, int)>)
      ensures r.Ok? <==> Handle(part, time, pre).Ok?
      ensures r.Ok? ==> r.value == (Handle(part, time, pre).value, n)
      ensures r.Err? ==> r.error == Handle(part, time, pre).error
    {
      var parser := new CodeParser(time, pre);
      var e := parser.Parse(part);
      if e.Err? {
        return Err(e.error);
      }
      r := Ok((parser.out.Value(), n));
    }

    /** parser(), with handle standing for handler run in a worker process: the
        partitions' programs are collected in submission order (the first failure is
        raised), unpickled into fresh Program objects in index order and added to the
        parser's program one by one; a failure leaves the program as it was. */
    method Run(handle: seq<string> -> Result<ProgramData>) returns (r: Result<()>)
      modifies this, out
      ensures out == old(out)
      ensures var e := Assemble(old(out.Value()), code, worker, handle);
        (r.Ok? <==> e.Ok?) && (e.Ok? ==> out.Value() == e.value) &&
        (e.Err? ==> r.error == e.error && out.Value() == old(out.Value()))
    {
      var lines := Split(code, '\n');
      var num := Min(worker, |lines|);
      if num <= 0 {
        return Err(ValueError);
      }
      var parts := DivideList(lines, num);
      var results: seq<ProgramData> := [];
      for n := 0 to |parts.value|
        invariant HandleAll(parts.value[..n], handle) == Ok(results)
      {
        var h := handle(parts.value[n]);
        assert parts.value[..n + 1][..n] == parts.value[..n];
        if h.Err? {
          HandleAllPrefix(parts.value, n + 1, handle);
          return Err(h.error);
        }
        results := results + [h.value];
      }
      assert parts.value[..|parts.value|] == parts.value;
      for j := 0 to |results|
        invariant out == old(out)
        invariant out.Value() == MergeAll(old(out.Value()), results[..j])
      {
        assert results[..j + 1][..j] == results[..j];
        var copy := new Program.Loaded(results[j]);
        out := out.Add(copy);
      }
      assert results[..|results|] == results;
      r := Ok(());
    }
  }
}
