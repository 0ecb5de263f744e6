/**
 * The assembler of asimc/parser.py: CodeParser reads source lines one at a
 * time, records labels and directives in its Program, packs instruction
 * lines, and memoises packed lines in an LRUCache keyed by the stripped line.
 */
module Assembler {
  import opened Errors
  import opened Bytes
  import opened Text
  import opened Isa
  import opened OrderedDicts
  import opened Lru
  import opened Programs

  /** CodeParser's LRUCache(128). */
  const CacheCapacity := 128

  function Min(a: int, b: int): int { if a <= b then a else b }

  // ------------------------------------------------------------ one line

  /** find_inst: the mnemonic, upper-cased, must name an InstructionSet member. */
  function FindInst(name: string, line: int): (r: Result<Opcode>)
    ensures r.Ok? ==> Name(r.value) == Upper(name)
    ensures r.Err? ==> r.error == GrammarError(line)
  {
    match OpcodeNamed(Upper(name))
    case Some(op) => Ok(op)
    case None => Err(GrammarError(line))
  }

  /** `#name` as written: labels.get(name) is used only when it is truthy, so a
      label defined at instruction index 0 is reported as nonexistent. */
  function LabelAsWritten(labels: Dict<string, int>, name: string, line: int): (r: Result<int>)
    ensures r.Ok? ==> OrderedDicts.Get(labels, name) == Some(r.value) && r.value != 0
    ensures r.Err? ==> r.error == GrammarError(line)
  {
    match OrderedDicts.Get(labels, name)
    case Some(n) => if n != 0 then Ok(n) else Err(GrammarError(line))
    case None => Err(GrammarError(line))
  }

  /** `#name` as evidently intended: the index of any defined label. */
  function LabelValue(labels: Dict<string, int>, name: string, line: int): (r: Result<int>)
    ensures r.Ok? <==> Contains(labels, name)
    ensures r.Ok? ==> OrderedDicts.Get(labels, name) == Some(r.value)
    ensures r.Err? ==> r.error == GrammarError(line)
  {
    match OrderedDicts.Get(labels, name)
    case Some(n) => Ok(n)
    case None => Err(GrammarError(line))
  }

  /** int(text, 16) when text starts with 0x, int(text) otherwise. */
  function ParseAddress(text: string): (r: Result<int>)
    ensures r.Err? ==> r.error == ValueError
  {
    if StartsWith(text, "0x") then ParseHex(text) else ParseInt(text)
  }

  /** One operand token of parsern_operand: None for a token it skips. */
  function ParseOperand(op: string, p: ProgramData, line: int): (r: Result<Option<Operand>>)
    ensures r.Ok? && r.value.Some? && r.value.value.kind == Register ==> 0 <= r.value.value.value < p.nGPR
    ensures r.Err? ==> r.error == ValueError || r.error == GrammarError(line)
  {
    if op == "" then Ok(None)
    else if StartsWith(op, "&") then
      var v :- ParseAddress(op[1..]);
      Ok(Some(Operand(v, Memory)))
    else if StartsWith(op, "r_") then
      var text := op[2..];
      if IsDigits(text) then
        var v :- ParseInt(text);
        DigitsNonNegative(text);
        if v >= p.nGPR then Err(GrammarError(line)) else Ok(Some(Operand(v, Register)))
      else Err(GrammarError(line))
    else if IsDigits(op) then
      var v :- ParseInt(op);
      Ok(Some(Operand(v, Number)))
    else if StartsWith(op, "0x") then
      var v :- ParseHex(op);
      Ok(Some(Operand(v, Number)))
    else if StartsWith(op, ";") then Ok(None)
    else if StartsWith(op, "#") then
      var v :- LabelAsWritten(p.labels, op[1..], line);
      Ok(Some(Operand(v, Number)))
    else Err(GrammarError(line))
  }

  /** An operand token as evidently intended: `#name` resolves through LabelValue, so a
      label at index 0 is accepted; every other token parses as ParseOperand does. */
  function IntendedOperand(op: string, p: ProgramData, line: int): (r: Result<Option<Operand>>)
    ensures StartsWith(op, "#") && Contains(p.labels, op[1..]) ==>
      r == Ok(Some(Operand(OrderedDicts.Get(p.labels, op[1..]).value, Number)))
  {
    if StartsWith(op, "#") then
      var v :- LabelValue(p.labels, op[1..], line);
      Ok(Some(Operand(v, Number)))
    else ParseOperand(op, p, line)
  }

  function OptionSeq<T>(o: Option<T>): (s: seq<T>)
    ensures |s| <= 1
  {
    if o.Some? then [o.value] else []
  }

  /** The operands a list of tokens yields, in order; the first error wins. */
  function Operands(tokens: seq<string>, p: ProgramData, line: int): (r: Result<seq<Operand>>)
    ensures r.Ok? ==> |r.value| <= |tokens|
    ensures r.Err? ==> r.error == ValueError || r.error == GrammarError(line)
  {
    if tokens == [] then Ok([])
    else
      var o :- ParseOperand(tokens[0], p, line);
      var rest :- Operands(tokens[1..], p, line);
      Ok(OptionSeq(o) + rest)
  }

  /** Instruction(opcode, *operands): the operands fill source, target, parameter in order. */
  function MakeInstruction(op: Opcode, ops: seq<Operand>): (i: Instruction)
    requires |ops| <= 3
    ensures Present(i) == ops
  {
    Instruction(op,
      if |ops| > 0 then Some(ops[0]) else None,
      if |ops| > 1 then Some(ops[1]) else None,
      if |ops| > 2 then Some(ops[2]) else None)
  }

  /** An instruction line: the mnemonic, then at most three operand tokens, packed. */
  function AssembleInstruction(p: ProgramData, line: int, tokens: seq<string>): (r: Result<bytes>)
    requires |tokens| >= 1
    ensures r.Ok? ==> |r.value| >= 1
  {
    var opcode :- FindInst(tokens[0], line);
    var rest := tokens[1..];
    var ops :- Operands(rest[..Min(3, |rest|)], p, line);
    var packed :- Pack(MakeInstruction(opcode, ops));
    PackLayout(MakeInstruction(opcode, ops));
    Ok(packed)
  }

  /** config_inst: a directive. Every branch formats its argument into a log message
      first, so a missing argument raises IndexError. */
  function Configure(p: ProgramData, tokens: seq<string>, line: int, precompiled: string -> Result<seq<bytes>>)
    : (r: Result<ProgramData>)
    requires |tokens| >= 1
    ensures r.Ok? ==> r.value.labels == p.labels
  {
    var name := tokens[0];
    if name == ".data_mem" || name == ".n_GPR" || name == ".stack_size" || name == ".inst_mem" then
      if |tokens| < 2 then Err(IndexError)
      else
        var v :- ParseInt(tokens[1]);
        Ok(if name == ".data_mem" then p.(dataMem := v)
           else if name == ".n_GPR" then p.(nGPR := v)
           else if name == ".stack_size" then p.(stackSize := v)
           else p.(instMem := v))
    else if name == ".include_zstd" then
      if |tokens| < 3 then Err(IndexError)
      else
        var more :- precompiled(tokens[2]);
        Ok(p.(instructions := p.instructions + more))
    else if name == ".include_file" then
      if |tokens| < 2 then Err(IndexError) else Ok(p)
    else Err(GrammarError(line))
  }

  /** parser_l on a stripped line: the text before the first ';', split on spaces.
      A label or directive updates the program and yields nothing; an instruction
      yields its packed bytes and leaves the program as it is. */
  function ParseLine(p: ProgramData, line: int, l: string, precompiled: string -> Result<seq<bytes>>)
    : (r: Result<(ProgramData, Option<bytes>)>)
    ensures r.Ok? && r.value.1.Some? ==> r.value.0 == p && |r.value.1.value| >= 1
  {
    var text := Before(l, ';');
    var tokens := Split(text, ' ');
    if text == "" then Ok((p, None))
    else if StartsWith(text, "#") then
      var name := Strip(text[1..]);
      if Contains(p.labels, name) then Err(GrammarError(line))
      else Ok((p.(labels := Set(p.labels, name, |p.instructions|)), None))
    else if StartsWith(text, ".") then
      var q :- Configure(p, tokens, line, precompiled);
      Ok((q, None))
    else
      var b :- AssembleInstruction(p, line, tokens);
      Ok((p, Some(b)))
  }

  // ------------------------------------------------------------ lemmas on one line

  /** A string of ASCII digits reads as the non-negative number its digits denote. */
  lemma DigitsNonNegative(s: string)
    requires IsDigits(s)
    ensures ParseInt(s) == Ok(DigitsValue(s, 10))
  {
    assert !IsSpace(s[0]) && !IsSpace(s[|s| - 1]);
    StripNoSpace(s);
    assert SignOf(s) == (false, s);
    assert ValidGroups(s, 10);
    assert RemoveUnderscores(s) == s;
  }

  lemma UpperOfUpper(s: string)
    ensures Upper(Upper(s)) == Upper(s)
  {
  }

  lemma UpperOfName(op: Opcode)
    ensures Upper(Name(op)) == Name(op)
  {
    UpperOfCapitals(Name(op));
  }

  /** Upper leaves a string of capital letters unchanged. */
  lemma UpperOfCapitals(s: string)
    requires forall i :: 0 <= i < |s| ==> 'A' <= s[i] <= 'Z'
    ensures Upper(s) == s
  {
  }

  /** Mnemonics are case-insensitive, and every opcode is found under its name. */
  lemma FindInstNames(op: Opcode, name: string, line: int)
    ensures FindInst(Name(op), line) == Ok(op)
    ensures FindInst(Upper(name), line) == FindInst(name, line)
    ensures FindInst(name, line).Ok? <==> exists o :: Name(o) == Upper(name)
  {
    UpperOfName(op);
    OpcodeNamedName(op);
    UpperOfUpper(name);
    if o :| Name(o) == Upper(name) {
      OpcodeNamedName(o);
    }
  }

  /** The label lookup as written agrees with the intended one except on a label at index 0,
      which it rejects. */
  lemma LabelZeroRejected(labels: Dict<string, int>, name: string, line: int)
    ensures OrderedDicts.Get(labels, name) != Some(0) ==>
      LabelAsWritten(labels, name, line) == LabelValue(labels, name, line)
    ensures OrderedDicts.Get(labels, name) == Some(0) ==>
      LabelAsWritten(labels, name, line) == Err(GrammarError(line)) && LabelValue(labels, name, line) == Ok(0)
  {
  }

  /** A program whose first line is `#start` and whose first instruction jumps to it:
      the lookup as written rejects `#start`; the intended one yields 0. */
  lemma LabelAtStart()
    ensures LabelAsWritten([("start", 0)], "start", 1) == Err(GrammarError(1))
    ensures LabelValue([("start", 0)], "start", 1) == Ok(0)
  {
    LabelZeroRejected([("start", 0)], "start", 1);
  }

  lemma DecimalChars(n: int)
    ensures n >= 0 ==> IsDigits(Decimal(n)) && DigitsValue(Decimal(n), 10) == n
    ensures n < 0 ==> Decimal(n)[0] == '-'
  {
    if n >= 0 {
      NatTextValue(n);
    }
  }

  /** `r_<n>` names register n exactly when n < n_GPR. */
  lemma RegisterOperand(n: nat, p: ProgramData, line: int)
    ensures ParseOperand("r_" + Decimal(n), p, line) ==
      if n < p.nGPR then Ok(Some(Operand(n, Register))) else Err(GrammarError(line))
  {
    var op := "r_" + Decimal(n);
    DecimalChars(n);
    assert op[2..] == Decimal(n);
    assert op[..1] == "r" && op[..2] == "r_";
    DigitsNonNegative(Decimal(n));
  }

  /** `&<n>` is memory address n, for any n. */
  lemma MemoryOperand(n: int, p: ProgramData, line: int)
    ensures ParseOperand("&" + Decimal(n), p, line) == Ok(Some(Operand(n, Memory)))
  {
    var op := "&" + Decimal(n);
    assert op[1..] == Decimal(n) && StartsWith(op, "&");
    DecimalChars(n);
    assert !StartsWith(Decimal(n), "0x");
    DecimalRoundTrip(n);
  }

  /** A decimal literal is an immediate. */
  lemma NumberOperand(n: nat, p: ProgramData, line: int)
    ensures ParseOperand(Decimal(n), p, line) == Ok(Some(Operand(n, Number)))
  {
    DecimalChars(n);
    DigitsOperand(Decimal(n), p, line);
  }

  /** A token of ASCII digits is the immediate its digits denote. */
  lemma DigitsOperand(op: string, p: ProgramData, line: int)
    requires IsDigits(op)
    ensures ParseOperand(op, p, line) == Ok(Some(Operand(DigitsValue(op, 10), Number)))
  {
    DigitsNonNegative(op);
    DigitsPrefixes(op);
  }

  lemma DigitsPrefixes(op: string)
    requires IsDigits(op)
    ensures !StartsWith(op, "&") && !StartsWith(op, "r_")
  {
    assert IsAsciiDigit(op[0]);
  }

  /** `#name` is an immediate holding the label's index when the label is defined at a
      non-zero index; a label at index 0 and an undefined label are both a grammar error. */
  lemma LabelOperand(name: string, p: ProgramData, line: int)
    ensures ParseOperand("#" + name, p, line) ==
      match OrderedDicts.Get(p.labels, name)
      case Some(n) => if n != 0 then Ok(Some(Operand(n, Number))) else Err(GrammarError(line))
      case None => Err(GrammarError(line))
  {
    HashToken(name);
  }

  lemma HashToken(name: string)
    ensures var op := "#" + name;
      && op[1..] == name && op != "" && !StartsWith(op, "&") && !StartsWith(op, "r_") && !IsDigits(op)
      && !StartsWith(op, "0x") && !StartsWith(op, ";") && StartsWith(op, "#")
  {
    var op := "#" + name;
    assert op[0] == '#' && op[..1] == "#";
    assert !IsAsciiDigit(op[0]);
  }

  /** The intended operand parser differs from the one as written only on a reference to a
      label at index 0, which it accepts as the immediate 0 where the parser rejects it. */
  lemma IntendedDiffersAtZero(name: string, op: string, p: ProgramData, line: int)
    ensures !(StartsWith(op, "#") && OrderedDicts.Get(p.labels, op[1..]) == Some(0)) ==>
      IntendedOperand(op, p, line) == ParseOperand(op, p, line)
    ensures OrderedDicts.Get(p.labels, name) == Some(0) ==>
      && ParseOperand("#" + name, p, line) == Err(GrammarError(line))
      && IntendedOperand("#" + name, p, line) == Ok(Some(Operand(0, Number)))
  {
    HashToken(name);
    LabelOperand(name, p, line);
    if StartsWith(op, "#") {
      LabelOperand(op[1..], p, line);
      assert "#" + op[1..] == op;
    }
  }

  /** Only the three tokens after the mnemonic are read; anything after them is ignored. */
  lemma ExtraTokensIgnored(p: ProgramData, line: int, tokens: seq<string>, extra: seq<string>)
    requires |tokens| >= 4
    ensures AssembleInstruction(p, line, tokens + extra) == AssembleInstruction(p, line, tokens)
  {
    assert (tokens + extra)[0] == tokens[0];
    assert (tokens + extra)[1..][..3] == tokens[1..][..3];
  }

  /** An instruction line is determined by its mnemonic and the operands its slots yield. */
  lemma SameSlots(p: ProgramData, line: int, t1: seq<string>, t2: seq<string>)
    requires |t1| >= 1 && |t2| >= 1 && t1[0] == t2[0]
    requires Operands(t1[1..][..Min(3, |t1| - 1)], p, line) == Operands(t2[1..][..Min(3, |t2| - 1)], p, line)
    ensures AssembleInstruction(p, line, t1) == AssembleInstruction(p, line, t2)
  {
  }

  /** An empty token (two spaces in a row) still uses one of the three slots. */
  lemma EmptyTokenUsesSlot(p: ProgramData, line: int, m: string, a: string, b: string, c: string)
    ensures AssembleInstruction(p, line, [m, "", a, b, c]) == AssembleInstruction(p, line, [m, a, b])
  {
    var t1: seq<string> := [m, "", a, b, c];
    var t2: seq<string> := [m, a, b];
    var slots: seq<string> := ["", a, b];
    assert t1[1..][..3] == slots;
    assert t2[1..][..2] == [a, b];
    assert slots[0] == "" && slots[1..] == [a, b];
    assert ParseOperand("", p, line) == Ok(None);
    var r := Operands([a, b], p, line);
    if r.Ok? {
      assert OptionSeq<Operand>(None) + r.value == r.value;
    }
    assert Operands(slots, p, line) == r;
    SameSlots(p, line, t1, t2);
  }

  /** A line whose code part is empty (a whole-line comment) changes nothing. */
  lemma CommentLine(p: ProgramData, line: int, l: string, pre: string -> Result<seq<bytes>>)
    requires |l| > 0 && l[0] == ';'
    ensures ParseLine(p, line, l, pre) == Ok((p, None))
  {
  }

  /** `#name` records the number of instructions so far under the stripped name,
      and fails on a name defined before. */
  lemma LabelLine(p: ProgramData, line: int, name: string, pre: string -> Result<seq<bytes>>)
    requires ';' !in name
    ensures ParseLine(p, line, "#" + name, pre) ==
      if Contains(p.labels, Strip(name)) then Err(GrammarError(line))
      else Ok((p.(labels := Set(p.labels, Strip(name), |p.instructions|)), None))
  {
    var l := "#" + name;
    assert ';' !in l;
    assert Before(l, ';') == l;
    assert l[1..] == name;
  }

  /** The four size directives set their field to int(argument); further tokens are ignored. */
  lemma SizeDirective(p: ProgramData, d: string, n: int, rest: seq<string>, line: int, pre: string -> Result<seq<bytes>>)
    requires d in {".data_mem", ".n_GPR", ".stack_size", ".inst_mem"}
    ensures Configure(p, [d, Decimal(n)] + rest, line, pre) == Ok(
      if d == ".data_mem" then p.(dataMem := n)
      else if d == ".n_GPR" then p.(nGPR := n)
      else if d == ".stack_size" then p.(stackSize := n)
      else p.(instMem := n))
  {
    var t := [d, Decimal(n)] + rest;
    assert t[0] == d && t[1] == Decimal(n) && |t| >= 2;
    DecimalRoundTrip(n);
  }

  /** Any other directive is a grammar error, and a directive without its argument an IndexError. */
  lemma DirectiveErrors(p: ProgramData, d: string, line: int, pre: string -> Result<seq<bytes>>)
    ensures d !in {".data_mem", ".n_GPR", ".stack_size", ".inst_mem", ".include_zstd", ".include_file"} ==>
      Configure(p, [d], line, pre) == Err(GrammarError(line))
    ensures d in {".data_mem", ".n_GPR", ".stack_size", ".inst_mem", ".include_zstd", ".include_file"} ==>
      Configure(p, [d], line, pre) == Err(IndexError)
  {
  }

  // ------------------------------------------------------------ CodeParser.parser

  /** CodeParser's state: the line counter, the program built so far and the cache entries. */
  datatype ParserState = ParserState(line: int, out: ProgramData, cache: Dict<string, bytes>)

  /** CodeParser(): line 0, a default Program and an empty cache. */
  function Fresh(time: int): ParserState {
    ParserState(0, Default(time), [])
  }

  /** `if result: self.out.instructions.append(result)`; empty bytes are falsy. */
  function Append(p: ProgramData, b: bytes): (r: ProgramData)
    ensures r.labels == p.labels && r.nGPR == p.nGPR
  {
    if b == [] then p else p.(instructions := p.instructions + [b])
  }

  /** parser_l as a value: what one stripped line yields, given the program so far
      and the line number. */
  type LineParser = (ProgramData, int, string) -> Result<(ProgramData, Option<bytes>)>

  /** CodeParser's own parser_l, with `precompiled` standing for the .include_zstd loader. */
  function Parser(pre: string -> Result<seq<bytes>>): LineParser {
    (p, line, l) => ParseLine(p, line, l, pre)
  }

  /** One iteration of CodeParser.parser: strip the line, skip it when blank, else take
      its bytes from the cache or parse it, and count the line. */
  function Feed(s: ParserState, raw: string, parse: LineParser): (r: Result<ParserState>)
    ensures Strip(raw) == "" ==> r == Ok(s)
    ensures r.Ok? && Strip(raw) != "" ==> r.value.line == s.line + 1
  {
    var l := Strip(raw);
    if l == "" then Ok(s)
    else if Contains(s.cache, l) then Ok(Reuse(s, l))
    else ParseMiss(s, l, parse)
  }

  /** A cache hit: the key becomes the most recent and its bytes are appended unparsed. */
  function Reuse(s: ParserState, l: string): (r: ParserState)
    requires Contains(s.cache, l)
    ensures r.line == s.line + 1
  {
    var (hit, c1) := Lookup(s.cache, l);
    ParserState(s.line + 1, Append(s.out, hit.value), c1)
  }

  /** A miss (get returned -1): parse the line; packed bytes are put in the cache and appended. */
  function ParseMiss(s: ParserState, l: string, parse: LineParser): (r: Result<ParserState>)
    ensures r.Ok? ==> r.value.line == s.line + 1
  {
    var parsed :- parse(s.out, s.line, l);
    var (out, result) := parsed;
    if result.Some? && result.value != [] then
      var c2 := Insert(s.cache, CacheCapacity, l, result.value).value;
      Ok(ParserState(s.line + 1, Append(out, result.value), c2))
    else Ok(ParserState(s.line + 1, out, s.cache))
  }

  /** CodeParser.parser(code): every line in order; the first error ends the run. */
  function ParseAll(s: ParserState, lines: seq<string>, parse: LineParser): (r: Result<ParserState>)
    decreases |lines|
  {
    if lines == [] then Ok(s)
    else
      var s1 :- Feed(s, lines[0], parse);
      ParseAll(s1, lines[1..], parse)
  }

  /** The number of lines that are not blank once stripped. */
  function NonBlank(lines: seq<string>): nat {
    if lines == [] then 0 else (if Strip(lines[0]) == "" then 0 else 1) + NonBlank(lines[1..])
  }

  /** Labels point into the instruction list. */
  predicate LabelsInRange(p: ProgramData) {
    forall i :: 0 <= i < |p.labels| ==> 0 <= p.labels[i].1 <= |p.instructions|
  }

  /** What every CodeParser state satisfies. */
  ghost predicate WellFormed(s: ParserState) {
    && UniqueKeys(s.cache) && |s.cache| <= CacheCapacity
    && (forall key :: OrderedDicts.Get(s.cache, key).Some? ==> |OrderedDicts.Get(s.cache, key).value| >= 1)
    && UniqueKeys(s.out.labels) && LabelsInRange(s.out)
  }

  lemma FreshWellFormed(time: int)
    ensures WellFormed(Fresh(time))
  {
  }

  /** A line keeps the labels in range and distinct. */
  lemma ParseLineLabels(p: ProgramData, line: int, l: string, pre: string -> Result<seq<bytes>>)
    requires UniqueKeys(p.labels) && LabelsInRange(p)
    requires ParseLine(p, line, l, pre).Ok?
    ensures var q := ParseLine(p, line, l, pre).value.0;
      UniqueKeys(q.labels) && LabelsInRange(q) && |q.instructions| >= |p.instructions|
    ensures var q := ParseLine(p, line, l, pre).value.0;
      forall name :: Contains(p.labels, name) ==> OrderedDicts.Get(q.labels, name) == OrderedDicts.Get(p.labels, name)
  {
    var text := Before(l, ';');
    if text != "" && StartsWith(text, "#") {
      NewLabel(p, Strip(text[1..]));
    }
  }

  /** A new label records the current instruction count and keeps the others. */
  lemma NewLabel(p: ProgramData, name: string)
    requires UniqueKeys(p.labels) && LabelsInRange(p) && !Contains(p.labels, name)
    ensures var q := p.(labels := Set(p.labels, name, |p.instructions|));
      UniqueKeys(q.labels) && LabelsInRange(q)
    ensures forall other :: Contains(p.labels, other) ==>
      OrderedDicts.Get(Set(p.labels, name, |p.instructions|), other) == OrderedDicts.Get(p.labels, other)
  {
    SetGet(p.labels, name, |p.instructions|);
    SetAbsent(p.labels, name, |p.instructions|);
  }

  /** Every step keeps the state well formed: the cache within its capacity and
      holding only non-empty bytes, labels distinct and within the instruction list. */
  lemma FeedWellFormed(s: ParserState, raw: string, pre: string -> Result<seq<bytes>>)
    requires WellFormed(s) && Feed(s, raw, Parser(pre)).Ok?
    ensures WellFormed(Feed(s, raw, Parser(pre)).value)
    ensures |Feed(s, raw, Parser(pre)).value.out.instructions| >= |s.out.instructions|
  {
    var l := Strip(raw);
    if l != "" {
      if Contains(s.cache, l) {
        HitWellFormed(s, l);
      } else {
        MissWellFormed(s, l, pre);
      }
    }
  }

  lemma HitWellFormed(s: ParserState, l: string)
    requires WellFormed(s) && Contains(s.cache, l)
    ensures WellFormed(Reuse(s, l)) && |Reuse(s, l).out.instructions| >= |s.out.instructions|
  {
    LookupHit(s.cache, l);
  }

  lemma MissWellFormed(s: ParserState, l: string, pre: string -> Result<seq<bytes>>)
    requires WellFormed(s) && ParseMiss(s, l, Parser(pre)).Ok?
    ensures WellFormed(ParseMiss(s, l, Parser(pre)).value)
    ensures |ParseMiss(s, l, Parser(pre)).value.out.instructions| >= |s.out.instructions|
  {
    ParseLineLabels(s.out, s.line, l, pre);
    var (out, result) := ParseLine(s.out, s.line, l, pre).value;
    if result.Some? && result.value != [] {
      InsertBounded(s.cache, CacheCapacity, l, result.value);
      InsertGet(s.cache, CacheCapacity, l, result.value);
    }
  }

  lemma {:induction false} ParseAllWellFormed(s: ParserState, lines: seq<string>, pre: string -> Result<seq<bytes>>)
    requires WellFormed(s) && ParseAll(s, lines, Parser(pre)).Ok?
    ensures WellFormed(ParseAll(s, lines, Parser(pre)).value)
    ensures ParseAll(s, lines, Parser(pre)).value.line == s.line + NonBlank(lines)
    decreases |lines|
  {
    if lines != [] {
      FeedWellFormed(s, lines[0], pre);
      ParseAllWellFormed(Feed(s, lines[0], Parser(pre)).value, lines[1..], pre);
    }
  }
}
