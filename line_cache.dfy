/**
 * CodeParser's loop of asimc/parser.py without its LRU cache, the laws of parser_l
 * that make the cache harmless, and what one line does to the cached and to the
 * uncached loop.
 */
module LineCache {
  import opened Errors
  import opened Bytes
  import opened Text
  import opened OrderedDicts
  import opened Lru
  import opened Programs
  import opened Assembler

  /** The same loop without the cache: every non-blank line is parsed. */
  function PlainFeed(line: int, p: ProgramData, raw: string, parse: LineParser)
    : (r: Result<(int, ProgramData)>)
    ensures Strip(raw) == "" ==> r == Ok((line, p))
  {
    var l := Strip(raw);
    if l == "" then Ok((line, p))
    else
      var parsed :- parse(p, line, l);
      var (out, result) := parsed;
      Ok((line + 1, if result.Some? then Append(out, result.value) else out))
  }

  function PlainAll(line: int, p: ProgramData, lines: seq<string>, parse: LineParser)
    : (r: Result<(int, ProgramData)>)
    decreases |lines|
  {
    if lines == [] then Ok((line, p))
    else
      var next :- PlainFeed(line, p, lines[0], parse);
      PlainAll(next.0, next.1, lines[1..], parse)
  }

  /** What a run of the cached loop shows without its cache: the error, or the line
      count and the program. */
  function Observed(r: Result<ParserState>): Result<(int, ProgramData)> {
    if r.Ok? then Ok((r.value.line, r.value.out)) else Err(r.error)
  }

  /** A cached and an uncached run end alike: the same error, or the same line count and program. */
  predicate Agree(r: Result<ParserState>, q: Result<(int, ProgramData)>) {
    Observed(r) == q
  }

  /** Two successful runs agree when they reach the same line count and program. */
  lemma AgreeOk(r: Result<ParserState>, q: Result<(int, ProgramData)>, st: ParserState)
    requires r == Ok(st) && q == Ok((st.line, st.out))
    ensures Agree(r, q)
  {
  }

  /** q keeps every label of p at the same address. */
  ghost predicate LabelsKept(p: ProgramData, q: ProgramData) {
    forall name :: Contains(p.labels, name) ==> OrderedDicts.Get(q.labels, name) == OrderedDicts.Get(p.labels, name)
  }

  /** q keeps every label of p and has at least as many registers. */
  ghost predicate Extends(p: ProgramData, q: ProgramData) {
    q.nGPR >= p.nGPR && LabelsKept(p, q)
  }

  /** The line parsed against p is an instruction: p is left as it is and bytes come out. */
  predicate Packs(r: Result<(ProgramData, Option<bytes>)>, p: ProgramData) {
    r.Ok? && r.value.0 == p && r.value.1.Some?
  }

  /** An instruction line leaves the program as it is and packs to at least one byte. */
  ghost predicate PacksInPlace(parse: LineParser) {
    forall p, line, l | parse(p, line, l).Ok? && parse(p, line, l).value.1.Some? ::
      Packs(parse(p, line, l), p) && |parse(p, line, l).value.1.value| >= 1
  }

  /** What an instruction line packs to depends neither on the line number nor on
      anything a later program adds. */
  ghost predicate Monotone(parse: LineParser) {
    forall p, q, a, c, l | Packs(parse(p, a, l), p) && Extends(p, q) ::
      parse(q, c, l) == Ok((q, parse(p, a, l).value.1))
  }

  /** No line changes or removes an existing label. */
  ghost predicate KeepsLabels(parse: LineParser) {
    forall p, line, l | parse(p, line, l).Ok? :: LabelsKept(p, parse(p, line, l).value.0)
  }

  /** The laws of parser_l the cache relies on. */
  ghost predicate Lawful(parse: LineParser) {
    PacksInPlace(parse) && Monotone(parse) && KeepsLabels(parse)
  }

  /** The cached bytes b of line l are what parsing l against p gives. */
  predicate CachedLine(p: ProgramData, l: string, b: bytes, parse: LineParser) {
    parse(p, 0, l) == Ok((p, Some(b)))
  }

  /** Every cache entry is what parsing its line against the current program gives. */
  ghost predicate CacheCoherent(s: ParserState, parse: LineParser) {
    forall key :: Contains(s.cache, key) ==> CachedLine(s.out, key, OrderedDicts.Get(s.cache, key).value, parse)
  }

  /** Along the uncached run, n_GPR never decreases. */
  ghost predicate GprNeverShrinks(line: int, p: ProgramData, lines: seq<string>, parse: LineParser)
    decreases |lines|
  {
    lines == [] ||
    match PlainFeed(line, p, lines[0], parse)
    case Err(_) => true
    case Ok(next) => next.1.nGPR >= p.nGPR && GprNeverShrinks(next.0, next.1, lines[1..], parse)
  }

  // ------------------------------------------------------------ parser_l is lawful

  lemma ParseOperandMono(op: string, p: ProgramData, q: ProgramData, a: int, c: int)
    requires ParseOperand(op, p, a).Ok? && Extends(p, q)
    ensures ParseOperand(op, q, c) == ParseOperand(op, p, a)
  {
    if op != "" && !StartsWith(op, "&") && !StartsWith(op, "r_") && !IsDigits(op)
      && !StartsWith(op, "0x") && !StartsWith(op, ";") && StartsWith(op, "#") {
      assert Contains(p.labels, op[1..]);
    }
  }

  lemma {:induction false} OperandsMono(tokens: seq<string>, p: ProgramData, q: ProgramData, a: int, c: int)
    requires Operands(tokens, p, a).Ok? && Extends(p, q)
    ensures Operands(tokens, q, c) == Operands(tokens, p, a)
    decreases |tokens|
  {
    if tokens != [] {
      ParseOperandMono(tokens[0], p, q, a, c);
      OperandsMono(tokens[1..], p, q, a, c);
    }
  }

  /** A packed instruction line packs the same against any program that extends
      its own, at any line number. */
  lemma ParseLineMono(p: ProgramData, q: ProgramData, a: int, c: int, l: string, b: bytes, pre: string -> Result<seq<bytes>>)
    requires ParseLine(p, a, l, pre) == Ok((p, Some(b))) && Extends(p, q)
    ensures ParseLine(q, c, l, pre) == Ok((q, Some(b)))
  {
    var text := Before(l, ';');
    var tokens := Split(text, ' ');
    assert text != "" && !StartsWith(text, "#") && !StartsWith(text, ".");
    assert AssembleInstruction(p, a, tokens) == Ok(b);
    var rest := tokens[1..];
    OperandsMono(rest[..Min(3, |rest|)], p, q, a, c);
  }

  /** A line never changes or removes an existing label. */
  lemma ParseLineKeepsLabels(p: ProgramData, line: int, l: string, pre: string -> Result<seq<bytes>>)
    requires ParseLine(p, line, l, pre).Ok?
    ensures LabelsKept(p, ParseLine(p, line, l, pre).value.0)
  {
    var text := Before(l, ';');
    if text != "" && StartsWith(text, "#") {
      SetGet(p.labels, Strip(text[1..]), |p.instructions|);
    }
  }

  /** CodeParser's parser_l obeys the laws, whatever the .include_zstd loader does. */
  lemma ParserLawful(pre: string -> Result<seq<bytes>>)
    ensures Lawful(Parser(pre))
  {
    var parse := Parser(pre);
    forall p, q, a, c, l | Packs(parse(p, a, l), p) && Extends(p, q)
      ensures parse(q, c, l) == Ok((q, parse(p, a, l).value.1))
    {
      ParseLineMono(p, q, a, c, l, parse(p, a, l).value.1.value, pre);
    }
    forall p, line, l | parse(p, line, l).Ok?
      ensures LabelsKept(p, parse(p, line, l).value.0)
    {
      ParseLineKeepsLabels(p, line, l, pre);
    }
  }

  // ------------------------------------------------------------ one step

  /** One line fed to the cached and to the uncached loop: both agree, and the cached
      step keeps the cache coherent unless it lowered n_GPR. */
  ghost predicate StepAgrees(s: ParserState, raw: string, parse: LineParser) {
    && Agree(Feed(s, raw, parse), PlainFeed(s.line, s.out, raw, parse))
    && (Feed(s, raw, parse).Ok? && Feed(s, raw, parse).value.out.nGPR >= s.out.nGPR ==>
         UniqueKeys(Feed(s, raw, parse).value.cache) && CacheCoherent(Feed(s, raw, parse).value, parse))
  }

  /** The uncached step on a non-blank line is its parse, appended. */
  lemma PlainFeedParsed(line: int, p: ProgramData, raw: string, parse: LineParser)
    requires Strip(raw) != ""
    ensures var r := parse(p, line, Strip(raw));
      PlainFeed(line, p, raw, parse) ==
        if r.Err? then Err(r.error)
        else Ok((line + 1, if r.value.1.Some? then Append(r.value.0, r.value.1.value) else r.value.0))
  {
  }

  /** The uncached step on an instruction line appends its bytes. */
  lemma PlainFeedPacked(line: int, p: ProgramData, raw: string, parse: LineParser, b: bytes)
    requires Strip(raw) != ""
    requires parse(p, line, Strip(raw)) == Ok((p, Some(b)))
    ensures PlainFeed(line, p, raw, parse) == Ok((line + 1, Append(p, b)))
  {
    PlainFeedParsed(line, p, raw, parse);
  }

  /** A lawful parser packs an instruction line the same against a program that
      extends its own, at any line number. */
  lemma PackedMono(parse: LineParser, p: ProgramData, q: ProgramData, a: int, c: int, l: string, b: bytes)
    requires Monotone(parse)
    requires parse(p, a, l) == Ok((p, Some(b))) && Extends(p, q)
    ensures parse(q, c, l) == Ok((q, Some(b)))
  {
    assert Packs(parse(p, a, l), p);
  }

  /** The uncached step on a line whose bytes are cached appends those bytes. */
  lemma PlainFeedCached(line: int, p: ProgramData, raw: string, parse: LineParser, b: bytes)
    requires Monotone(parse)
    requires Strip(raw) != "" && CachedLine(p, Strip(raw), b, parse)
    ensures PlainFeed(line, p, raw, parse) == Ok((line + 1, Append(p, b)))
  {
    PackedMono(parse, p, p, 0, line, Strip(raw), b);
    PlainFeedPacked(line, p, raw, parse, b);
  }

  /** A cache hit appends the cached bytes, which are what the uncached parse produces. */
  lemma FeedHit(s: ParserState, raw: string, parse: LineParser)
    requires Monotone(parse)
    requires Strip(raw) != "" && Contains(s.cache, Strip(raw))
    requires CachedLine(s.out, Strip(raw), OrderedDicts.Get(s.cache, Strip(raw)).value, parse)
    ensures Feed(s, raw, parse) == Ok(Reuse(s, Strip(raw)))
    ensures PlainFeed(s.line, s.out, raw, parse) == Ok((s.line + 1, Reuse(s, Strip(raw)).out))
  {
    PlainFeedCached(s.line, s.out, raw, parse, OrderedDicts.Get(s.cache, Strip(raw)).value);
  }

  lemma ReuseCoherent(s: ParserState, l: string, parse: LineParser)
    requires Monotone(parse)
    requires UniqueKeys(s.cache) && CacheCoherent(s, parse) && Contains(s.cache, l)
    ensures UniqueKeys(Reuse(s, l).cache) && CacheCoherent(Reuse(s, l), parse)
  {
    var c1 := Lookup(s.cache, l).1;
    var s1 := Reuse(s, l);
    LookupHit(s.cache, l);
    forall key | Contains(c1, key)
      ensures CachedLine(s1.out, key, OrderedDicts.Get(c1, key).value, parse)
    {
      assert OrderedDicts.Get(c1, key) == OrderedDicts.Get(s.cache, key);
      PackedMono(parse, s.out, s1.out, 0, 0, key, OrderedDicts.Get(c1, key).value);
    }
  }

  /** A miss parses the line. */
  lemma FeedMiss(s: ParserState, raw: string, parse: LineParser)
    requires Strip(raw) != "" && !Contains(s.cache, Strip(raw))
    ensures Feed(s, raw, parse) == ParseMiss(s, Strip(raw), parse)
  {
  }

  /** Parsing an instruction line caches its bytes and appends them. */
  lemma ParseMissPacked(s: ParserState, l: string, parse: LineParser, b: bytes)
    requires parse(s.out, s.line, l) == Ok((s.out, Some(b))) && b != []
    ensures ParseMiss(s, l, parse) == Ok(ParserState(s.line + 1, Append(s.out, b), Insert(s.cache, CacheCapacity, l, b).value))
  {
  }

  /** A miss on an instruction line parses it, caches the bytes and appends them. */
  lemma FeedMissPacked(s: ParserState, raw: string, parse: LineParser, b: bytes)
    requires Strip(raw) != "" && !Contains(s.cache, Strip(raw))
    requires parse(s.out, s.line, Strip(raw)) == Ok((s.out, Some(b))) && b != []
    ensures Feed(s, raw, parse) ==
      Ok(ParserState(s.line + 1, Append(s.out, b), Insert(s.cache, CacheCapacity, Strip(raw), b).value))
  {
    FeedMiss(s, raw, parse);
    ParseMissPacked(s, Strip(raw), parse, b);
  }

  lemma PackedCoherent(s: ParserState, l: string, b: bytes, parse: LineParser)
    requires Monotone(parse)
    requires UniqueKeys(s.cache) && CacheCoherent(s, parse) && !Contains(s.cache, l)
    requires parse(s.out, s.line, l) == Ok((s.out, Some(b)))
    ensures var s1 := ParserState(s.line + 1, Append(s.out, b), Insert(s.cache, CacheCapacity, l, b).value);
      UniqueKeys(s1.cache) && CacheCoherent(s1, parse)
  {
    InsertGet(s.cache, CacheCapacity, l, b);
    var c2 := Insert(s.cache, CacheCapacity, l, b).value;
    var s1 := ParserState(s.line + 1, Append(s.out, b), c2);
    PackedMono(parse, s.out, s1.out, s.line, 0, l, b);
    forall key | Contains(c2, key)
      ensures CachedLine(s1.out, key, OrderedDicts.Get(c2, key).value, parse)
    {
      if key != l {
        assert OrderedDicts.Get(c2, key) == OrderedDicts.Get(s.cache, key);
        PackedMono(parse, s.out, s1.out, 0, 0, key, OrderedDicts.Get(s.cache, key).value);
      }
    }
  }

  /** A miss on a label, directive or comment updates the program and leaves the cache. */
  lemma FeedMissOther(s: ParserState, raw: string, parse: LineParser)
    requires Strip(raw) != "" && !Contains(s.cache, Strip(raw))
    requires parse(s.out, s.line, Strip(raw)).Ok? && parse(s.out, s.line, Strip(raw)).value.1.None?
    ensures var out := parse(s.out, s.line, Strip(raw)).value.0;
      Feed(s, raw, parse) == Ok(ParserState(s.line + 1, out, s.cache)) &&
      PlainFeed(s.line, s.out, raw, parse) == Ok((s.line + 1, out))
  {
    PlainFeedParsed(s.line, s.out, raw, parse);
  }

  lemma OtherCoherent(s: ParserState, out: ProgramData, parse: LineParser)
    requires Monotone(parse)
    requires CacheCoherent(s, parse) && Extends(s.out, out)
    ensures CacheCoherent(s.(line := s.line + 1, out := out), parse)
  {
    forall key | Contains(s.cache, key)
      ensures CachedLine(out, key, OrderedDicts.Get(s.cache, key).value, parse)
    {
      PackedMono(parse, s.out, out, 0, 0, key, OrderedDicts.Get(s.cache, key).value);
    }
  }

  /** A failing parse fails both runs alike. */
  lemma FeedMissFails(s: ParserState, raw: string, parse: LineParser)
    requires Strip(raw) != "" && !Contains(s.cache, Strip(raw))
    requires parse(s.out, s.line, Strip(raw)).Err?
    ensures Feed(s, raw, parse) == Err(parse(s.out, s.line, Strip(raw)).error)
    ensures PlainFeed(s.line, s.out, raw, parse) == Err(parse(s.out, s.line, Strip(raw)).error)
  {
    PlainFeedParsed(s.line, s.out, raw, parse);
  }
}
