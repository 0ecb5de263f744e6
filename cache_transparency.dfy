/**
 * The LRU cache of CodeParser is transparent: as long as n_GPR never decreases,
 * the cached loop of asimc/parser.py and the same loop without the cache fail
 * alike or end with the same program and line count.
 */
module CacheTransparency {
  import opened Errors
  import opened Bytes
  import opened Text
  import opened OrderedDicts
  import opened Lru
  import opened Programs
  import opened Assembler
  import opened LineCache

  lemma HitAgree(s: ParserState, raw: string, parse: LineParser)
    requires Monotone(parse)
    requires Strip(raw) != "" && Contains(s.cache, Strip(raw))
    requires CachedLine(s.out, Strip(raw), OrderedDicts.Get(s.cache, Strip(raw)).value, parse)
    ensures Agree(Feed(s, raw, parse), PlainFeed(s.line, s.out, raw, parse))
  {
    FeedHit(s, raw, parse);
    AgreeOk(Feed(s, raw, parse), PlainFeed(s.line, s.out, raw, parse), Reuse(s, Strip(raw)));
  }

  lemma HitCoherent(s: ParserState, raw: string, parse: LineParser)
    requires Strip(raw) != "" && Contains(s.cache, Strip(raw))
    requires UniqueKeys(Reuse(s, Strip(raw)).cache) && CacheCoherent(Reuse(s, Strip(raw)), parse)
    ensures Feed(s, raw, parse).Ok?
    ensures UniqueKeys(Feed(s, raw, parse).value.cache) && CacheCoherent(Feed(s, raw, parse).value, parse)
  {
  }

  lemma PackedAgree(s: ParserState, raw: string, parse: LineParser, b: bytes)
    requires Strip(raw) != "" && !Contains(s.cache, Strip(raw))
    requires parse(s.out, s.line, Strip(raw)) == Ok((s.out, Some(b))) && b != []
    ensures Agree(Feed(s, raw, parse), PlainFeed(s.line, s.out, raw, parse))
  {
    FeedMissPacked(s, raw, parse, b);
    PlainFeedPacked(s.line, s.out, raw, parse, b);
    AgreeOk(Feed(s, raw, parse), PlainFeed(s.line, s.out, raw, parse),
      ParserState(s.line + 1, Append(s.out, b), Insert(s.cache, CacheCapacity, Strip(raw), b).value));
  }

  lemma PackedStepCoherent(s: ParserState, raw: string, parse: LineParser, b: bytes)
    requires Strip(raw) != "" && !Contains(s.cache, Strip(raw))
    requires parse(s.out, s.line, Strip(raw)) == Ok((s.out, Some(b))) && b != []
    requires var s1 := ParserState(s.line + 1, Append(s.out, b), Insert(s.cache, CacheCapacity, Strip(raw), b).value);
      UniqueKeys(s1.cache) && CacheCoherent(s1, parse)
    ensures Feed(s, raw, parse).Ok?
    ensures UniqueKeys(Feed(s, raw, parse).value.cache) && CacheCoherent(Feed(s, raw, parse).value, parse)
  {
    FeedMissPacked(s, raw, parse, b);
  }

  lemma OtherAgrees(s: ParserState, raw: string, parse: LineParser)
    requires Monotone(parse) && KeepsLabels(parse)
    requires CacheCoherent(s, parse) && UniqueKeys(s.cache)
    requires Strip(raw) != "" && !Contains(s.cache, Strip(raw))
    requires parse(s.out, s.line, Strip(raw)).Ok? && parse(s.out, s.line, Strip(raw)).value.1.None?
    ensures StepAgrees(s, raw, parse)
  {
    var out := parse(s.out, s.line, Strip(raw)).value.0;
    assert LabelsKept(s.out, out);
    FeedMissOther(s, raw, parse);
    if out.nGPR >= s.out.nGPR {
      OtherCoherent(s, out, parse);
    }
  }

  /** One step with the cache agrees with one step without it, and keeps the cache
      coherent unless the step lowered n_GPR. */
  lemma FeedAgrees(s: ParserState, raw: string, parse: LineParser)
    requires Lawful(parse)
    requires UniqueKeys(s.cache) && CacheCoherent(s, parse)
    ensures StepAgrees(s, raw, parse)
  {
    var l := Strip(raw);
    if l != "" {
      if Contains(s.cache, l) {
        ReuseCoherent(s, l, parse);
        assert CachedLine(s.out, l, OrderedDicts.Get(s.cache, l).value, parse);
        HitAgree(s, raw, parse);
        HitCoherent(s, raw, parse);
      } else if parse(s.out, s.line, l).Err? {
        FeedMissFails(s, raw, parse);
      } else if parse(s.out, s.line, l).value.1.Some? {
        var b := parse(s.out, s.line, l).value.1.value;
        assert Packs(parse(s.out, s.line, l), s.out) && b != [];
        PackedCoherent(s, l, b, parse);
        PackedAgree(s, raw, parse, b);
        PackedStepCoherent(s, raw, parse, b);
      } else {
        OtherAgrees(s, raw, parse);
      }
    }
  }

  /** Memoising lines never changes what the loop produces, as long as the line
      parser is lawful and n_GPR never decreases: the cached and the uncached run
      fail alike or end with the same program and line count. */
  lemma {:induction false} CacheTransparent(s: ParserState, lines: seq<string>, parse: LineParser)
    requires Lawful(parse)
    requires UniqueKeys(s.cache) && CacheCoherent(s, parse) && GprNeverShrinks(s.line, s.out, lines, parse)
    ensures Agree(ParseAll(s, lines, parse), PlainAll(s.line, s.out, lines, parse))
    decreases |lines|
  {
    if lines != [] {
      FeedAgrees(s, lines[0], parse);
      var r := Feed(s, lines[0], parse);
      if r.Ok? {
        CacheTransparent(r.value, lines[1..], parse);
      }
    }
  }

  /** A fresh CodeParser meets the hypotheses on its empty cache. */
  lemma FreshCoherent(time: int, parse: LineParser)
    ensures UniqueKeys(Fresh(time).cache) && CacheCoherent(Fresh(time), parse)
  {
  }

  /** CodeParser.parser from a fresh parser: with the LRU cache or without it, the
      same program and line count, or the same error, whenever n_GPR never decreases. */
  lemma CodeParserTransparent(time: int, lines: seq<string>, pre: string -> Result<seq<bytes>>)
    requires GprNeverShrinks(0, Default(time), lines, Parser(pre))
    ensures Agree(ParseAll(Fresh(time), lines, Parser(pre)), PlainAll(0, Default(time), lines, Parser(pre)))
  {
    ParserLawful(pre);
    FreshCoherent(time, Parser(pre));
    CacheTransparent(Fresh(time), lines, Parser(pre));
  }
}
