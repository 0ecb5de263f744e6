/**
 * The few Python string operations the assembler and the machine rely on:
 * str.strip(), str.split(sep), str.upper() on ASCII letters, str.isdigit()
 * on ASCII digits, int(s), int(s, 16) and str(n).
 */
module Text {
  import opened Errors

  /** Python's whitespace (the characters str.strip() and int() remove). */
  predicate IsSpace(c: char) {
    var u := c as int;
    (0x09 <= u <= 0x0D) || (0x1C <= u <= 0x20) || u == 0x85 || u == 0xA0 || u == 0x1680
    || (0x2000 <= u <= 0x200A) || u == 0x2028 || u == 0x2029 || u == 0x202F || u == 0x205F
    || u == 0x3000
  }

  function StripLeft(s: string): (r: string)
    ensures |r| <= |s| && r == s[|s| - |r|..]
    ensures r != [] ==> !IsSpace(r[0])
    ensures forall i :: 0 <= i < |s| - |r| ==> IsSpace(s[i])
  {
    if s != [] && IsSpace(s[0]) then StripLeft(s[1..]) else s
  }

  function StripRight(s: string): (r: string)
    ensures |r| <= |s| && r == s[..|r|]
    ensures r != [] ==> !IsSpace(r[|r| - 1])
    ensures forall i :: |r| <= i < |s| ==> IsSpace(s[i])
  {
    if s != [] && IsSpace(s[|s| - 1]) then StripRight(s[..|s| - 1]) else s
  }

  /** str.strip(): the longest infix with no whitespace at either end. */
  function Strip(s: string): (r: string)
    ensures |r| <= |s|
    ensures r != [] ==> !IsSpace(r[0]) && !IsSpace(r[|r| - 1])
  {
    StripRight(StripLeft(s))
  }

  /** The index of the first occurrence of c in s, or |s| when there is none. */
  function IndexOf(s: string, c: char): (i: nat)
    ensures i <= |s| && forall j :: 0 <= j < i ==> s[j] != c
    ensures i < |s| ==> s[i] == c
  {
    if s == [] then 0 else if s[0] == c then 0 else 1 + IndexOf(s[1..], c)
  }

  /** s.split(sep) for a one-character separator: every field, empty ones included. */
  function Split(s: string, sep: char): (r: seq<string>)
    ensures |r| >= 1
    ensures forall k, j :: 0 <= k < |r| && 0 <= j < |r[k]| ==> r[k][j] != sep
    decreases |s|
  {
    var i := IndexOf(s, sep);
    if i == |s| then [s] else [s[..i]] + Split(s[i + 1..], sep)
  }

  /** The fields joined back with the separator (the inverse of Split). */
  function Join(parts: seq<string>, sep: char): string
    requires |parts| >= 1
  {
    if |parts| == 1 then parts[0] else parts[0] + [sep] + Join(parts[1..], sep)
  }

  /** A separator splits s into the text before it and the fields after it. */
  lemma SplitAt(s: string, sep: char)
    requires IndexOf(s, sep) < |s|
    ensures Split(s, sep) == [s[..IndexOf(s, sep)]] + Split(s[IndexOf(s, sep) + 1..], sep)
  {
  }

  lemma JoinCons(field: string, fields: seq<string>, sep: char)
    requires |fields| >= 1
    ensures Join([field] + fields, sep) == field + [sep] + Join(fields, sep)
  {
    assert ([field] + fields)[1..] == fields;
  }

  /** Splitting loses nothing: joining the fields gives the string back. */
  lemma {:induction false} SplitJoin(s: string, sep: char)
    ensures Join(Split(s, sep), sep) == s
    decreases |s|
  {
    var i := IndexOf(s, sep);
    if i < |s| {
      var rest := s[i + 1..];
      SplitAt(s, sep);
      JoinCons(s[..i], Split(rest, sep), sep);
      SplitJoin(rest, sep);
      assert s == s[..i] + [sep] + rest;
    }
  }

  /** s.split(sep)[0]: the text before the first separator. */
  function Before(s: string, sep: char): (r: string)
    ensures r == s[..IndexOf(s, sep)] && forall j :: 0 <= j < |r| ==> r[j] != sep
  {
    Split(s, sep)[0]
  }

  predicate StartsWith(s: string, prefix: string) {
    |prefix| <= |s| && s[..|prefix|] == prefix
  }

  predicate IsAsciiDigit(c: char) { '0' <= c <= '9' }

  /** str.isdigit() restricted to ASCII: non-empty and all decimal digits. */
  predicate IsDigits(s: string) {
    |s| > 0 && forall i :: 0 <= i < |s| ==> IsAsciiDigit(s[i])
  }

  /** str.upper() on ASCII letters; every other character is left as it is. */
  function Upper(s: string): (r: string)
    ensures |r| == |s|
    ensures forall i :: 0 <= i < |s| ==> r[i] == (if 'a' <= s[i] <= 'z' then (s[i] as int - 32) as char else s[i])
  {
    if s == [] then [] else [if 'a' <= s[0] <= 'z' then (s[0] as int - 32) as char else s[0]] + Upper(s[1..])
  }

  /** The value of one digit in the given base (10 or 16, letters in either case), or -1. */
  function DigitValue(c: char, base: nat): (d: int)
    ensures -1 <= d < base || (d < 16 && base < 16 && d == -1)
    ensures d >= 0 ==> d < 16
  {
    var v := if '0' <= c <= '9' then c as int - '0' as int
             else if 'a' <= c <= 'f' then c as int - 'a' as int + 10
             else if 'A' <= c <= 'F' then c as int - 'A' as int + 10
             else -1;
    if v < base then v else -1
  }

  predicate IsDigitIn(c: char, base: nat) { DigitValue(c, base) >= 0 }

  /** Digits with single underscores between them, as int() accepts them. */
  predicate ValidGroups(s: string, base: nat) {
    && |s| > 0
    && IsDigitIn(s[0], base)
    && IsDigitIn(s[|s| - 1], base)
    && (forall i :: 0 <= i < |s| ==> IsDigitIn(s[i], base) || s[i] == '_')
    && (forall i :: 0 <= i < |s| - 1 ==> !(s[i] == '_' && s[i + 1] == '_'))
  }

  function RemoveUnderscores(s: string): (r: string)
    ensures |r| <= |s|
    ensures (forall i :: 0 <= i < |s| ==> s[i] != '_') ==> r == s
  {
    if s == [] then [] else (if s[0] == '_' then [] else [s[0]]) + RemoveUnderscores(s[1..])
  }

  /** The value of a digit string read most-significant digit first. */
  function DigitsValue(s: string, base: nat): (v: nat)
    requires forall i :: 0 <= i < |s| ==> IsDigitIn(s[i], base)
  {
    if s == [] then 0
    else
      var init := s[..|s| - 1];
      assert forall i :: 0 <= i < |init| ==> init[i] == s[i];
      var d := DigitValue(s[|s| - 1], base);
      assert IsDigitIn(s[|s| - 1], base);
      NatProduct(DigitsValue(init, base), base);
      DigitsValue(init, base) * base + d
  }

  lemma NatProduct(a: nat, b: nat)
    ensures a * b >= 0
  {
  }

  lemma RemoveUnderscoresDigits(s: string, base: nat)
    requires forall i :: 0 <= i < |s| ==> IsDigitIn(s[i], base) || s[i] == '_'
    ensures forall i :: 0 <= i < |RemoveUnderscores(s)| ==> IsDigitIn(RemoveUnderscores(s)[i], base)
  {
    if s != [] {
      RemoveUnderscoresDigits(s[1..], base);
    }
  }

  /** The integer a validated digit string (underscores allowed) denotes. */
  function GroupsValue(s: string, base: nat): nat
    requires ValidGroups(s, base)
  {
    RemoveUnderscoresDigits(s, base);
    DigitsValue(RemoveUnderscores(s), base)
  }

  /** Splits an optional leading sign off. */
  function SignOf(t: string): (bool, string) {
    if |t| > 0 && (t[0] == '-' || t[0] == '+') then (t[0] == '-', t[1..]) else (false, t)
  }

  /** int(s): surrounding whitespace, an optional sign, then decimal digit groups. */
  function ParseInt(s: string): (r: Result<int>)
    ensures r.Err? ==> r.error == ValueError
  {
    var (neg, body) := SignOf(Strip(s));
    if ValidGroups(body, 10) then
      var v: int := GroupsValue(body, 10);
      Ok(if neg then -v else v)
    else Err(ValueError)
  }

  /** int(s, 16): like ParseInt, with hexadecimal digits and an optional 0x/0X prefix,
      which may be followed directly by one underscore. */
  function ParseHex(s: string): (r: Result<int>)
    ensures r.Err? ==> r.error == ValueError
  {
    var (neg, body) := SignOf(Strip(s));
    var digits :=
      if |body| >= 2 && body[0] == '0' && (body[1] == 'x' || body[1] == 'X') then
        (if |body| >= 3 && body[2] == '_' then body[3..] else body[2..])
      else body;
    if ValidGroups(digits, 16) then
      var v: int := GroupsValue(digits, 16);
      Ok(if neg then -v else v)
    else Err(ValueError)
  }

  function DigitChar(d: nat): (c: char)
    requires d < 10
    ensures IsAsciiDigit(c) && DigitValue(c, 10) == d
  {
    ('0' as int + d) as char
  }

  /** The decimal digits of n, most significant first, without leading zeros. */
  function NatText(n: nat): (s: string)
    ensures IsDigits(s)
    ensures forall i :: 0 <= i < |s| ==> IsDigitIn(s[i], 10) && s[i] != '_'
    ensures |s| > 1 ==> s[0] != '0'
  {
    if n < 10 then [DigitChar(n)] else NatText(n / 10) + [DigitChar(n % 10)]
  }

  /** str(n) for an int. */
  function Decimal(n: int): (s: string)
    ensures |s| > 0 && !IsSpace(s[0]) && !IsSpace(s[|s| - 1])
  {
    if n < 0 then "-" + NatText(-n) else NatText(n)
  }

  lemma {:induction false} NatTextValue(n: nat)
    ensures DigitsValue(NatText(n), 10) == n
  {
    if n >= 10 {
      NatTextValue(n / 10);
      var s := NatText(n);
      assert s[..|s| - 1] == NatText(n / 10);
    }
  }

  lemma StripNoSpace(s: string)
    requires |s| > 0 && !IsSpace(s[0]) && !IsSpace(s[|s| - 1])
    ensures Strip(s) == s
  {
  }

  /** int(str(n)) == n: the decimal text the machine prints reads back as the same number. */
  lemma DecimalRoundTrip(n: int)
    ensures ParseInt(Decimal(n)) == Ok(n)
  {
    var s := Decimal(n);
    StripNoSpace(s);
    var body := NatText(if n < 0 then -n else n);
    assert SignOf(s) == (n < 0, body);
    assert RemoveUnderscores(body) == body;
    NatTextValue(if n < 0 then -n else n);
  }
}
