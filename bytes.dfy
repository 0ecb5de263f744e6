/**
 * Bytes and Python's little-endian integer conversions
 * (int.to_bytes(n, "little") and int.from_bytes(b, "little")).
 */
module Bytes {
  import opened Errors

  type byte = x: int | 0 <= x < 256
  type bytes = seq<byte>

  /** 256^n, the first value that no longer fits in n bytes. */
  function Pow256(n: nat): (r: nat)
    ensures r >= 1
  {
    if n == 0 then 1 else 256 * Pow256(n - 1)
  }

  /** int.from_bytes(s, "little"): s[0] is the least significant byte. */
  function FromLE(s: bytes): (r: nat)
    ensures r < Pow256(|s|)
  {
    if s == [] then 0 else s[0] + 256 * FromLE(s[1..])
  }

  /** The n low-order little-endian bytes of v (no range check). */
  function LE(v: nat, n: nat): (r: bytes)
    ensures |r| == n
  {
    if n == 0 then [] else [v % 256] + LE(v / 256, n - 1)
  }

  /** int.to_bytes(n, "little"): OverflowError when v is negative or needs more than n bytes. */
  function ToBytes(v: int, n: nat): (r: Result<bytes>)
    ensures r.Ok? <==> 0 <= v < Pow256(n)
    ensures r.Ok? ==> |r.value| == n
  {
    if 0 <= v < Pow256(n) then Ok(LE(v, n)) else Err(OverflowError)
  }

  /** Python slicing s[i:j] with non-negative bounds: bounds past the end are clamped. */
  function Slice<T>(s: seq<T>, i: nat, j: nat): (r: seq<T>)
    ensures |r| == if i <= j && i <= |s| then (if j <= |s| then j else |s|) - i else 0
    ensures forall k :: 0 <= k < |r| ==> r[k] == s[i + k]
  {
    var hi := if j <= |s| then j else |s|;
    if i <= hi then s[i..hi] else []
  }

  /** Decoding the bytes written by LE gives the value back. */
  lemma {:induction false} FromLEOfLE(v: nat, n: nat)
    requires v < Pow256(n)
    ensures FromLE(LE(v, n)) == v
  {
    if n > 0 {
      FromLEOfLE(v / 256, n - 1);
      assert LE(v, n)[1..] == LE(v / 256, n - 1);
    }
  }

  /** The low byte and the rest of a value built from them. */
  lemma ByteSplit(b: byte, w: nat)
    ensures (b + 256 * w) % 256 == b && (b + 256 * w) / 256 == w
  {
  }

  /** Encoding a decoded byte string gives the same bytes back. */
  lemma {:induction false} LEOfFromLE(s: bytes)
    ensures LE(FromLE(s), |s|) == s
  {
    if s != [] {
      LEOfFromLE(s[1..]);
      ByteSplit(s[0], FromLE(s[1..]));
      assert LE(FromLE(s), |s|) == [s[0]] + LE(FromLE(s[1..]), |s| - 1);
    }
  }

  /** to_bytes followed by from_bytes is the identity on every value that fits. */
  lemma ToBytesRoundTrip(v: int, n: nat)
    requires 0 <= v < Pow256(n)
    ensures ToBytes(v, n) == Ok(LE(v, n)) && FromLE(ToBytes(v, n).value) == v
  {
    FromLEOfLE(v, n);
  }

  /** Trailing zero bytes do not change the little-endian value. */
  lemma {:induction false} FromLEZeroPad(s: bytes, k: nat)
    ensures FromLE(s + seq(k, _ => 0)) == FromLE(s)
  {
    if s == [] {
      ZerosAreZero(k);
      assert s + seq(k, _ => 0) == seq(k, _ => 0);
    } else {
      FromLEZeroPad(s[1..], k);
      assert (s + seq(k, _ => 0))[1..] == s[1..] + seq(k, _ => 0);
    }
  }

  lemma {:induction false} ZerosAreZero(k: nat)
    ensures FromLE(seq(k, _ => 0)) == 0
  {
    if k > 0 {
      ZerosAreZero(k - 1);
      assert seq(k, _ => 0)[1..] == seq(k - 1, _ => 0);
    }
  }

  /** Re-expanding a decoded value to n >= |s| bytes pads s with zero bytes. */
  lemma {:induction false} LEOfFromLEPadded(s: bytes, n: nat)
    requires |s| <= n
    ensures LE(FromLE(s), n) == s + seq(n - |s|, _ => 0)
  {
    if s == [] {
      LEOfZero(n);
    } else {
      var t := s[1..];
      LEOfFromLEPadded(t, n - 1);
      ByteSplit(s[0], FromLE(t));
      assert LE(FromLE(s), n) == [s[0]] + LE(FromLE(t), n - 1);
      assert [s[0]] + (t + seq(n - 1 - |t|, _ => 0)) == s + seq(n - |s|, _ => 0);
    }
  }

  lemma {:induction false} LEOfZero(n: nat)
    ensures LE(0, n) == seq(n, _ => 0)
  {
    if n > 0 {
      LEOfZero(n - 1);
    }
  }

  lemma {:induction false} Pow256Mono(m: nat, n: nat)
    requires m <= n
    ensures Pow256(m) <= Pow256(n)
  {
    if m < n {
      Pow256Mono(m, n - 1);
    }
  }

  /** to_bytes(n) of a value decoded from at most n bytes is those bytes padded with zeros. */
  lemma ToBytesPadded(s: bytes, n: nat)
    requires |s| <= n
    ensures ToBytes(FromLE(s), n) == Ok(s + seq(n - |s|, _ => 0))
  {
    Pow256Mono(|s|, n);
    LEOfFromLEPadded(s, n);
  }
}
