/**
 * Python's integer operators as the instruction handlers use them on
 * unbounded integers: floored %, shifts by a non-negative count, and the
 * bitwise operators on the infinite two's-complement representation.
 */
module Arith {
  import opened Errors

  /** t % s in Python: ZeroDivisionError for s == 0; the result has the sign of s. */
  function FloorMod(t: int, s: int): (r: Result<int>)
    ensures r.Err? <==> s == 0
    ensures r.Err? ==> r.error == ZeroDivisionError
    ensures s > 0 && r.Ok? ==> 0 <= r.value < s
    ensures s < 0 && r.Ok? ==> s < r.value <= 0
  {
    if s == 0 then Err(ZeroDivisionError)
    else
      var e := t % s;
      Ok(if s < 0 && e != 0 then e + s else e)
  }

  /** Python's t // s, the quotient that goes with the floored remainder. */
  function FloorDiv(t: int, s: int): int
    requires s != 0
  {
    var q := t / s;
    if s < 0 && t % s != 0 then q - 1 else q
  }

  /** t == (t // s) * s + t % s, as Python guarantees. */
  lemma FloorDivMod(t: int, s: int)
    requires s != 0
    ensures t == FloorDiv(t, s) * s + FloorMod(t, s).value
  {
    var q := t / s;
    var e := t % s;
    assert t == q * s + e;
    if s < 0 && e != 0 {
      assert (q - 1) * s == q * s - s;
    }
  }

  /** Division and remainder by a positive n are determined by any decomposition. */
  lemma DivModUnique(d: int, n: int, q: int, r: int)
    requires n > 0 && d == q * n + r && 0 <= r < n
    ensures d / n == q && d % n == r
  {
    var q0, r0 := d / n, d % n;
    assert d == q0 * n + r0;
    assert (q - q0) * n == r0 - r;
    if q > q0 {
      MulAtLeast(q - q0, n);
    } else if q < q0 {
      MulAtLeast(q0 - q, n);
    }
  }

  lemma MulAtLeast(k: int, n: int)
    requires k >= 1 && n > 0
    ensures k * n >= n
  {
    assert k * n == (k - 1) * n + n;
  }

  function Pow2(n: nat): (r: nat)
    ensures r >= 1
  {
    if n == 0 then 1 else 2 * Pow2(n - 1)
  }

  /** t << s: ValueError for a negative count. */
  function ShiftLeft(t: int, s: int): (r: Result<int>)
    ensures r.Err? <==> s < 0
    ensures r.Err? ==> r.error == ValueError
  {
    if s < 0 then Err(ValueError) else Ok(t * Pow2(s))
  }

  /** t >> s: ValueError for a negative count; rounds toward negative infinity. */
  function ShiftRight(t: int, s: int): (r: Result<int>)
    ensures r.Err? <==> s < 0
    ensures r.Err? ==> r.error == ValueError
  {
    if s < 0 then Err(ValueError) else Ok(t / Pow2(s))
  }

  /** Shifting right undoes shifting left. */
  lemma ShiftRightLeft(t: int, s: int)
    requires s >= 0
    ensures ShiftRight(ShiftLeft(t, s).value, s) == Ok(t)
  {
    DivModUnique(t * Pow2(s), Pow2(s), t, 0);
  }

  /** Shifting right by one halves with floor rounding, for every sign. */
  lemma ShiftRightOne(t: int)
    ensures ShiftRight(t, 1).value * 2 <= t < ShiftRight(t, 1).value * 2 + 2
  {
  }

  datatype BitOp = And | Or | Xor

  function Combine(op: BitOp, x: bool, y: bool): bool {
    match op
    case And => x && y
    case Or => x || y
    case Xor => x != y
  }

  /** Distance of a from the all-zeros or all-ones pattern it ends in. */
  function Size(a: int): nat { if a >= 0 then a else -a - 1 }

  lemma HalfSmaller(a: int)
    ensures Size(a / 2) <= Size(a)
    ensures a != 0 && a != -1 ==> Size(a / 2) < Size(a)
  {
  }

  /** a & b, a | b, a ^ b: bit by bit from the lowest, until both operands are all zeros
      or all ones (0 or -1). */
  function Bitwise(op: BitOp, a: int, b: int): int
    decreases Size(a) + Size(b)
  {
    if (a == 0 || a == -1) && (b == 0 || b == -1) then
      if Combine(op, a == -1, b == -1) then -1 else 0
    else
      HalfSmaller(a);
      HalfSmaller(b);
      2 * Bitwise(op, a / 2, b / 2) + (if Combine(op, a % 2 == 1, b % 2 == 1) then 1 else 0)
  }

  /** ~a == -a - 1. */
  function BitNot(a: int): int { -a - 1 }

  /** The lowest bit and the remaining bits of a result are those of the operands. */
  lemma BitwiseStep(op: BitOp, a: int, b: int)
    ensures Bitwise(op, a, b) % 2 == (if Combine(op, a % 2 == 1, b % 2 == 1) then 1 else 0)
    ensures Bitwise(op, a, b) / 2 == Bitwise(op, a / 2, b / 2)
  {
  }

  /** Masking with 2^k - 1 keeps the k low bits: d & 0xFF == d mod 256 for every d. */
  lemma {:induction false} AndLowBits(d: int, k: nat)
    ensures Bitwise(And, d, Pow2(k) - 1) == d % Pow2(k)
    decreases k, Size(d)
  {
    if k == 0 {
      AndZero(d);
    } else {
      var m := Pow2(k) - 1;
      assert m % 2 == 1 && m / 2 == Pow2(k - 1) - 1;
      if d == 0 || d == -1 {
        if d == 0 {
          AndZeroLeft(m);
        } else {
          AndMinusOne(m);
          DivModUnique(d, Pow2(k), -1, m);
        }
      } else {
        AndLowBits(d / 2, k - 1);
        HalfMod(d, Pow2(k - 1));
      }
    }
  }

  lemma {:induction false} AndZero(d: int)
    ensures Bitwise(And, d, 0) == 0
    decreases Size(d)
  {
    if d != 0 && d != -1 {
      HalfSmaller(d);
      AndZero(d / 2);
    }
  }

  lemma {:induction false} AndZeroLeft(m: int)
    ensures Bitwise(And, 0, m) == 0
    decreases Size(m)
  {
    if m != 0 && m != -1 {
      HalfSmaller(m);
      AndZeroLeft(m / 2);
    }
  }

  lemma {:induction false} AndMinusOne(m: int)
    ensures Bitwise(And, -1, m) == m
    decreases Size(m)
  {
    if m != 0 && m != -1 {
      HalfSmaller(m);
      AndMinusOne(m / 2);
    }
  }

  /** d mod 2p in terms of d / 2 mod p. */
  lemma HalfMod(d: int, p: nat)
    requires p >= 1
    ensures 2 * ((d / 2) % p) + d % 2 == d % (2 * p)
  {
    var h := d / 2;
    var q := h / p;
    var r := h % p;
    assert h == q * p + r && 0 <= r < p;
    assert d == 2 * h + d % 2;
    assert q * (2 * p) == 2 * (q * p);
    DivModUnique(d, 2 * p, q, 2 * r + d % 2);
  }

  /** x ^ y ^ y == x. */
  lemma {:induction false} XorInvolution(a: int, b: int)
    ensures Bitwise(Xor, Bitwise(Xor, a, b), b) == a
    decreases Size(a) + Size(b)
  {
    var c := Bitwise(Xor, a, b);
    BitwiseStep(Xor, a, b);
    if (a == 0 || a == -1) && (b == 0 || b == -1) {
    } else {
      HalfSmaller(a);
      HalfSmaller(b);
      XorInvolution(a / 2, b / 2);
      BitwiseStep(Xor, c, b);
      var r := Bitwise(Xor, c, b);
      assert r / 2 == a / 2;
      assert r % 2 == a % 2;
    }
  }

  /** x ^ x == 0. */
  lemma {:induction false} XorSelf(a: int)
    ensures Bitwise(Xor, a, a) == 0
    decreases Size(a)
  {
    if a != 0 && a != -1 {
      HalfSmaller(a);
      XorSelf(a / 2);
    }
  }

  /** The operators are symmetric. */
  lemma {:induction false} BitwiseCommutes(op: BitOp, a: int, b: int)
    ensures Bitwise(op, a, b) == Bitwise(op, b, a)
    decreases Size(a) + Size(b)
  {
    if !((a == 0 || a == -1) && (b == 0 || b == -1)) {
      HalfSmaller(a);
      HalfSmaller(b);
      BitwiseCommutes(op, a / 2, b / 2);
    }
  }

  /** AND of a non-negative value is non-negative and no larger than it. */
  lemma {:induction false} AndBounded(a: int, b: int)
    requires a >= 0
    ensures 0 <= Bitwise(And, a, b) <= a
    decreases Size(a) + Size(b)
  {
    if !((a == 0 || a == -1) && (b == 0 || b == -1)) {
      HalfSmaller(a);
      HalfSmaller(b);
      AndBounded(a / 2, b / 2);
    }
  }
}
