/** Arithmetic on bit patterns, as numbers cut to a width. */
module Bits {
  function Pow2(n: nat): (p: nat)
    ensures p > 0
  {
    if n == 0 then 1 else 2 * Pow2(n - 1)
  }

  lemma {:induction false} Pow2Sum(a: nat, b: nat)
    ensures Pow2(a + b) == Pow2(a) * Pow2(b)
    decreases b
  {
    if b > 0 {
      Pow2Sum(a, b - 1);
    }
  }

  function Cut(x: int, w: nat): (c: nat)
    ensures c < Pow2(w)
  {
    x % Pow2(w)
  }

  lemma Quotient(x: int, q: int, r: int, m: nat)
    requires m > 0 && x == q * m + r && 0 <= r < m
    ensures x % m == r && x / m == q
  {
    var d := x / m - q;
    assert x % m - r == -d * m;
    Multiple(d, m);
  }

  lemma Multiple(d: int, m: nat)
    ensures d >= 1 ==> d * m >= m
    ensures d <= -1 ==> d * m + m <= 0
  {
  }

  /** Numbers that differ by a multiple of `m` leave the same remainder. */
  lemma SameRemainder(x: int, y: int, k: int, m: nat)
    requires m > 0 && x == y + k * m
    ensures x % m == y % m
  {
    Quotient(x, y / m + k, y % m, m);
  }

  /** Cutting twice is cutting once, to the smaller width. */
  lemma CutTwice(x: int, wide: nat, narrow: nat)
    requires narrow <= wide
    ensures Cut(Cut(x, wide), narrow) == Cut(x, narrow)
  {
    Pow2Sum(narrow, wide - narrow);
    RemainderTwice(x, Pow2(wide), Pow2(narrow), Pow2(wide - narrow));
  }

  lemma RemainderTwice(x: int, all: nat, m: nat, rest: nat)
    requires m > 0 && all > 0 && all == m * rest
    ensures (x % all) % m == x % m
  {
    var q := x / all;
    assert x == x % all + q * all;
    Reorder(q, m, rest);
    SameRemainder(x, x % all, q * rest, m);
  }

  lemma Reorder(q: int, m: nat, rest: nat)
    ensures q * (m * rest) == (q * rest) * m
  {
  }

  lemma CutSum(x: int, y: int, w: nat)
    ensures Cut(Cut(x, w) + Cut(y, w), w) == Cut(x + y, w)
    ensures Cut(Cut(x, w) - Cut(y, w), w) == Cut(x - y, w)
    ensures Cut(0 - Cut(y, w), w) == Cut(-y, w)
  {
    var m := Pow2(w);
    var p, q := x / m, y / m;
    SameRemainder(x + y, Cut(x, w) + Cut(y, w), p + q, m);
    SameRemainder(x - y, Cut(x, w) - Cut(y, w), p - q, m);
    SameRemainder(-y, 0 - Cut(y, w), -q, m);
  }

  lemma CutProduct(x: int, y: int, w: nat)
    ensures Cut(Cut(x, w) * Cut(y, w), w) == Cut(x * y, w)
  {
    var m := Pow2(w);
    var p, q, a, b := x / m, y / m, Cut(x, w), Cut(y, w);
    assert x == p * m + a && y == q * m + b;
    calc {
      x * y;
      (p * m + a) * (q * m + b);
      a * b + (p * q * m + p * b + q * a) * m;
    }
    SameRemainder(x * y, a * b, p * q * m + p * b + q * a, m);
  }

  // ---------- bit by bit ----------

  datatype BitOp = AndBits | OrBits | XorBits

  function Bit(op: BitOp, a: nat, b: nat): nat
    requires a < 2 && b < 2
    ensures Bit(op, a, b) < 2 && Bit(op, 0, 0) == 0
  {
    match op
    case AndBits => a * b
    case OrBits => if a == 1 || b == 1 then 1 else 0
    case XorBits => if a == b then 0 else 1
  }

  function Bitwise(op: BitOp, a: nat, b: nat): nat
    decreases a + b
  {
    if a == 0 && b == 0 then 0 else 2 * Bitwise(op, a / 2, b / 2) + Bit(op, a % 2, b % 2)
  }

  /** The low bits of the result come from the low bits of the operands. */
  lemma {:induction false} CutBitwise(op: BitOp, a: nat, b: nat, w: nat)
    ensures Bitwise(op, Cut(a, w), Cut(b, w)) == Cut(Bitwise(op, a, b), w)
    decreases w
  {
    if w > 0 {
      LowBit(a, w);
      LowBit(b, w);
      LowBit(Bitwise(op, a, b), w);
      CutBitwise(op, a / 2, b / 2, w - 1);
      assert Bitwise(op, a, b) / 2 == Bitwise(op, a / 2, b / 2);
      assert Bitwise(op, a, b) % 2 == Bit(op, a % 2, b % 2);
    }
  }

  lemma LowBit(x: nat, w: nat)
    requires w > 0
    ensures Cut(x, w) / 2 == Cut(x / 2, w - 1) && Cut(x, w) % 2 == x % 2
  {
    var m, h := Pow2(w - 1), x / 2;
    var q, r := h / m, h % m;
    assert x == 2 * (q * m + r) + x % 2;
    assert x == q * (2 * m) + (2 * r + x % 2);
    Quotient(x, q, 2 * r + x % 2, 2 * m);
  }

  /** The bit of place `i`. */
  function BitAt(x: nat, i: nat): (b: nat)
    ensures b < 2
  {
    x / Pow2(i) % 2
  }

  lemma BitOfHalf(x: nat, i: nat)
    requires i > 0
    ensures BitAt(x, i) == BitAt(x / 2, i - 1)
  {
    var m, h := Pow2(i - 1), x / 2;
    var q, r := h / m, h % m;
    assert x == 2 * (q * m + r) + x % 2;
    assert x == q * (2 * m) + (2 * r + x % 2);
    Quotient(x, q, 2 * r + x % 2, 2 * m);
  }

  lemma {:induction false} BitwiseAt(op: BitOp, a: nat, b: nat, i: nat)
    ensures BitAt(Bitwise(op, a, b), i) == Bit(op, BitAt(a, i), BitAt(b, i))
    decreases i
  {
    var r := Bitwise(op, a, b);
    assert r / 2 == Bitwise(op, a / 2, b / 2) && r % 2 == Bit(op, a % 2, b % 2);
    if i > 0 {
      BitOfHalf(a, i);
      BitOfHalf(b, i);
      BitOfHalf(r, i);
      BitwiseAt(op, a / 2, b / 2, i - 1);
    }
  }

  lemma CutSmall(x: nat, w: nat)
    requires x < Pow2(w)
    ensures Cut(x, w) == x
  {
    Quotient(x, 0, x, Pow2(w));
  }

  lemma BitwiseInRange(op: BitOp, a: nat, b: nat, w: nat)
    requires a < Pow2(w) && b < Pow2(w)
    ensures Bitwise(op, a, b) < Pow2(w)
  {
    CutSmall(a, w);
    CutSmall(b, w);
    CutBitwise(op, a, b, w);
  }

  lemma {:induction false} Pow2Grows(a: nat, b: nat)
    requires a <= b
    ensures Pow2(a) <= Pow2(b)
    decreases b
  {
    if a < b {
      Pow2Grows(a, b - 1);
    }
  }
}
