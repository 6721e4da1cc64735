// Strings of bytes as strings of bits, the most significant bit of the first byte first (bitops.c).
module Bits {
  import opened Basics

  type Bytes = seq<Byte>

  // The byte in which only bit k is set, from the left.
  function Mask(k: nat): Byte
    requires k < 8
  {
    match k
    case 0 => 0x80
    case 1 => 0x40
    case 2 => 0x20
    case 3 => 0x10
    case 4 => 0x08
    case 5 => 0x04
    case 6 => 0x02
    case 7 => 0x01
  }

  // Bit k of a byte, from the left.
  predicate BitOf(b: Byte, k: nat)
    requires k < 8
  {
    b & Mask(k) != 0
  }

  predicate BitAt(s: Bytes, i: nat)
    requires i < 8 * |s|
  {
    BitOf(s[i / 8], i % 8)
  }

  // The string continued with zeros.
  predicate Padded(s: Bytes, i: nat) { i < 8 * |s| && BitAt(s, i) }

  function Unit(b: bool): nat { if b then 1 else 0 }

  function Pow2(n: nat): (p: nat)
    ensures p > 0
  {
    if n == 0 then 1 else 2 * Pow2(n - 1)
  }

  lemma {:induction false} PowPlus(a: nat, b: nat)
    ensures Pow2(a + b) == Pow2(a) * Pow2(b)
  {
    if b > 0 {
      PowPlus(a, b - 1);
      assert 2 * (Pow2(a) * Pow2(b - 1)) == Pow2(a) * (2 * Pow2(b - 1));
    }
  }

  lemma {:induction false} PowGrows(a: nat, b: nat)
    requires a <= b
    ensures Pow2(a) <= Pow2(b)
  {
    if a < b { PowGrows(a, b - 1); }
  }

  // ---------------------------------------------------------------------------------------------
  // Bytes
  // ---------------------------------------------------------------------------------------------

  // Bit k set to v, the way the source does it.
  function WithBit(b: Byte, k: nat, v: bool): Byte
    requires k < 8
  {
    (b & !Mask(k)) | (if v then Mask(k) else 0)
  }

  lemma MasksApart(i: nat, k: nat)
    requires i < 8 && k < 8
    ensures Mask(i) != 0 && (i != k ==> Mask(i) & Mask(k) == 0)
  {
    match i { case 0 => case 1 => case 2 => case 3 => case 4 => case 5 => case 6 => case 7 => }
  }

  lemma SingleBit(i: nat, b: Byte)
    requires i < 8
    ensures b & Mask(i) == 0 || b & Mask(i) == Mask(i)
  {
    match i { case 0 => case 1 => case 2 => case 3 => case 4 => case 5 => case 6 => case 7 => }
  }

  // Bit k from the left is bit 7 - k by its weight.
  lemma BitIsShifted(b: Byte)
    ensures BitOf(b, 0) <==> (b >> 7) & 1 == 1
    ensures BitOf(b, 1) <==> (b >> 6) & 1 == 1
    ensures BitOf(b, 2) <==> (b >> 5) & 1 == 1
    ensures BitOf(b, 3) <==> (b >> 4) & 1 == 1
    ensures BitOf(b, 4) <==> (b >> 3) & 1 == 1
    ensures BitOf(b, 5) <==> (b >> 2) & 1 == 1
    ensures BitOf(b, 6) <==> (b >> 1) & 1 == 1
    ensures BitOf(b, 7) <==> b & 1 == 1
  {}

  lemma OtherMask(b: Byte, m: Byte, n: Byte, v: Byte)
    requires m & n == 0 && (v == m || v == 0)
    ensures ((b & !m) | v) & n == b & n
  {}

  lemma SameMask(b: Byte, m: Byte, v: Byte)
    requires v == m || v == 0
    ensures ((b & !m) | v) & m == v
  {}

  lemma WithBitIs(b: Byte, k: nat, v: bool, i: nat)
    requires k < 8 && i < 8
    ensures BitOf(WithBit(b, k, v), i) == if i == k then v else BitOf(b, i)
  {
    hide Mask;
    MasksApart(i, k);
    MasksApart(k, i);
    if i == k {
      SameMask(b, Mask(k), if v then Mask(k) else 0);
    } else {
      OtherMask(b, Mask(k), Mask(i), if v then Mask(k) else 0);
    }
  }

  // Equal bits make equal bytes.
  lemma SameByte(a: Byte, b: Byte)
    requires forall k :: 0 <= k < 8 ==> BitOf(a, k) == BitOf(b, k)
    ensures a == b
  {
    assert BitOf(a, 0) == BitOf(b, 0) && BitOf(a, 1) == BitOf(b, 1) && BitOf(a, 2) == BitOf(b, 2) && BitOf(a, 3) == BitOf(b, 3);
    assert BitOf(a, 4) == BitOf(b, 4) && BitOf(a, 5) == BitOf(b, 5) && BitOf(a, 6) == BitOf(b, 6) && BitOf(a, 7) == BitOf(b, 7);
  }

  lemma ZeroBits(k: nat)
    requires k < 8
    ensures !BitOf(0, k) && BitOf(0xff, k)
  {}

  // ---------------------------------------------------------------------------------------------
  // Fields
  // ---------------------------------------------------------------------------------------------

  // The number in the n bits from position o of a string that is continued with zeros.
  function Field(s: Bytes, o: nat, n: nat): nat {
    if n == 0 then 0 else 2 * Field(s, o, n - 1) + Unit(Padded(s, o + n - 1))
  }

  lemma {:induction false} FieldRange(s: Bytes, o: nat, n: nat)
    ensures Field(s, o, n) < Pow2(n)
  {
    if n > 0 { FieldRange(s, o, n - 1); }
  }

  predicate Alike(s: Bytes, o: nat, t: Bytes, p: nat, i: nat) { Padded(s, o + i) == Padded(t, p + i) }

  // Fields with the same bits have the same number.
  lemma {:induction false} FieldFrame(s: Bytes, o: nat, t: Bytes, p: nat, n: nat)
    requires forall i :: 0 <= i < n ==> Alike(s, o, t, p, i)
    ensures Field(s, o, n) == Field(t, p, n)
  {
    hide Padded;
    if n > 0 {
      FieldFrame(s, o, t, p, n - 1);
      assert Alike(s, o, t, p, n - 1);
    }
  }

  // Bit k of a number of n bits, from the left.
  predicate Digit(v: nat, n: nat, k: nat)
    requires k < n
  {
    (v / Pow2(n - 1 - k)) % 2 == 1
  }

  lemma {:induction false} FieldDigit(s: Bytes, o: nat, n: nat, k: nat)
    requires k < n
    ensures Digit(Field(s, o, n), n, k) == Padded(s, o + k)
    decreases n
  {
    var f := Field(s, o, n);
    hide Padded;
    if k == n - 1 {
      assert Pow2(0) == 1;
    } else {
      FieldDigit(s, o, n - 1, k);
      assert f / 2 == Field(s, o, n - 1);
      HalfThen(f, Pow2(n - 2 - k));
      assert Pow2(n - 1 - k) == 2 * Pow2(n - 2 - k);
    }
  }

  lemma HalfThen(x: nat, p: nat)
    requires p > 0
    ensures (x / 2) / p == x / (2 * p)
  {
    var q, r := x / (2 * p), x % (2 * p);
    assert x == q * (2 * p) + r;
    assert x / 2 == q * p + r / 2 by { assert x == 2 * (q * p) + r; }
    assert r / 2 < p;
    DivIs(x / 2, p, q, r / 2);
  }

  lemma DivIs(x: int, p: nat, q: int, r: int)
    requires p > 0 && x == q * p + r && 0 <= r < p
    ensures x / p == q && x % p == r
  {
    if x / p < q {
      assert (x / p + 1) * p <= q * p by { Scale(x / p + 1, q, p); }
    } else if x / p > q {
      assert (q + 1) * p <= x / p * p by { Scale(q + 1, x / p, p); }
    }
  }

  lemma Scale(a: int, b: int, p: nat)
    requires a <= b
    ensures a * p <= b * p
  {
    assert (b - a) * p >= 0;
  }
}
