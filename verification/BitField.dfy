// Integers of any width at any position of a string of bits (bitops.c).
module BitField {
  import opened Basics
  import opened Bits

  // ---------------------------------------------------------------------------------------------
  // Machine integers
  // ---------------------------------------------------------------------------------------------

  const TWO63: int := 0x8000_0000_0000_0000
  const TWO64: int := 0x1_0000_0000_0000_0000

  lemma PowersAre()
    ensures Pow2(63) == TWO63 && Pow2(64) == TWO64
  {
    assert Pow2(4) == 16;
    PowPlus(4, 4);
    PowPlus(8, 8);
    PowPlus(16, 16);
    assert Pow2(32) == 0x1_0000_0000;
    PowPlus(32, 32);
    assert Pow2(64) == 2 * Pow2(63);
  }

  predicate IsInt64(x: int) { -TWO63 <= x < TWO63 }

  predicate IsUint64(x: int) { 0 <= x < TWO64 }

  // Conversions between the types, and what arithmetic leaves of a number.
  function AsUint64(x: int): nat { x % TWO64 }

  function AsInt64(x: int): int {
    var u := x % TWO64;
    if u >= TWO63 then u - TWO64 else u
  }

  lemma PowDivides(n: nat)
    requires n <= 64
    ensures TWO64 == Pow2(64 - n) * Pow2(n)
  {
    PowersAre();
    PowPlus(64 - n, n);
  }

  lemma ModMod(x: int, a: nat, b: nat)
    requires a > 0 && b > 0
    ensures (x % (a * b)) % b == x % b
  {
    var m := a * b;
    assert m > 0;
    var q, r := x / m, x % m;
    assert x == q * m + r;
    assert x == q * a * b + r by { assert q * m == q * a * b; }
    var q', r' := r / b, r % b;
    assert r == q' * b + r';
    assert x == (q * a + q') * b + r' by { assert (q * a + q') * b == q * a * b + q' * b; }
    DivIs(x, b, q * a + q', r');
  }

  // The low bits of a number do not depend on the width of the type.
  lemma LowBits(x: int, n: nat)
    requires n <= 64
    ensures (x % TWO64) % Pow2(n) == x % Pow2(n)
  {
    PowDivides(n);
    ModMod(x, Pow2(64 - n), Pow2(n));
  }

  // ---------------------------------------------------------------------------------------------
  // Values of fields
  // ---------------------------------------------------------------------------------------------

  // Two's complement.
  function ToSigned(u: int, n: nat): int
    requires n > 0
  {
    if u >= Pow2(n - 1) then u - Pow2(n) else u
  }

  // The range of a type, and a number reduced to it.
  function Min(signed: bool, n: nat): int
    requires n > 0
  {
    if signed then 0 - Pow2(n - 1) else 0
  }

  function Max(signed: bool, n: nat): int
    requires n > 0
  {
    if signed then Pow2(n - 1) - 1 else Pow2(n) - 1
  }

  predicate InRange(signed: bool, n: nat, x: int)
    requires n > 0
  {
    Min(signed, n) <= x <= Max(signed, n)
  }

  function Wrapped(signed: bool, n: nat, x: int): int
    requires n > 0
  {
    if signed then ToSigned(x % Pow2(n), n) else x % Pow2(n)
  }

  function Clamped(signed: bool, n: nat, x: int): int
    requires n > 0
  {
    if x > Max(signed, n) then Max(signed, n) else if x < Min(signed, n) then Min(signed, n) else x
  }

  // What a type reads in the n bits from position o.
  function Read(signed: bool, s: Bytes, o: nat, n: nat): int
    requires n > 0
  {
    if signed then ToSigned(Field(s, o, n), n) else Field(s, o, n)
  }

  lemma ReadInRange(signed: bool, s: Bytes, o: nat, n: nat)
    requires n > 0
    ensures InRange(signed, n, Read(signed, s, o, n))
  {
    FieldRange(s, o, n);
    assert Pow2(n) == 2 * Pow2(n - 1);
  }

  lemma SmallMod(x: int, p: nat)
    requires p > 0 && 0 - p <= x < p
    ensures x % p == if x < 0 then x + p else x
  {
    if x < 0 { DivIs(x, p, -1, x + p); } else { DivIs(x, p, 0, x); }
  }

  lemma PowDouble(n: nat)
    requires n > 0
    ensures Pow2(n) == 2 * Pow2(n - 1)
  {}

  // A number in the range is its own reduction, and reducing keeps the low bits.
  lemma WrappedIs(signed: bool, n: nat, x: int)
    requires n > 0
    ensures InRange(signed, n, Wrapped(signed, n, x))
    ensures InRange(signed, n, x) ==> Wrapped(signed, n, x) == x
    ensures Wrapped(signed, n, x) % Pow2(n) == x % Pow2(n)
  {
    hide Pow2;
    PowDouble(n);
    SmallMod(x % Pow2(n), Pow2(n));
    SmallMod(x % Pow2(n) - Pow2(n), Pow2(n));
    if InRange(signed, n, x) {
      SmallMod(x, Pow2(n));
    }
  }

  // ---------------------------------------------------------------------------------------------
  // Writing and reading
  // ---------------------------------------------------------------------------------------------

  predicate BinaryDigit(v: nat, e: nat) { (v / Pow2(e)) % 2 == 1 }

  // The bits from position o are those of the number v, and the others are as before.
  ghost predicate Written(before: Bytes, after: Bytes, o: nat, n: nat, v: nat) {
    && |before| == |after|
    && forall i :: 0 <= i < 8 * |after| ==>
        Padded(after, i) == if o <= i < o + n then BinaryDigit(v, n - 1 - (i - o)) else Padded(before, i)
  }

  lemma {:induction false} FieldOfDigits(s: Bytes, o: nat, n: nat, k: nat, v: nat)
    requires k <= n && o + n <= 8 * |s|
    requires forall i :: o <= i < o + n ==> Padded(s, i) == BinaryDigit(v, n - 1 - (i - o))
    ensures Field(s, o, k) == (v / Pow2(n - k)) % Pow2(k)
  {
    hide Padded, Pow2, BinaryDigit;
    if k == 0 {
      NoBits(v / Pow2(n));
    } else {
      FieldOfDigits(s, o, n, k - 1, v);
      assert Padded(s, o + k - 1) == BinaryDigit(v, n - k);
      NextDigit(v, k, n - k);
    }
  }

  // One more digit of a number.
  lemma NextDigit(v: nat, k: nat, e: nat)
    requires k > 0
    ensures (v / Pow2(e)) % Pow2(k) == 2 * ((v / Pow2(e + 1)) % Pow2(k - 1)) + Unit(BinaryDigit(v, e))
  {
    hide Pow2;
    PowDouble(e + 1);
    PowDouble(k);
    DivTwice(v, Pow2(e));
    ModDouble(v / Pow2(e), Pow2(k - 1));
  }

  lemma NoBits(x: int)
    ensures Pow2(0) == 1 && x % Pow2(0) == 0 && x / Pow2(0) == x
  {}

  lemma DivTwice(v: nat, p: nat)
    requires p > 0
    ensures v / (2 * p) == (v / p) / 2
  {
    var q, r := v / (2 * p), v % (2 * p);
    assert v == q * (2 * p) + r;
    assert v == (2 * q) * p + r by { assert q * (2 * p) == 2 * q * p; }
    if r < p {
      DivIs(v, p, 2 * q, r);
    } else {
      assert v == (2 * q + 1) * p + (r - p) by { assert (2 * q + 1) * p == 2 * q * p + p; }
      DivIs(v, p, 2 * q + 1, r - p);
    }
  }

  lemma ModDouble(w: nat, p: nat)
    requires p > 0
    ensures w % (2 * p) == 2 * ((w / 2) % p) + w % 2
  {
    var h := w / 2;
    var q, r := h / p, h % p;
    assert h == q * p + r;
    assert w == 2 * h + w % 2;
    assert w == q * (2 * p) + (2 * r + w % 2) by { assert 2 * (q * p) == q * (2 * p); }
    DivIs(w, 2 * p, q, 2 * r + w % 2);
  }

  // Reading gives back what was written, reduced to the width.
  lemma ReadWritten(before: Bytes, after: Bytes, o: nat, n: nat, v: nat)
    requires Written(before, after, o, n, v) && o + n <= 8 * |after|
    ensures Field(after, o, n) == v % Pow2(n)
  {
    hide Padded, Field;
    FieldOfDigits(after, o, n, n, v);
    NoBits(v);
  }

  // setUnsignedBitfield
  method SetUnsignedBitfield(p: array<Byte>, offset: nat, bits: nat, value: nat)
    requires bits <= 64 && IsUint64(value) && offset + bits <= 8 * p.Length
    modifies p
    ensures Written(old(p[..]), p[..], offset, bits, value)
  {
    ghost var before := p[..];
    var o := offset;
    var j := 0;
    while j < bits
      invariant 0 <= j <= bits && o == offset + j
      invariant forall i :: 0 <= i < 8 * p.Length ==>
        Padded(p[..], i) == if offset <= i < offset + j then BinaryDigit(value, bits - 1 - (i - offset)) else Padded(before, i)
    {
      var bitval := (value / Pow2(bits - 1 - j)) % 2 == 1;
      ghost var s := p[..];
      p[o / 8] := WithBit(p[o / 8], o % 8, bitval);
      BitWritten(s, o, bitval);
      assert p[..] == s[o / 8 := WithBit(s[o / 8], o % 8, bitval)];
      o := o + 1;
      j := j + 1;
    }
  }

  lemma BitWritten(s: Bytes, o: nat, v: bool)
    requires o < 8 * |s|
    ensures var t := s[o / 8 := WithBit(s[o / 8], o % 8, v)];
      forall i :: 0 <= i < 8 * |s| ==> Padded(t, i) == if i == o then v else Padded(s, i)
  {
    hide BitOf, WithBit;
    var t := s[o / 8 := WithBit(s[o / 8], o % 8, v)];
    forall i | 0 <= i < 8 * |s| ensures Padded(t, i) == if i == o then v else Padded(s, i) {
      WithBitIs(s[o / 8], o % 8, v, i % 8);
    }
  }

  // getUnsignedBitfield
  method GetUnsignedBitfield(p: array<Byte>, offset: nat, bits: nat) returns (value: nat)
    requires bits <= 64 && offset + bits <= 8 * p.Length
    ensures value == Field(p[..], offset, bits)
  {
    hide Pow2, BitOf;
    value := 0;
    var j := 0;
    while j < bits
      invariant 0 <= j <= bits && value == Field(p[..], offset, j)
    {
      var o := offset + j;
      var bitval := BitOf(p[o / 8], o % 8);
      assert bitval == Padded(p[..], o);
      ShiftFits(p[..], offset, j);
      value := AsUint64(2 * value) + Unit(bitval);
      j := j + 1;
    }
  }

  // Shifting fewer than 64 bits to the left loses none.
  lemma ShiftFits(s: Bytes, o: nat, j: nat)
    requires j < 64
    ensures AsUint64(2 * Field(s, o, j)) == 2 * Field(s, o, j)
  {
    hide Pow2, Field;
    FieldRange(s, o, j);
    PowersAre();
    PowGrows(j, 63);
    SmallMod(2 * Field(s, o, j), TWO64);
  }

  // getSignedBitfield
  method GetSignedBitfield(p: array<Byte>, offset: nat, bits: nat) returns (value: int)
    requires 0 < bits <= 64 && offset + bits <= 8 * p.Length
    ensures value == ToSigned(Field(p[..], offset, bits), bits)
  {
    hide Pow2, AsInt64, ToSigned, Field;
    var u := GetUnsignedBitfield(p, offset, bits);
    FieldRange(p[..], offset, bits);
    SignExtends(u, bits);
    value := AsInt64(u);
    // The bit of the sign is set: the higher bits are set too.
    if bits < 64 && (u / Pow2(bits - 1)) % 2 == 1 {
      value := AsInt64(u + (TWO64 - Pow2(bits)));
    }
  }

  lemma SignExtends(u: nat, n: nat)
    requires 0 < n <= 64 && u < Pow2(n)
    ensures ToSigned(u, n) ==
      if n < 64 && (u / Pow2(n - 1)) % 2 == 1 then AsInt64(u + (TWO64 - Pow2(n))) else AsInt64(u)
  {
    hide Pow2;
    PowersAre();
    PowDouble(n);
    PowGrows(n, 64);
    PowGrows(n - 1, 63);
    TopDigit(u, n);
    SmallMod(u, TWO64);
    if n < 64 {
      PowGrows(n, 63);
      SmallMod(u + (TWO64 - Pow2(n)), TWO64);
    }
  }

  lemma TopDigit(u: nat, n: nat)
    requires n > 0 && u < Pow2(n)
    ensures (u / Pow2(n - 1)) % 2 == 1 <==> u >= Pow2(n - 1)
  {
    var p := Pow2(n - 1);
    if u >= p {
      DivIs(u, p, 1, u - p);
    } else {
      DivIs(u, p, 0, u);
    }
  }

  // ---------------------------------------------------------------------------------------------
  // Overflow
  // ---------------------------------------------------------------------------------------------

  datatype Overflow = WRAP | SAT | FAIL

  lemma AsInt64Is(x: int)
    ensures IsInt64(x) ==> AsInt64(x) == x
    ensures TWO63 <= x < TWO64 ==> AsInt64(x) == x - TWO64
  {
    if -TWO64 <= x < TWO64 { SmallMod(x, TWO64); }
  }

  // The result of the addition in 64 bits, with the bits above the width masked off.
  function UnsignedWrap(value: int, incr: int, bits: nat): int { AsUint64(value + incr) % Pow2(bits) }

  lemma UnsignedWrapIs(value: int, incr: int, bits: nat)
    requires 0 < bits < 64
    ensures UnsignedWrap(value, incr, bits) == Wrapped(false, bits, value + incr)
  {
    hide Pow2;
    LowBits(value + incr, bits);
  }

  // checkUnsignedBitfieldOverflow, for the value of a field, or for a value without increment.
  method CheckUnsignedBitfieldOverflow(value: int, incr: int, bits: nat, ow: Overflow) returns (ret: int, limit: int)
    requires IsUint64(value) && IsInt64(incr) && 0 < bits < 64
    requires value < Pow2(bits) || incr == 0
    ensures ret == 0 <==> InRange(false, bits, value + incr)
    ensures ret != 0 && ow == WRAP ==> limit == Wrapped(false, bits, value + incr)
    ensures ret != 0 && ow == SAT ==> limit == Clamped(false, bits, value + incr)
    ensures ret != 0 && ow != WRAP ==> ret == if value + incr > Max(false, bits) then 1 else -1
  {
    hide Pow2, AsInt64, UnsignedWrap, Wrapped;
    PowersAre();
    PowGrows(bits, 63);
    limit := 0;
    var max := Pow2(bits) - 1;
    var maxincr, minincr := AsInt64(max - value), AsInt64(-value);
    AsInt64Is(max - value);
    AsInt64Is(-value);
    UnsignedWrapIs(value, incr, bits);
    if value > max || (incr > 0 && incr > maxincr) {
      if ow == WRAP {
        limit := UnsignedWrap(value, incr, bits);
      } else if ow == SAT {
        limit := max;
      }
      return 1, limit;
    } else if incr < 0 && incr < minincr {
      if ow == WRAP {
        return 1, UnsignedWrap(value, incr, bits);
      } else if ow == SAT {
        limit := 0;
      }
      return -1, limit;
    }
    ret := 0;
  }

  // The result of the addition in 64 bits, with the bits above the width made equal to the sign.
  function SignedWrap(value: int, incr: int, bits: nat): int
    requires 0 < bits <= 64
  {
    var c := AsUint64(value + incr);
    if bits == 64 then AsInt64(c)
    else
      var low := c % Pow2(bits);
      AsInt64(if (c / Pow2(bits - 1)) % 2 == 1 then low + (TWO64 - Pow2(bits)) else low)
  }

  lemma SignedWrapIs(value: int, incr: int, bits: nat)
    requires 0 < bits <= 64
    ensures SignedWrap(value, incr, bits) == Wrapped(true, bits, value + incr)
  {
    hide Pow2, AsInt64, ToSigned;
    PowersAre();
    var x := value + incr;
    var c := AsUint64(x);
    LowBits(x, bits);
    var low := c % Pow2(bits);
    SignExtends(low, bits);
    if bits < 64 {
      HighDigit(c, bits);
    }
  }

  // A digit below the width does not depend on what is above.
  lemma HighDigit(c: nat, n: nat)
    requires n > 0
    ensures (c / Pow2(n - 1)) % 2 == ((c % Pow2(n)) / Pow2(n - 1)) % 2
  {
    hide Pow2;
    PowDouble(n);
    var h, p := Pow2(n - 1), Pow2(n);
    var q, u := c / p, c % p;
    assert c == q * p + u;
    assert c == (2 * q) * h + u by { assert q * (2 * h) == 2 * q * h; }
    if u < h {
      DivIs(u, h, 0, u);
      DivIs(c, h, 2 * q, u);
    } else {
      DivIs(u, h, 1, u - h);
      assert c == (2 * q + 1) * h + (u - h) by { assert (2 * q + 1) * h == 2 * q * h + h; }
      DivIs(c, h, 2 * q + 1, u - h);
    }
  }

  // checkSignedBitfieldOverflow. A value that is out of range by itself, and so far below it that its
  // distance to the maximum does not fit in 64 bits, is taken for one that is above.
  method CheckSignedBitfieldOverflow(value: int, incr: int, bits: nat, ow: Overflow) returns (ret: int, limit: int)
    requires IsInt64(value) && IsInt64(incr) && 0 < bits <= 64
    requires InRange(true, bits, value) || incr == 0
    ensures ret == 0 <==> InRange(true, bits, value + incr)
    ensures ret != 0 && ow == WRAP ==> limit == Wrapped(true, bits, value + incr)
    ensures ret != 0 && ow == SAT && (InRange(true, bits, value) || Near(bits, value)) ==> limit == Clamped(true, bits, value + incr)
    ensures ow == SAT && !InRange(true, bits, value) && !Near(bits, value) ==> limit == Max(true, bits)
  {
    hide Pow2, SignedWrap, AsInt64, Wrapped;
    PowersAre();
    PowGrows(bits - 1, 63);
    if bits < 64 { PowGrows(bits - 1, 62); PowDouble(63); }
    limit := 0;
    var max := Pow2(bits - 1) - 1;
    var min := -max - 1;
    var maxincr, minincr := AsInt64(max - value), AsInt64(min - value);
    AsInt64Is(max - value);
    AsInt64Is(min - value);
    SignedWrapIs(value, incr, bits);
    if value > max || (bits != 64 && incr > maxincr) || (value >= 0 && incr > 0 && incr > maxincr) {
      if ow == WRAP {
        limit := SignedWrap(value, incr, bits);
      } else if ow == SAT {
        limit := max;
      }
      return 1, limit;
    } else if value < min || (bits != 64 && incr < minincr) || (value < 0 && incr < 0 && incr < minincr) {
      if ow == WRAP {
        return 1, SignedWrap(value, incr, bits);
      } else if ow == SAT {
        limit := min;
      }
      return -1, limit;
    }
    ret := 0;
  }

  // The distance of a value to the maximum fits in 64 bits.
  predicate Near(bits: nat, value: int)
    requires bits > 0
  {
    Max(true, bits) - value < TWO63
  }
}
