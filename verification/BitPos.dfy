// The position of the first bit that is set or clear (bitops.c).
module BitPos {
  import opened Basics
  import opened Bits

  // ---------------------------------------------------------------------------------------------
  // What is looked for
  // ---------------------------------------------------------------------------------------------

  // The least position from a on, before b, at which the bit is as wanted; b if there is none.
  function First(s: Bytes, bit: bool, a: nat, b: nat): (r: nat)
    requires a <= b
    ensures a <= r <= b
    decreases b - a
  {
    if a == b || Padded(s, a) == bit then a else First(s, bit, a + 1, b)
  }

  lemma {:induction false} FirstIs(s: Bytes, bit: bool, a: nat, b: nat, r: nat)
    requires a <= r <= b && (forall i :: a <= i < r ==> Padded(s, i) != bit) && (r < b ==> Padded(s, r) == bit)
    ensures First(s, bit, a, b) == r
    decreases b - a
  {
    hide Padded;
    if a < r { FirstIs(s, bit, a + 1, b, r); }
  }

  lemma {:induction false} FirstHas(s: Bytes, bit: bool, a: nat, b: nat)
    requires a <= b
    ensures var r := First(s, bit, a, b);
      (forall i :: a <= i < r ==> Padded(s, i) != bit) && (r < b ==> Padded(s, r) == bit)
    decreases b - a
  {
    hide Padded;
    if a < b && Padded(s, a) != bit { FirstHas(s, bit, a + 1, b); }
  }

  // ---------------------------------------------------------------------------------------------
  // Numbers and their bits
  // ---------------------------------------------------------------------------------------------

  lemma {:induction false} FieldZero(s: Bytes, o: nat, n: nat)
    ensures Field(s, o, n) == 0 <==> forall i :: o <= i < o + n ==> !Padded(s, i)
  {
    hide Padded;
    if n > 0 { FieldZero(s, o, n - 1); }
  }

  lemma {:induction false} FieldConcat(s: Bytes, o: nat, a: nat, b: nat)
    ensures Field(s, o, a + b) == Field(s, o, a) * Pow2(b) + Field(s, o + a, b)
  {
    hide Padded;
    if b > 0 {
      FieldConcat(s, o, a, b - 1);
      var f := Field(s, o, a);
      assert 2 * (f * Pow2(b - 1)) == f * Pow2(b) by { assert Pow2(b) == 2 * Pow2(b - 1); }
      assert o + (a + b) - 1 == o + a + b - 1;
    } else {
      assert Pow2(0) == 1;
    }
  }

  // The number of a byte.
  function Number(b: Byte): nat { Field([b], 0, 8) }

  lemma ByteField(s: Bytes, c: nat)
    ensures Field(s, 8 * c, 8) == if c < |s| then Number(s[c]) else 0
  {
    hide Field, BitOf;
    if c < |s| {
      forall i | 0 <= i < 8 ensures Alike(s, 8 * c, [s[c]], 0, i) {
        assert (8 * c + i) / 8 == c && (8 * c + i) % 8 == i;
      }
      FieldFrame(s, 8 * c, [s[c]], 0, 8);
    } else {
      FieldZero(s, 8 * c, 8);
    }
  }

  lemma ByteBits(s: Bytes, c: nat, v: Byte, bit: bool)
    requires c < |s| && s[c] == v && (v == 0 || v == 0xff) && bit == (v == 0)
    ensures forall i :: 8 * c <= i < 8 * c + 8 ==> Padded(s, i) != bit
  {
    hide BitOf;
    forall i | 8 * c <= i < 8 * c + 8 ensures Padded(s, i) != bit {
      assert i / 8 == c;
      ZeroBits(i % 8);
    }
  }

  // A byte that is not all of the other bit has the bit.
  lemma ByteHas(s: Bytes, c: nat, bit: bool)
    requires c < |s| && s[c] != if bit then 0 else 0xff
    ensures exists i :: 8 * c <= i < 8 * c + 8 && Padded(s, i) == bit
  {
    hide BitOf;
    var v: Byte := if bit then 0 else 0xff;
    if forall i :: 8 * c <= i < 8 * c + 8 ==> Padded(s, i) != bit {
      forall k | 0 <= k < 8 ensures BitOf(s[c], k) == BitOf(v, k) {
        ZeroBits(k);
        assert (8 * c + k) / 8 == c && (8 * c + k) % 8 == k;
        assert Padded(s, 8 * c + k) != bit;
      }
      SameByte(s[c], v);
      assert false;
    }
  }

  // ---------------------------------------------------------------------------------------------
  // redisBitpos
  // ---------------------------------------------------------------------------------------------

  // The bytes from c on, up to eight of them, the first the most significant, with zeros on the right.
  method LoadWord(s: Bytes, c: nat) returns (word: nat)
    requires c <= |s|
    ensures word == Field(s, 8 * c, 64)
  {
    hide Field, Number;
    word := 0;
    var j := 0;
    FieldZero(s, 8 * c, 0);
    while j < 8
      invariant 0 <= j <= 8 && word == Field(s, 8 * c, 8 * j)
    {
      FieldConcat(s, 8 * c, 8 * j, 8);
      ByteField(s, c + j);
      assert Pow2(8) == 256;
      word := word * 256;
      if c + j < |s| {
        word := word + Number(s[c + j]);
      }
      j := j + 1;
    }
  }

  // The first of 64 bits that is as wanted; there is one, so that the end of the loop is not reached.
  method ScanWord(word: nat, bit: bool, ghost s: Bytes, ghost o: nat) returns (k: nat)
    requires word == Field(s, o, 64) && exists i :: o <= i < o + 64 && Padded(s, i) == bit
    ensures k < 64 && Padded(s, o + k) == bit && forall i :: o <= i < o + k ==> Padded(s, i) != bit
  {
    hide Padded, Field, Pow2;
    k := 0;
    while true
      invariant k < 64 && forall i :: o <= i < o + k ==> Padded(s, i) != bit
      decreases 64 - k
    {
      FieldDigit(s, o, 64, k);
      if ((word / Pow2(63 - k)) % 2 == 1) == bit {
        return;
      }
      assert Padded(s, o + k) != bit;
      k := k + 1;
    }
  }

  // redisBitpos, for a string at an address with the given alignment.
  method RedisBitpos(s: Bytes, address: nat, bit: bool) returns (pos: int)
    ensures var r := First(s, bit, 0, 8 * |s|); pos == if bit && r == 8 * |s| then -1 else r
  {
    hide Padded, Field, Number, First;
    var skip: Byte := if bit then 0 else 0xff;
    var c := 0;
    var found := false;
    while (address + c) % 8 != 0 && c < |s| && !found
      invariant 0 <= c <= |s| && (forall i :: 0 <= i < 8 * c ==> Padded(s, i) != bit)
      invariant found ==> c < |s| && s[c] != skip
      decreases |s| - c, !found
    {
      if s[c] != skip {
        found := true;
      } else {
        ByteBits(s, c, skip, bit);
        c := c + 1;
      }
    }
    if !found {
      while |s| - c >= 8 && s[c..c + 8] == [skip, skip, skip, skip, skip, skip, skip, skip]
        invariant 0 <= c <= |s| && (forall i :: 0 <= i < 8 * c ==> Padded(s, i) != bit)
        decreases |s| - c
      {
        SkipWord(s, c, skip, bit);
        c := c + 8;
      }
    }
    var word := LoadWord(s, c);
    FieldZero(s, 8 * c, 64);
    Rest(s, c, skip, bit);
    if bit && word == 0 {
      FirstIs(s, bit, 0, 8 * |s|, 8 * |s|);
      return -1;
    }
    var k := ScanWord(word, bit, s, 8 * c);
    pos := 8 * c + k;
    PastEnd(s, bit, 8 * c + k);
    FirstIs(s, bit, 0, 8 * |s|, pos);
  }

  lemma SkipWord(s: Bytes, c: nat, v: Byte, bit: bool)
    requires c + 8 <= |s| && s[c..c + 8] == [v, v, v, v, v, v, v, v] && (v == 0 || v == 0xff) && bit == (v == 0)
    ensures forall i :: 8 * c <= i < 8 * (c + 8) ==> Padded(s, i) != bit
  {
    hide Padded;
    forall i | 8 * c <= i < 8 * (c + 8) ensures Padded(s, i) != bit {
      var k := i / 8;
      assert s[c..c + 8][k - c] == s[k];
      ByteBits(s, k, v, bit);
    }
  }

  // Where the loops stop there is a bit as wanted among the next 64, or a set bit is wanted and the
  // string ends.
  lemma Rest(s: Bytes, c: nat, skip: Byte, bit: bool)
    requires c <= |s| && skip == (if bit then 0 else 0xff)
    requires (c < |s| && s[c] != skip) || |s| - c < 8 || s[c..c + 8] != [skip, skip, skip, skip, skip, skip, skip, skip]
    ensures (exists i :: 8 * c <= i < 8 * c + 64 && Padded(s, i) == bit) || (bit && |s| - c < 8)
  {
    hide Padded;
    if c < |s| && s[c] != skip {
      ByteHas(s, c, bit);
      var i :| 8 * c <= i < 8 * c + 8 && Padded(s, i) == bit;
    } else if |s| - c < 8 {
      if !bit { BeyondEnd(s, 8 * |s|); }
    } else {
      var k := Unequal(s[c..c + 8], skip);
      ByteHas(s, c + k, bit);
      var i :| 8 * (c + k) <= i < 8 * (c + k) + 8 && Padded(s, i) == bit;
    }
  }

  lemma Unequal(t: Bytes, v: Byte) returns (k: nat)
    requires |t| == 8 && t != [v, v, v, v, v, v, v, v]
    ensures k < 8 && t[k] != v
  {
    k :| 0 <= k < 8 && t[k] != v;
  }

  lemma BeyondEnd(s: Bytes, i: nat)
    requires i >= 8 * |s|
    ensures !Padded(s, i)
  {}

  // The first clear bit is at most the end; the first set bit is before it.
  lemma PastEnd(s: Bytes, bit: bool, r: nat)
    requires Padded(s, r) == bit && forall i :: 0 <= i < r ==> Padded(s, i) != bit
    ensures r <= 8 * |s| && (bit ==> r < 8 * |s|)
  {
    BeyondEnd(s, 8 * |s|);
  }

  // ---------------------------------------------------------------------------------------------
  // Parts of strings
  // ---------------------------------------------------------------------------------------------

  lemma {:induction false} FirstSplit(s: Bytes, bit: bool, a: nat, b: nat, c: nat)
    requires a <= b <= c
    ensures First(s, bit, a, c) == if First(s, bit, a, b) < b then First(s, bit, a, b) else First(s, bit, b, c)
    decreases b - a
  {
    hide Padded;
    if a < b { FirstSplit(s, bit, a + 1, b, c); }
  }

  lemma SliceBits(s: Bytes, x: nat, y: nat, i: nat)
    requires x <= y <= |s| && i < 8 * (y - x)
    ensures Padded(s[x..y], i) == Padded(s, 8 * x + i)
  {
    assert (8 * x + i) / 8 == x + i / 8 && (8 * x + i) % 8 == i % 8;
  }

  // Looking in some bytes is looking in the string.
  lemma FirstOfSlice(s: Bytes, bit: bool, x: nat, y: nat)
    requires x <= y <= |s|
    ensures 8 * x + First(s[x..y], bit, 0, 8 * (y - x)) == First(s, bit, 8 * x, 8 * y)
  {
    hide Padded, First;
    var t := s[x..y];
    var r := First(t, bit, 0, 8 * (y - x));
    FirstHas(t, bit, 0, 8 * (y - x));
    forall i | 8 * x <= i < 8 * x + r ensures Padded(s, i) != bit { SliceBits(s, x, y, i - 8 * x); }
    if r < 8 * (y - x) { SliceBits(s, x, y, r); }
    FirstIs(s, bit, 8 * x, 8 * y, 8 * x + r);
  }

  // ---------------------------------------------------------------------------------------------
  // Masks for the edges of a range of bits
  // ---------------------------------------------------------------------------------------------

  // The bits before position k, and those after it.
  function HighMask(k: nat): Byte
    requires k < 8
  {
    match k
    case 0 => 0x00
    case 1 => 0x80
    case 2 => 0xc0
    case 3 => 0xe0
    case 4 => 0xf0
    case 5 => 0xf8
    case 6 => 0xfc
    case 7 => 0xfe
  }

  function LowMask(k: nat): Byte
    requires k < 8
  {
    match k
    case 0 => 0x7f
    case 1 => 0x3f
    case 2 => 0x1f
    case 3 => 0x0f
    case 4 => 0x07
    case 5 => 0x03
    case 6 => 0x01
    case 7 => 0x00
  }

  lemma HighMaskBits(k: nat, i: nat)
    requires k < 8 && i < 8
    ensures BitOf(HighMask(k), i) <==> i < k
    ensures HighMask(k) == 0 <==> k == 0
  {
    match k { case 0 => case 1 => case 2 => case 3 => case 4 => case 5 => case 6 => case 7 => }
  }

  lemma LowMaskBits(k: nat, i: nat)
    requires k < 8 && i < 8
    ensures BitOf(LowMask(k), i) <==> i > k
    ensures LowMask(k) == 0 <==> k == 7
  {
    match k { case 0 => case 1 => case 2 => case 3 => case 4 => case 5 => case 6 => case 7 => }
  }

  // The bits of the mask made different from the wanted one.
  function Hide(b: Byte, mask: Byte, bit: bool): Byte { if bit then b & !mask else b | mask }

  lemma HideMask(b: Byte, mask: Byte, m: Byte)
    requires mask & m == 0 || mask & m == m
    ensures (b & !mask) & m == if mask & m == 0 then b & m else 0
    ensures (b | mask) & m == if mask & m == 0 then b & m else m
  {}

  lemma HideBits(b: Byte, mask: Byte, bit: bool, i: nat)
    requires i < 8
    ensures BitOf(Hide(b, mask, bit), i) == if BitOf(mask, i) then !bit else BitOf(b, i)
  {
    hide Mask;
    MasksApart(i, i);
    SingleBit(i, mask);
    HideMask(b, mask, Mask(i));
  }
}
