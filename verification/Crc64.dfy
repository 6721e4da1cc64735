// The bit-by-bit CRC-64 of crc64.c, and the algebra that its table-driven form rests on.
module Crc64 {
  import opened Basics

  const POLY: bv64 := 0xad93d23594c935a9

  // ---------------------------------------------------------------------------------------------
  // The bit-by-bit register
  // ---------------------------------------------------------------------------------------------

  function Half(x: bv64): bv64 { x >> 1 }
  function Twice(x: bv64): bv64 { x << 1 }
  function Low(x: bv64): bv64 { x & 1 }
  function Both(x: bv64, y: bv64): bv64 { x & y }
  function Plus(x: bv64, y: bv64): bv64 { x ^ y }

  predicate TopBit(x: bv64) { x & 0x8000000000000000 != 0 }

  // One turn of the inner loop: shift the register left and subtract POLY when the bit that leaves
  // it differs from the message bit.
  function BitStep(crc: bv64, inBit: bool): bv64 {
    if TopBit(crc) != inBit then Plus(Twice(crc), POLY) else Twice(crc)
  }

  predicate BitOf(b: Byte, k: nat)
    requires k < 8
  {
    b & (1 << k) != 0
  }

  // The first k bits of a byte, least significant first.
  function FeedBits(crc: bv64, b: Byte, k: nat): bv64
    requires k <= 8
  {
    if k == 0 then crc else BitStep(FeedBits(crc, b, k - 1), BitOf(b, k - 1))
  }

  // The register after a whole message.
  function Register(crc: bv64, data: seq<Byte>): bv64 {
    if data == [] then crc
    else FeedBits(Register(crc, data[..|data| - 1]), data[|data| - 1], 8)
  }

  // ---------------------------------------------------------------------------------------------
  // Reversing the bits of a word
  // ---------------------------------------------------------------------------------------------

  // The word with its 64 bits in the opposite order, by halving.
  function Mirror(x: bv64): bv64 {
    var a := ((x >> 1) & 0x5555555555555555) | ((x & 0x5555555555555555) << 1);
    var b := ((a >> 2) & 0x3333333333333333) | ((a & 0x3333333333333333) << 2);
    var c := ((b >> 4) & 0x0f0f0f0f0f0f0f0f) | ((b & 0x0f0f0f0f0f0f0f0f) << 4);
    var d := ((c >> 8) & 0x00ff00ff00ff00ff) | ((c & 0x00ff00ff00ff00ff) << 8);
    var e := ((d >> 16) & 0x0000ffff0000ffff) | ((d & 0x0000ffff0000ffff) << 16);
    (e >> 32) | (e << 32)
  }

  lemma MirrorInvolutive(x: bv64)
    ensures Mirror(Mirror(x)) == x
  {}

  lemma MirrorShift(x: bv64)
    ensures Mirror(x >> 1) == Mirror(x) << 1
  {}

  lemma MirrorHalf(x: bv64)
    ensures Mirror(Half(x)) == Twice(Mirror(x))
  {
    hide Mirror;
    MirrorShift(x);
  }

  lemma MirrorTwice(x: bv64)
    ensures Mirror(Twice(x)) == Half(Mirror(x))
  {
    hide Mirror, Half, Twice;
    MirrorHalf(Mirror(x));
    MirrorInvolutive(x);
    MirrorInvolutive(Half(Mirror(x)));
  }

  lemma MirrorLow(x: bv64)
    ensures Low(x) == Mirror(x) >> 63
  {}

  lemma HalfOfBoth(x: bv64, y: bv64)
    ensures Half(Both(x, y)) == Both(Half(x), Half(y))
  {}

  lemma LowOfBoth(x: bv64, y: bv64)
    requires Low(y) == 1
    ensures Low(Both(x, y)) == Low(x)
  {}

  lemma HalfOfTwice(x: bv64)
    ensures Half(Twice(x)) == Both(x, ONES)
  {}

  // ---------------------------------------------------------------------------------------------
  // crc_reflect
  // ---------------------------------------------------------------------------------------------

  function Halves(x: bv64, k: nat): bv64 {
    if k == 0 then x else Half(Halves(x, k - 1))
  }

  lemma {:induction false} HalvesAdd(x: bv64, a: nat, b: nat)
    ensures Halves(x, a + b) == Halves(Halves(x, a), b)
  {
    hide Half;
    if b > 0 { HalvesAdd(x, a, b - 1); }
  }

  lemma {:induction false} HalvesOfBoth(x: bv64, y: bv64, k: nat)
    ensures Halves(Both(x, y), k) == Both(Halves(x, k), Halves(y, k))
  {
    hide Half, Both;
    if k > 0 {
      HalvesOfBoth(x, y, k - 1);
      HalfOfBoth(Halves(x, k - 1), Halves(y, k - 1));
    }
  }

  function Ninth(x: bv64): bv64 { x >> 9 }

  lemma Halves9(x: bv64)
    ensures Halves(x, 9) == Ninth(x)
  {
    assert Halves(x, 1) == x >> 1;
    assert Halves(x, 2) == x >> 2;
    assert Halves(x, 3) == x >> 3;
    assert Halves(x, 4) == x >> 4;
    assert Halves(x, 5) == x >> 5;
    assert Halves(x, 6) == x >> 6;
    assert Halves(x, 7) == x >> 7;
    assert Halves(x, 8) == x >> 8;
  }

  lemma SevenNinths(x: bv64)
    ensures Ninth(Ninth(Ninth(Ninth(Ninth(Ninth(Ninth(x))))))) == x >> 63
  {}

  lemma Halves63(x: bv64)
    ensures Halves(x, 63) == x >> 63
  {
    hide Half, Halves, Ninth;
    var y := x;
    Halves9(y);
    y := Ninth(y); HalvesAdd(x, 9, 9);  Halves9(y);
    y := Ninth(y); HalvesAdd(x, 18, 9); Halves9(y);
    y := Ninth(y); HalvesAdd(x, 27, 9); Halves9(y);
    y := Ninth(y); HalvesAdd(x, 36, 9); Halves9(y);
    y := Ninth(y); HalvesAdd(x, 45, 9); Halves9(y);
    y := Ninth(y); HalvesAdd(x, 54, 9); Halves9(y);
    SevenNinths(x);
  }

  const ONES: bv64 := 0x7fffffffffffffff

  predicate IsOnes(x: bv64) { x & (x + 1) == 0 }

  lemma OnesHalf(x: bv64)
    requires IsOnes(x)
    ensures IsOnes(Half(x))
  {}

  lemma OnesLow(x: bv64)
    requires IsOnes(x) && x != 0
    ensures Low(x) == 1
  {}

  lemma {:induction false} OnesHalves(k: nat)
    ensures IsOnes(Halves(ONES, k))
  {
    hide Half, IsOnes;
    if k == 0 {
      assert IsOnes(ONES) by { OnesIsOnes(); }
    } else {
      OnesHalves(k - 1);
      OnesHalf(Halves(ONES, k - 1));
    }
  }

  lemma OnesIsOnes()
    ensures IsOnes(ONES)
  {}

  lemma {:induction false} ZeroHalves(k: nat)
    ensures Halves(0, k) == 0
  {
    if k > 0 { ZeroHalves(k - 1); }
  }

  lemma OnesLast()
    ensures Halves(ONES, 62) == 1
  {
    Halves63(0xffffffffffffffff);
    HalvesAdd(0xffffffffffffffff, 1, 62);
    assert Halves(0xffffffffffffffff, 1) == ONES;
  }

  // ONES halved fewer times than its length still ends in a one.
  lemma OnesStayOdd(k: nat)
    requires k <= 62
    ensures Low(Halves(ONES, k)) == 1
  {
    hide Half, IsOnes, Low, Halves;
    OnesHalves(k);
    HalvesAdd(ONES, k, 62 - k);
    ZeroHalves(62 - k);
    OnesLast();
    OnesLow(Halves(ONES, k));
  }

  // Doubling first loses only the top bit.
  lemma BitUnderTop(y: bv64, k: nat)
    requires k <= 62
    ensures Low(Halves(Twice(y), k + 1)) == Low(Halves(y, k))
  {
    hide Half, Twice, Both, Low;
    HalvesAdd(Twice(y), 1, k);
    assert Halves(Twice(y), 1) == Half(Halves(Twice(y), 0));
    HalfOfTwice(y);
    HalvesOfBoth(y, ONES, k);
    OnesStayOdd(k);
    LowOfBoth(Halves(y, k), Halves(ONES, k));
  }

  // Mirror is the bit reversal: bit i of a word is bit 63 - i of its mirror.
  lemma {:induction false} MirrorBit(x: bv64, i: nat)
    requires i <= 63
    ensures Low(Halves(x, i)) == Low(Halves(Mirror(x), 63 - i))
    decreases i
  {
    hide Mirror, Half, Twice, Low;
    if i == 0 {
      Halves63(Mirror(x));
      MirrorLow(x);
      LowOfTop(Mirror(x));
    } else {
      MirrorBit(Half(x), i - 1);
      MirrorHalf(x);
      HalvesAdd(x, 1, i - 1);
      assert Halves(x, 1) == Half(Halves(x, 0));
      BitUnderTop(Mirror(x), 63 - i);
    }
  }

  lemma LowOfTop(y: bv64)
    ensures Low(y >> 63) == y >> 63
  {}

  function ShiftIn(x: bv64, b: bv64): bv64 { (x << 1) | b }

  lemma ShiftInLow(y: bv64)
    ensures ShiftIn(Half(y), Low(y)) == y
  {}

  method CrcReflect(word: bv64) returns (ret: bv64)
    ensures ret == Mirror(word)
  {
    hide Mirror, Half, Low, ShiftIn;
    var data := word;
    ret := Low(data);
    MirrorLow(word);
    Halves63(Mirror(word));
    var i := 1;
    while i < 64
      invariant 1 <= i <= 64
      invariant data == Halves(word, i - 1)
      invariant ret == Halves(Mirror(word), 64 - i)
    {
      MirrorBit(word, i);
      ShiftInLow(Halves(Mirror(word), 63 - i));
      data := Half(data);
      ret := ShiftIn(ret, Low(data));
      i := i + 1;
    }
  }

  // The mask of the inner loop, which selects bit k of the byte and runs out after eight shifts.
  function Mask(k: nat): bv16
    requires k <= 8
  {
    1 << k
  }

  predicate MaskLeft(i: bv16) { i & 0xff != 0 }

  function NextMask(i: bv16): bv16 { i << 1 }

  predicate Selects(i: bv16, c: Byte) { (c as bv16) & i != 0 }

  lemma MaskBit(c: Byte, k: nat)
    requires k < 8
    ensures Selects(Mask(k), c) == BitOf(c, k)
    ensures MaskLeft(Mask(k))
  {}

  lemma MaskNext(k: nat)
    requires k < 8
    ensures NextMask(Mask(k)) == Mask(k + 1)
  {}

  lemma MaskEnds()
    ensures Mask(0) == 1
    ensures !MaskLeft(Mask(8))
  {}

  method FeedBit(before: bv64, selected: bool) returns (crc: bv64)
    ensures crc == BitStep(before, selected)
  {
    var bit := (before & 0x8000000000000000) != 0;
    if selected {
      bit := !bit;
    }
    crc := before << 1;
    if bit {
      crc := crc ^ POLY;
    }
  }

  method FeedByte(before: bv64, c: Byte) returns (crc: bv64)
    ensures crc == FeedBits(before, c, 8)
  {
    hide BitOf, Mask, MaskLeft, NextMask, Selects, BitStep;
    crc := before;
    var i: bv16 := 1;
    MaskEnds();
    ghost var k := 0;
    while MaskLeft(i)
      invariant 0 <= k <= 8
      invariant i == Mask(k)
      invariant crc == FeedBits(before, c, k)
      decreases 8 - k
    {
      crc := FeedBit(crc, Selects(i, c));
      MaskBit(c, k);
      MaskNext(k);
      i := NextMask(i);
      k := k + 1;
    }
    if k < 8 { MaskBit(c, k); }
  }

  method Crc64Bitwise(start: bv64, data: seq<Byte>) returns (r: bv64)
    ensures r == Mirror(Register(start, data))
  {
    hide Mirror, FeedBits;
    var crc := start;
    var offset := 0;
    while offset < |data|
      invariant 0 <= offset <= |data|
      invariant crc == Register(start, data[..offset])
    {
      crc := FeedByte(crc, data[offset]);
      offset := offset + 1;
      assert data[..offset][..|data[..offset]| - 1] == data[..offset - 1];
    }
    assert data[..|data|] == data;
    r := CrcReflect(crc);
  }
}
