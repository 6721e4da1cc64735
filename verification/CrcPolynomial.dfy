// The CRC as a polynomial: the register is the remainder of the message by the generator (crc64.c).
module CrcPolynomial {
  import opened Basics
  import opened Crc64
  import CrcSpeed

  // ---------------------------------------------------------------------------------------------
  // Polynomials over the integers modulo two
  // ---------------------------------------------------------------------------------------------

  // A polynomial, by the exponents of its terms.
  type Poly = set<nat>

  function Add(p: Poly, q: Poly): Poly { (p - q) + (q - p) }

  // Times x to the power of k.
  function Shift(p: Poly, k: nat): Poly { set i | i in p :: i + k }

  function When(b: bool, p: Poly): Poly { if b then p else {} }

  // The polynomial with these coefficients, the highest first.
  function OfBits(bits: seq<bool>): Poly {
    if bits == [] then {} else Add(Shift(OfBits(bits[..|bits| - 1]), 1), When(bits[|bits| - 1], {0}))
  }

  // The product of the polynomial with these coefficients and another one.
  function Times(bits: seq<bool>, p: Poly): Poly {
    if bits == [] then {} else Add(Shift(Times(bits[..|bits| - 1], p), 1), When(bits[|bits| - 1], p))
  }

  // The generator: the term of degree 64 and those of 0xad93d23594c935a9.
  const GENERATOR: Poly := {
    64, 63, 61, 59, 58, 56, 55, 52, 49, 48, 47, 46, 44, 41, 37, 36, 34, 32, 31, 28, 26, 23, 22, 19,
    16, 13, 12, 10, 8, 7, 5, 3, 0
  }

  // What is left of p when multiples of the generator are taken off it.
  ghost predicate IsRemainder(p: Poly, r: Poly) {
    (forall i :: i in r ==> i < 64) && exists q :: Add(p, r) == Times(q, GENERATOR)
  }

  lemma ShiftHas(p: Poly, k: nat, i: nat)
    ensures i in Shift(p, k) <==> i >= k && i - k in p
  {
    if i >= k && i - k in p { assert (i - k) + k in Shift(p, k); }
  }

  lemma ShiftAdd(p: Poly, q: Poly, k: nat)
    ensures Shift(Add(p, q), k) == Add(Shift(p, k), Shift(q, k))
  {
    forall i: nat ensures i in Shift(Add(p, q), k) <==> i in Add(Shift(p, k), Shift(q, k)) {
      ShiftHas(p, k, i);
      ShiftHas(q, k, i);
      ShiftHas(Add(p, q), k, i);
    }
  }

  lemma ShiftShift(p: Poly, a: nat, b: nat)
    ensures Shift(Shift(p, a), b) == Shift(p, a + b)
  {
    forall i: nat ensures i in Shift(Shift(p, a), b) <==> i in Shift(p, a + b) {
      ShiftHas(Shift(p, a), b, i);
      ShiftHas(p, a + b, i);
      if i >= b { ShiftHas(p, a, i - b); }
    }
  }

  // ---------------------------------------------------------------------------------------------
  // There is one remainder
  // ---------------------------------------------------------------------------------------------

  lemma TimesSnoc(bits: seq<bool>, b: bool, p: Poly)
    ensures Times(bits + [b], p) == Add(Shift(Times(bits, p), 1), When(b, p))
  {
    assert (bits + [b])[..|bits|] == bits;
  }

  function Differ(a: seq<bool>, b: seq<bool>): seq<bool>
    requires |a| == |b|
  {
    seq(|a|, i requires 0 <= i < |a| => a[i] != b[i])
  }

  lemma {:induction false} TimesAdd(a: seq<bool>, b: seq<bool>, p: Poly)
    requires |a| == |b|
    ensures Times(Differ(a, b), p) == Add(Times(a, p), Times(b, p))
  {
    hide Add, Shift;
    if a == [] {
      assert Add({}, {}) == {} by { AddNothing(); }
    } else {
      var k := |a| - 1;
      TimesAdd(a[..k], b[..k], p);
      assert Differ(a, b) == Differ(a[..k], b[..k]) + [a[k] != b[k]];
      TimesSnoc(Differ(a[..k], b[..k]), a[k] != b[k], p);
      ShiftAdd(Times(a[..k], p), Times(b[..k], p), 1);
      AddFour(Shift(Times(a[..k], p), 1), Shift(Times(b[..k], p), 1), a[k], b[k], p);
    }
  }

  lemma AddNothing()
    ensures Add({}, {}) == {}
  {}

  lemma AddFour(s: Poly, t: Poly, a: bool, b: bool, p: Poly)
    ensures Add(Add(s, t), When(a != b, p)) == Add(Add(s, When(a, p)), Add(t, When(b, p)))
  {}

  function Zeros(n: nat): seq<bool> { seq(n, _ => false) }

  lemma {:induction false} TimesPad(n: nat, bits: seq<bool>, p: Poly)
    ensures Times(Zeros(n) + bits, p) == Times(bits, p)
    decreases |bits|, n
  {
    hide Add, Shift;
    if bits != [] {
      var k := |bits| - 1;
      TimesPad(n, bits[..k], p);
      assert Zeros(n) + bits == (Zeros(n) + bits[..k]) + [bits[k]];
      TimesSnoc(Zeros(n) + bits[..k], bits[k], p);
    } else if n > 0 {
      TimesPad(n - 1, [], p);
      assert Zeros(n) + [] == (Zeros(n - 1) + []) + [false];
      TimesSnoc(Zeros(n - 1) + [], false, p);
      ShiftNothing();
    }
  }

  lemma ShiftNothing()
    ensures Add(Shift({}, 1), When(false, {})) == {}
  {}

  lemma GeneratorTop()
    ensures 64 in GENERATOR && forall i :: i in GENERATOR ==> i <= 64
  {}

  // A multiple of the generator that is not zero has a term of degree 64 or more.
  lemma {:induction false} MultipleIsHigh(q: seq<bool>) returns (top: nat)
    ensures Times(q, GENERATOR) == {} || (top >= 64 && top in Times(q, GENERATOR) && forall i :: i in Times(q, GENERATOR) ==> i <= top)
  {
    hide GENERATOR;
    GeneratorTop();
    top := 64;
    if q != [] {
      var init := q[..|q| - 1];
      var t := MultipleIsHigh(init);
      var p := Times(init, GENERATOR);
      if p == {} {
        assert Times(q, GENERATOR) == When(q[|q| - 1], GENERATOR);
      } else {
        top := t + 1;
        ShiftHas(p, 1, top);
        forall i | i in Shift(p, 1) ensures i <= top { ShiftHas(p, 1, i); }
      }
    }
  }

  lemma RemainderIsOne(p: Poly, r: Poly, s: Poly)
    requires IsRemainder(p, r) && IsRemainder(p, s)
    ensures r == s
  {
    hide GENERATOR, Times, Add;
    var a :| Add(p, r) == Times(a, GENERATOR);
    var b :| Add(p, s) == Times(b, GENERATOR);
    var n := if |a| > |b| then |a| else |b|;
    var x, y := Zeros(n - |a|) + a, Zeros(n - |b|) + b;
    TimesPad(n - |a|, a, GENERATOR);
    TimesPad(n - |b|, b, GENERATOR);
    TimesAdd(x, y, GENERATOR);
    var top := MultipleIsHigh(Differ(x, y));
    AddCancels(p, r, s);
    LowSum(r, s, top);
  }

  lemma AddCancels(p: Poly, r: Poly, s: Poly)
    ensures Add(Add(p, r), Add(p, s)) == Add(r, s)
    ensures Add(r, s) == {} ==> r == s
  {
    if Add(r, s) == {} {
      forall i: nat ensures i in r <==> i in s { assert i !in Add(r, s); }
    }
  }

  lemma LowSum(r: Poly, s: Poly, top: nat)
    requires (forall i :: i in r ==> i < 64) && (forall i :: i in s ==> i < 64)
    ensures top >= 64 ==> top !in Add(r, s)
  {}

  // ---------------------------------------------------------------------------------------------
  // The bits of a word
  // ---------------------------------------------------------------------------------------------

  predicate Coef(x: bv64, i: nat) { Low(Halves(x, i)) == 1 }

  // The polynomial of degree less than 64 with the bits of a word, bit i for the term of degree i.
  function Terms(x: bv64): Poly { set i: nat | i < 64 && Coef(x, i) }

  lemma LowPlus(x: bv64, y: bv64)
    ensures Low(Plus(x, y)) == 1 <==> (Low(x) == 1) != (Low(y) == 1)
  {}

  lemma {:induction false} HalvesPlus(x: bv64, y: bv64, k: nat)
    ensures Halves(Plus(x, y), k) == Plus(Halves(x, k), Halves(y, k))
  {
    hide Half, Plus;
    if k > 0 {
      HalvesPlus(x, y, k - 1);
      CrcSpeed.PlusHalf(Halves(x, k - 1), Halves(y, k - 1));
    }
  }

  lemma TermsPlus(x: bv64, y: bv64)
    ensures Terms(Plus(x, y)) == Add(Terms(x), Terms(y))
  {
    hide Halves, Plus, Low;
    forall i: nat ensures Coef(Plus(x, y), i) <==> Coef(x, i) != Coef(y, i) {
      HalvesPlus(x, y, i);
      LowPlus(Halves(x, i), Halves(y, i));
    }
  }

  lemma LowTwice(x: bv64)
    ensures Low(Twice(x)) == 0
  {}

  lemma CoefTwice(x: bv64, i: nat)
    requires i < 64
    ensures Coef(Twice(x), i) <==> i > 0 && Coef(x, i - 1)
  {
    hide Half, Twice, Low;
    if i == 0 {
      LowTwice(x);
    } else {
      BitUnderTop(x, i - 1);
    }
  }

  lemma TopRaw(x: bv64)
    ensures TopBit(x) <==> Low(x >> 63) == 1
  {}

  lemma CoefTop(x: bv64)
    ensures TopBit(x) <==> Coef(x, 63)
  {
    hide TopBit, Low, Halves;
    Halves63(x);
    TopRaw(x);
  }

  // Shifting a word left takes its top bit off.
  lemma TermsTwice(x: bv64)
    ensures Terms(Twice(x)) == Add(Shift(Terms(x), 1), When(TopBit(x), {64}))
  {
    hide Coef, Twice, TopBit;
    CoefTop(x);
    forall i: nat ensures i in Terms(Twice(x)) <==> i in Add(Shift(Terms(x), 1), When(TopBit(x), {64})) {
      ShiftHas(Terms(x), 1, i);
      if i < 64 { CoefTwice(x, i); }
    }
  }

  lemma HalvesSmall(x: bv64)
    ensures Halves(x, 0) == x && Halves(x, 1) == x >> 1 && Halves(x, 2) == x >> 2 && Halves(x, 3) == x >> 3 && Halves(x, 4) == x >> 4
    ensures Halves(x, 5) == x >> 5 && Halves(x, 6) == x >> 6 && Halves(x, 7) == x >> 7 && Halves(x, 8) == x >> 8
  {
    assert Halves(x, 1) == x >> 1;
    assert Halves(x, 2) == x >> 2;
    assert Halves(x, 3) == x >> 3;
    assert Halves(x, 4) == x >> 4;
    assert Halves(x, 5) == x >> 5;
    assert Halves(x, 6) == x >> 6;
    assert Halves(x, 7) == x >> 7;
    assert Halves(x, 8) == x >> 8;
  }

  // Eight bits of a word.
  lemma EightCoefs(x: bv64, k: nat, y: bv64)
    requires Halves(x, k) == y
    ensures Coef(x, k) <==> y & 1 == 1
    ensures Coef(x, k + 1) <==> (y >> 1) & 1 == 1
    ensures Coef(x, k + 2) <==> (y >> 2) & 1 == 1
    ensures Coef(x, k + 3) <==> (y >> 3) & 1 == 1
    ensures Coef(x, k + 4) <==> (y >> 4) & 1 == 1
    ensures Coef(x, k + 5) <==> (y >> 5) & 1 == 1
    ensures Coef(x, k + 6) <==> (y >> 6) & 1 == 1
    ensures Coef(x, k + 7) <==> (y >> 7) & 1 == 1
    ensures Halves(x, k + 8) == y >> 8
  {
    hide Halves;
    HalvesSmall(y);
    HalvesAdd(x, k, 0);
    HalvesAdd(x, k, 1);
    HalvesAdd(x, k, 2);
    HalvesAdd(x, k, 3);
    HalvesAdd(x, k, 4);
    HalvesAdd(x, k, 5);
    HalvesAdd(x, k, 6);
    HalvesAdd(x, k, 7);
    HalvesAdd(x, k, 8);
  }

  lemma PolyByte0()
    ensures Coef(POLY, 0)
    ensures !Coef(POLY, 1)
    ensures !Coef(POLY, 2)
    ensures Coef(POLY, 3)
    ensures !Coef(POLY, 4)
    ensures Coef(POLY, 5)
    ensures !Coef(POLY, 6)
    ensures Coef(POLY, 7)
    ensures Halves(POLY, 8) == 0x00ad93d23594c935
  {
    hide Halves, Coef;
    HalvesSmall(POLY);
    EightCoefs(POLY, 0, 0xad93d23594c935a9);
  }

  lemma PolyByte1()
    requires Halves(POLY, 8) == 0x00ad93d23594c935
    ensures Coef(POLY, 8)
    ensures !Coef(POLY, 9)
    ensures Coef(POLY, 10)
    ensures !Coef(POLY, 11)
    ensures Coef(POLY, 12)
    ensures Coef(POLY, 13)
    ensures !Coef(POLY, 14)
    ensures !Coef(POLY, 15)
    ensures Halves(POLY, 16) == 0x0000ad93d23594c9
  {
    hide Halves, Coef;
    EightCoefs(POLY, 8, 0x00ad93d23594c935);
  }

  lemma PolyByte2()
    requires Halves(POLY, 16) == 0x0000ad93d23594c9
    ensures Coef(POLY, 16)
    ensures !Coef(POLY, 17)
    ensures !Coef(POLY, 18)
    ensures Coef(POLY, 19)
    ensures !Coef(POLY, 20)
    ensures !Coef(POLY, 21)
    ensures Coef(POLY, 22)
    ensures Coef(POLY, 23)
    ensures Halves(POLY, 24) == 0x000000ad93d23594
  {
    hide Halves, Coef;
    EightCoefs(POLY, 16, 0x0000ad93d23594c9);
  }

  lemma PolyByte3()
    requires Halves(POLY, 24) == 0x000000ad93d23594
    ensures !Coef(POLY, 24)
    ensures !Coef(POLY, 25)
    ensures Coef(POLY, 26)
    ensures !Coef(POLY, 27)
    ensures Coef(POLY, 28)
    ensures !Coef(POLY, 29)
    ensures !Coef(POLY, 30)
    ensures Coef(POLY, 31)
    ensures Halves(POLY, 32) == 0x00000000ad93d235
  {
    hide Halves, Coef;
    EightCoefs(POLY, 24, 0x000000ad93d23594);
  }

  lemma PolyByte4()
    requires Halves(POLY, 32) == 0x00000000ad93d235
    ensures Coef(POLY, 32)
    ensures !Coef(POLY, 33)
    ensures Coef(POLY, 34)
    ensures !Coef(POLY, 35)
    ensures Coef(POLY, 36)
    ensures Coef(POLY, 37)
    ensures !Coef(POLY, 38)
    ensures !Coef(POLY, 39)
    ensures Halves(POLY, 40) == 0x0000000000ad93d2
  {
    hide Halves, Coef;
    EightCoefs(POLY, 32, 0x00000000ad93d235);
  }

  lemma PolyByte5()
    requires Halves(POLY, 40) == 0x0000000000ad93d2
    ensures !Coef(POLY, 40)
    ensures Coef(POLY, 41)
    ensures !Coef(POLY, 42)
    ensures !Coef(POLY, 43)
    ensures Coef(POLY, 44)
    ensures !Coef(POLY, 45)
    ensures Coef(POLY, 46)
    ensures Coef(POLY, 47)
    ensures Halves(POLY, 48) == 0x000000000000ad93
  {
    hide Halves, Coef;
    EightCoefs(POLY, 40, 0x0000000000ad93d2);
  }

  lemma PolyByte6()
    requires Halves(POLY, 48) == 0x000000000000ad93
    ensures Coef(POLY, 48)
    ensures Coef(POLY, 49)
    ensures !Coef(POLY, 50)
    ensures !Coef(POLY, 51)
    ensures Coef(POLY, 52)
    ensures !Coef(POLY, 53)
    ensures !Coef(POLY, 54)
    ensures Coef(POLY, 55)
    ensures Halves(POLY, 56) == 0x00000000000000ad
  {
    hide Halves, Coef;
    EightCoefs(POLY, 48, 0x000000000000ad93);
  }

  lemma PolyByte7()
    requires Halves(POLY, 56) == 0x00000000000000ad
    ensures Coef(POLY, 56)
    ensures !Coef(POLY, 57)
    ensures Coef(POLY, 58)
    ensures Coef(POLY, 59)
    ensures !Coef(POLY, 60)
    ensures Coef(POLY, 61)
    ensures !Coef(POLY, 62)
    ensures Coef(POLY, 63)
  {
    hide Halves, Coef;
    EightCoefs(POLY, 56, 0x00000000000000ad);
  }

  // The generator has the terms of POLY and that of degree 64.
  lemma PolyTerms()
    ensures GENERATOR == Add(Terms(POLY), {64})
  {
    hide Coef, Halves;
    PolyByte0();
    PolyByte1();
    PolyByte2();
    PolyByte3();
    PolyByte4();
    PolyByte5();
    PolyByte6();
    PolyByte7();
    forall i: nat | i < 64 ensures Coef(POLY, i) <==> i in GENERATOR {}
    GeneratorTop();
  }

  // ---------------------------------------------------------------------------------------------
  // The register
  // ---------------------------------------------------------------------------------------------

  // The bits of a message in the order in which they are fed: byte after byte, the lowest bit first.
  function ByteBits(b: Byte): seq<bool> { seq(8, k requires 0 <= k < 8 => BitOf(b, k)) }

  function MessageBits(data: seq<Byte>): seq<bool> {
    if data == [] then [] else MessageBits(data[..|data| - 1]) + ByteBits(data[|data| - 1])
  }

  // One step adds a term of degree 64 for the bit, and takes the generator off if there is one.
  lemma StepTerms(crc: bv64, b: bool)
    ensures Terms(BitStep(crc, b)) ==
      Add(Add(Shift(Terms(crc), 1), When(b, {64})), When(TopBit(crc) != b, GENERATOR))
  {
    hide Terms, Shift, GENERATOR, TopBit;
    TermsTwice(crc);
    TermsPlus(Twice(crc), POLY);
    PolyTerms();
    StepSets(Shift(Terms(crc), 1), Terms(POLY), TopBit(crc), b);
  }

  lemma StepSets(s: Poly, p: Poly, top: bool, b: bool)
    ensures var t := Add(s, When(top, {64}));
      Add(Add(s, When(b, {64})), When(top != b, Add(p, {64}))) == if top != b then Add(t, p) else t
  {}

  lemma StepRemainder(p: Poly, crc: bv64, b: bool)
    requires IsRemainder(p, Terms(crc))
    ensures IsRemainder(Add(Shift(p, 1), When(b, {64})), Terms(BitStep(crc, b)))
  {
    hide GENERATOR, Times, Add, Shift, TopBit, BitStep;
    var q :| Add(p, Terms(crc)) == Times(q, GENERATOR);
    var carry := TopBit(crc) != b;
    StepTerms(crc, b);
    ShiftAdd(p, Terms(crc), 1);
    TimesSnoc(q, carry, GENERATOR);
    AddFive(Shift(p, 1), Shift(Terms(crc), 1), When(b, {64}), When(carry, GENERATOR));
    assert Add(Add(Shift(p, 1), When(b, {64})), Terms(BitStep(crc, b))) == Times(q + [carry], GENERATOR);
  }

  lemma AddFive(s: Poly, t: Poly, u: Poly, g: Poly)
    ensures Add(Add(s, u), Add(Add(t, u), g)) == Add(Add(s, t), g)
  {}

  // The message behind the start value, times x to the power of 64.
  function Dividend(start: bv64, bits: seq<bool>): Poly {
    Add(Shift(Terms(start), |bits|), Shift(OfBits(bits), 64))
  }

  lemma DividendSnoc(start: bv64, bits: seq<bool>, b: bool)
    ensures Dividend(start, bits + [b]) == Add(Shift(Dividend(start, bits), 1), When(b, {64}))
  {
    hide Terms, Add, Shift;
    assert (bits + [b])[..|bits|] == bits;
    var s, m := Terms(start), OfBits(bits);
    ShiftAdd(Shift(s, |bits|), Shift(m, 64), 1);
    ShiftShift(s, |bits|, 1);
    ShiftShift(m, 64, 1);
    ShiftShift(m, 1, 64);
    ShiftAdd(Shift(m, 1), When(b, {0}), 64);
    ShiftOne(b);
    AddAssoc(Shift(s, |bits| + 1), Shift(m, 65), When(b, {64}));
  }

  lemma ShiftOne(b: bool)
    ensures Shift(When(b, {0}), 64) == When(b, {64})
  {}

  lemma AddAssoc(s: Poly, t: Poly, u: Poly)
    ensures Add(s, Add(t, u)) == Add(Add(s, t), u)
  {}

  lemma {:induction false} FeedRemainder(p: seq<bool>, start: bv64, crc: bv64, b: Byte, k: nat)
    requires k <= 8 && IsRemainder(Dividend(start, p), Terms(crc))
    ensures IsRemainder(Dividend(start, p + ByteBits(b)[..k]), Terms(FeedBits(crc, b, k)))
  {
    hide IsRemainder, Dividend, Terms, BitStep, BitOf;
    if k == 0 {
      assert p + ByteBits(b)[..0] == p;
    } else {
      FeedRemainder(p, start, crc, b, k - 1);
      var bits := p + ByteBits(b)[..k - 1];
      assert p + ByteBits(b)[..k] == bits + [BitOf(b, k - 1)];
      DividendSnoc(start, bits, BitOf(b, k - 1));
      StepRemainder(Dividend(start, bits), FeedBits(crc, b, k - 1), BitOf(b, k - 1));
    }
  }

  // The register is the remainder of the start value and the message behind it, times x to the power of 64,
  // by the generator.
  lemma {:induction false} RegisterIsRemainder(start: bv64, data: seq<Byte>)
    ensures IsRemainder(Dividend(start, MessageBits(data)), Terms(Register(start, data)))
  {
    hide IsRemainder, Dividend, Terms, FeedBits;
    if data == [] {
      StartRemainder(start);
    } else {
      var init, last := data[..|data| - 1], data[|data| - 1];
      RegisterIsRemainder(start, init);
      FeedRemainder(MessageBits(init), start, Register(start, init), last, 8);
      assert ByteBits(last)[..8] == ByteBits(last);
    }
  }

  lemma StartRemainder(start: bv64)
    ensures IsRemainder(Dividend(start, []), Terms(start))
  {
    hide Coef, GENERATOR;
    var t := Terms(start);
    assert Shift(t, 0) == t by {
      forall i: nat ensures i in Shift(t, 0) <==> i in t { ShiftHas(t, 0, i); }
    }
    assert Shift(OfBits([]), 64) == {};
    assert Add(Dividend(start, []), t) == Times([], GENERATOR);
  }

  // ---------------------------------------------------------------------------------------------
  // The check value
  // ---------------------------------------------------------------------------------------------

  lemma Digit1()
    ensures FeedBits(0x0000000000000000, 49, 8) == 0x5f9cef95218e83bf
  {
    assert FeedBits(0x0000000000000000, 49, 1) == 0xad93d23594c935a9;
    assert FeedBits(0x0000000000000000, 49, 2) == 0xf6b4765ebd5b5efb;
    assert FeedBits(0x0000000000000000, 49, 3) == 0x40fb3e88ee7f885f;
    assert FeedBits(0x0000000000000000, 49, 4) == 0x81f67d11dcff10be;
    assert FeedBits(0x0000000000000000, 49, 5) == 0x03ecfa23b9fe217c;
    assert FeedBits(0x0000000000000000, 49, 6) == 0xaa4a2672e7357751;
    assert FeedBits(0x0000000000000000, 49, 7) == 0xf9079ed05aa3db0b;
    assert FeedBits(0x0000000000000000, 49, 8) == 0x5f9cef95218e83bf;
  }

  lemma Digit2()
    ensures FeedBits(0x5f9cef95218e83bf, 50, 8) == 0x69b7195c8a26c087
  {
    assert FeedBits(0x5f9cef95218e83bf, 50, 1) == 0xbf39df2a431d077e;
    assert FeedBits(0x5f9cef95218e83bf, 50, 2) == 0x7e73be54863a0efc;
    assert FeedBits(0x5f9cef95218e83bf, 50, 3) == 0xfce77ca90c741df8;
    assert FeedBits(0x5f9cef95218e83bf, 50, 4) == 0x545d2b678c210e59;
    assert FeedBits(0x5f9cef95218e83bf, 50, 5) == 0x052984fa8c8b291b;
    assert FeedBits(0x5f9cef95218e83bf, 50, 6) == 0xa7c0dbc08ddf679f;
    assert FeedBits(0x5f9cef95218e83bf, 50, 7) == 0xe21265b48f77fa97;
    assert FeedBits(0x5f9cef95218e83bf, 50, 8) == 0x69b7195c8a26c087;
  }

  lemma Digit3()
    ensures FeedBits(0x69b7195c8a26c087, 51, 8) == 0x358d9e2281df3dab
  {
    assert FeedBits(0x69b7195c8a26c087, 51, 1) == 0x7efde08c8084b4a7;
    assert FeedBits(0x69b7195c8a26c087, 51, 2) == 0x5068132c95c05ce7;
    assert FeedBits(0x69b7195c8a26c087, 51, 3) == 0xa0d026592b80b9ce;
    assert FeedBits(0x69b7195c8a26c087, 51, 4) == 0xec339e87c3c84635;
    assert FeedBits(0x69b7195c8a26c087, 51, 5) == 0xd8673d0f87908c6a;
    assert FeedBits(0x69b7195c8a26c087, 51, 6) == 0xb0ce7a1f0f2118d4;
    assert FeedBits(0x69b7195c8a26c087, 51, 7) == 0xcc0f260b8a8b0401;
    assert FeedBits(0x69b7195c8a26c087, 51, 8) == 0x358d9e2281df3dab;
  }

  lemma Digit4()
    ensures FeedBits(0x358d9e2281df3dab, 52, 8) == 0x0f84a5b3ba3c9ac2
  {
    assert FeedBits(0x358d9e2281df3dab, 52, 1) == 0x6b1b3c4503be7b56;
    assert FeedBits(0x358d9e2281df3dab, 52, 2) == 0xd636788a077cf6ac;
    assert FeedBits(0x358d9e2281df3dab, 52, 3) == 0xac6cf1140ef9ed58;
    assert FeedBits(0x358d9e2281df3dab, 52, 4) == 0xf54a301d893aef19;
    assert FeedBits(0x358d9e2281df3dab, 52, 5) == 0xea94603b1275de32;
    assert FeedBits(0x358d9e2281df3dab, 52, 6) == 0xd528c07624ebbc64;
    assert FeedBits(0x358d9e2281df3dab, 52, 7) == 0x07c252d9dd1e4d61;
    assert FeedBits(0x358d9e2281df3dab, 52, 8) == 0x0f84a5b3ba3c9ac2;
  }

  lemma Digit5()
    ensures FeedBits(0x0f84a5b3ba3c9ac2, 53, 8) == 0xb07e39c4c8a1ae0f
  {
    assert FeedBits(0x0f84a5b3ba3c9ac2, 53, 1) == 0xb29a9952e0b0002d;
    assert FeedBits(0x0f84a5b3ba3c9ac2, 53, 2) == 0xc8a6e09055a935f3;
    assert FeedBits(0x0f84a5b3ba3c9ac2, 53, 3) == 0x914dc120ab526be6;
    assert FeedBits(0x0f84a5b3ba3c9ac2, 53, 4) == 0x8f085074c26de265;
    assert FeedBits(0x0f84a5b3ba3c9ac2, 53, 5) == 0x1e10a0e984dbc4ca;
    assert FeedBits(0x0f84a5b3ba3c9ac2, 53, 6) == 0x91b293e69d7ebc3d;
    assert FeedBits(0x0f84a5b3ba3c9ac2, 53, 7) == 0x8ef6f5f8ae344dd3;
    assert FeedBits(0x0f84a5b3ba3c9ac2, 53, 8) == 0xb07e39c4c8a1ae0f;
  }

  lemma Digit6()
    ensures FeedBits(0xb07e39c4c8a1ae0f, 54, 8) == 0xc092d54da49095c5
  {
    assert FeedBits(0xb07e39c4c8a1ae0f, 54, 1) == 0xcd6fa1bc058a69b7;
    assert FeedBits(0xb07e39c4c8a1ae0f, 54, 2) == 0x9adf43780b14d36e;
    assert FeedBits(0xb07e39c4c8a1ae0f, 54, 3) == 0x35be86f01629a6dc;
    assert FeedBits(0xb07e39c4c8a1ae0f, 54, 4) == 0x6b7d0de02c534db8;
    assert FeedBits(0xb07e39c4c8a1ae0f, 54, 5) == 0x7b69c9f5cc6faed9;
    assert FeedBits(0xb07e39c4c8a1ae0f, 54, 6) == 0x5b4041de0c16681b;
    assert FeedBits(0xb07e39c4c8a1ae0f, 54, 7) == 0xb68083bc182cd036;
    assert FeedBits(0xb07e39c4c8a1ae0f, 54, 8) == 0xc092d54da49095c5;
  }

  lemma Digit7()
    ensures FeedBits(0xc092d54da49095c5, 55, 8) == 0xa2b58c246cb241e2
  {
    assert FeedBits(0xc092d54da49095c5, 55, 1) == 0x8125aa9b49212b8a;
    assert FeedBits(0xc092d54da49095c5, 55, 2) == 0x024b553692425714;
    assert FeedBits(0xc092d54da49095c5, 55, 3) == 0xa9057858b04d9b81;
    assert FeedBits(0xc092d54da49095c5, 55, 4) == 0xff992284f45202ab;
    assert FeedBits(0xc092d54da49095c5, 55, 5) == 0xff324509e8a40556;
    assert FeedBits(0xc092d54da49095c5, 55, 6) == 0xfe648a13d1480aac;
    assert FeedBits(0xc092d54da49095c5, 55, 7) == 0x515ac612365920f1;
    assert FeedBits(0xc092d54da49095c5, 55, 8) == 0xa2b58c246cb241e2;
  }

  lemma Digit8()
    ensures FeedBits(0xa2b58c246cb241e2, 56, 8) == 0x43b617a8cd043792
  {
    assert FeedBits(0xa2b58c246cb241e2, 56, 1) == 0xe8f8ca7d4dadb66d;
    assert FeedBits(0xa2b58c246cb241e2, 56, 2) == 0x7c6246cf0f925973;
    assert FeedBits(0xa2b58c246cb241e2, 56, 3) == 0xf8c48d9e1f24b2e6;
    assert FeedBits(0xa2b58c246cb241e2, 56, 4) == 0xf1891b3c3e4965cc;
    assert FeedBits(0xa2b58c246cb241e2, 56, 5) == 0xe31236787c92cb98;
    assert FeedBits(0xa2b58c246cb241e2, 56, 6) == 0xc6246cf0f9259730;
    assert FeedBits(0xa2b58c246cb241e2, 56, 7) == 0x21db0bd466821bc9;
    assert FeedBits(0xa2b58c246cb241e2, 56, 8) == 0x43b617a8cd043792;
  }

  lemma Digit9()
    ensures FeedBits(0x43b617a8cd043792, 57, 8) == 0x539b1d23289b6397
  {
    assert FeedBits(0x43b617a8cd043792, 57, 1) == 0x2afffd640ec15a8d;
    assert FeedBits(0x43b617a8cd043792, 57, 2) == 0x55fffac81d82b51a;
    assert FeedBits(0x43b617a8cd043792, 57, 3) == 0xabfff5903b056a34;
    assert FeedBits(0x43b617a8cd043792, 57, 4) == 0x57ffeb20760ad468;
    assert FeedBits(0x43b617a8cd043792, 57, 5) == 0x026c047578dc9d79;
    assert FeedBits(0x43b617a8cd043792, 57, 6) == 0xa94bdadf65700f5b;
    assert FeedBits(0x43b617a8cd043792, 57, 7) == 0xff04678b5e292b1f;
    assert FeedBits(0x43b617a8cd043792, 57, 8) == 0x539b1d23289b6397;
  }

  const DIGITS: seq<Byte> := [49, 50, 51, 52, 53, 54, 55, 56, 57]

  lemma RegisterNext(n: nat)
    requires n < 9
    ensures Register(0, DIGITS[..n + 1]) == FeedBits(Register(0, DIGITS[..n]), DIGITS[n], 8)
  {
    hide FeedBits;
    assert DIGITS[..n + 1][..n] == DIGITS[..n];
  }

  lemma MirrorOf()
    ensures Mirror(0x539b1d23289b6397) == 0xe9c6d914c4b8d9ca
  {}

  // The CRC of "123456789" from zero.
  lemma CheckValue()
    ensures Mirror(Register(0, DIGITS)) == 0xe9c6d914c4b8d9ca
  {
    hide FeedBits, Mirror, Register;
    NoDigits();

    RegisterNext(0); Digit1();
    RegisterNext(1); Digit2();
    RegisterNext(2); Digit3();
    RegisterNext(3); Digit4();
    RegisterNext(4); Digit5();
    RegisterNext(5); Digit6();
    RegisterNext(6); Digit7();
    RegisterNext(7); Digit8();
    RegisterNext(8); Digit9();
    assert DIGITS[..9] == DIGITS;
    MirrorOf();
  }

  lemma NoDigits()
    ensures Register(0, DIGITS[..0]) == 0
  {}
}
