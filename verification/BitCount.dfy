// Counting bits, 28 bytes at a time (bitops.c).
module BitCount {
  import opened Basics
  import opened Bits

  // ---------------------------------------------------------------------------------------------
  // What is counted
  // ---------------------------------------------------------------------------------------------

  // The number of set bits from position a on, before b.
  function Count(s: Bytes, a: nat, b: nat): nat
    requires a <= b
  {
    if a == b then 0 else Count(s, a, b - 1) + Unit(Padded(s, b - 1))
  }

  lemma {:induction false} CountSplit(s: Bytes, a: nat, b: nat, c: nat)
    requires a <= b <= c
    ensures Count(s, a, c) == Count(s, a, b) + Count(s, b, c)
  {
    hide Padded;
    if b < c { CountSplit(s, a, b, c - 1); }
  }

  // Equal bits have equal counts.
  lemma {:induction false} CountFrame(s: Bytes, o: nat, t: Bytes, p: nat, n: nat)
    requires forall i :: 0 <= i < n ==> Alike(s, o, t, p, i)
    ensures Count(s, o, o + n) == Count(t, p, p + n)
  {
    hide Padded;
    if n > 0 {
      CountFrame(s, o, t, p, n - 1);
      assert Alike(s, o, t, p, n - 1);
    }
  }

  // The table bitsinbyte.
  function BitsInByte(b: Byte): nat { Count([b], 0, 8) }

  lemma ByteCount(s: Bytes, c: nat)
    requires c < |s|
    ensures Count(s, 8 * c, 8 * c + 8) == BitsInByte(s[c])
  {
    hide BitOf, Count;
    forall i | 0 <= i < 8 ensures Alike(s, 8 * c, [s[c]], 0, i) {
      assert (8 * c + i) / 8 == c && (8 * c + i) % 8 == i;
    }
    CountFrame(s, 8 * c, [s[c]], 0, 8);
  }

  // ---------------------------------------------------------------------------------------------
  // Counting in the lanes of a word
  // ---------------------------------------------------------------------------------------------

  type Word = bv32

  function Lane0(x: Word): Word { x & 0xff }
  function Lane1(x: Word): Word { (x >> 8) & 0xff }
  function Lane2(x: Word): Word { (x >> 16) & 0xff }
  function Lane3(x: Word): Word { (x >> 24) & 0xff }

  function Pairs(x: Word): Word { x - ((x >> 1) & 0x5555_5555) }
  function Nibbles(x: Word): Word { (x & 0x3333_3333) + ((x >> 2) & 0x3333_3333) }
  function Lanes(x: Word): Word { (x + (x >> 4)) & 0x0f0f_0f0f }
  function Swar(x: Word): Word { Lanes(Nibbles(Pairs(x))) }

  // The set bits of the lowest byte.
  function Ones(y: Word): Word {
    (y & 1) + ((y >> 1) & 1) + ((y >> 2) & 1) + ((y >> 3) & 1) + ((y >> 4) & 1) + ((y >> 5) & 1) + ((y >> 6) & 1) + ((y >> 7) & 1)
  }

  lemma SwarLane0(x: Word)
    ensures Lane0(Swar(x)) == Ones(Lane0(x))
  {}

  lemma SwarLane1(x: Word)
    ensures Lane1(Swar(x)) == Ones(Lane1(x))
  {}

  lemma SwarLane2(x: Word)
    ensures Lane2(Swar(x)) == Ones(Lane2(x))
  {}

  lemma SwarLane3(x: Word)
    ensures Lane3(Swar(x)) == Ones(Lane3(x))
  {}

  lemma OnesAtMost(y: Word)
    ensures Ones(y) <= 8
  {}

  // ---------------------------------------------------------------------------------------------
  // Adding lanes
  // ---------------------------------------------------------------------------------------------

  predicate LanesAtMost(x: Word, max: Word) { Lane0(x) <= max && Lane1(x) <= max && Lane2(x) <= max && Lane3(x) <= max }

  // Lanes that are small enough are added without a carry.
  lemma AddLane0(s: Word, t: Word)
    requires LanesAtMost(s, 48) && LanesAtMost(t, 8)
    ensures Lane0(Plus(s, t)) == Plus(Lane0(s), Lane0(t))
  {}

  lemma AddLane1(s: Word, t: Word)
    requires LanesAtMost(s, 48) && LanesAtMost(t, 8)
    ensures Lane1(Plus(s, t)) == Plus(Lane1(s), Lane1(t))
  {}

  lemma AddLane2(s: Word, t: Word)
    requires LanesAtMost(s, 48) && LanesAtMost(t, 8)
    ensures Lane2(Plus(s, t)) == Plus(Lane2(s), Lane2(t))
  {}

  lemma AddLane3(s: Word, t: Word)
    requires LanesAtMost(s, 48) && LanesAtMost(t, 8)
    ensures Lane3(Plus(s, t)) == Plus(Lane3(s), Lane3(t))
  {}

  lemma AddLanes(s: Word, t: Word)
    requires LanesAtMost(s, 48) && LanesAtMost(t, 8)
    ensures Lane0(Plus(s, t)) == Plus(Lane0(s), Lane0(t)) && Lane1(Plus(s, t)) == Plus(Lane1(s), Lane1(t))
    ensures Lane2(Plus(s, t)) == Plus(Lane2(s), Lane2(t)) && Lane3(Plus(s, t)) == Plus(Lane3(s), Lane3(t))
  {
    hide Lane0, Lane1, Lane2, Lane3, Plus;
    AddLane0(s, t);
    AddLane1(s, t);
    AddLane2(s, t);
    AddLane3(s, t);
  }

  function Plus(a: Word, b: Word): Word { a + b }

  lemma PlusBound(a: Word, b: Word, m: Word)
    requires a <= m && b <= 8 && m <= 48
    ensures Plus(a, b) <= m + 8
  {}

  function Doubled(s: Word): Word { s + (s << 8) }

  lemma DoubledRaw(s: Word)
    requires s & 0xff <= 56 && (s >> 8) & 0xff <= 56 && (s >> 16) & 0xff <= 56 && (s >> 24) & 0xff <= 56
    ensures (s + (s << 8)) & 0xff == s & 0xff
    ensures ((s + (s << 8)) >> 8) & 0xff == (s & 0xff) + ((s >> 8) & 0xff)
    ensures ((s + (s << 8)) >> 16) & 0xff == ((s >> 8) & 0xff) + ((s >> 16) & 0xff)
    ensures ((s + (s << 8)) >> 24) & 0xff == ((s >> 16) & 0xff) + ((s >> 24) & 0xff)
  {}

  lemma DoubledLanes(s: Word)
    requires LanesAtMost(s, 56)
    ensures Lane0(Doubled(s)) == Lane0(s) && Lane1(Doubled(s)) == Plus(Lane0(s), Lane1(s))
    ensures Lane2(Doubled(s)) == Plus(Lane1(s), Lane2(s)) && Lane3(Doubled(s)) == Plus(Lane2(s), Lane3(s))
  {
    DoubledRaw(s);
  }

  lemma PlusAtMost(a: Word, b: Word)
    requires a <= 56 && b <= 56
    ensures Plus(a, b) <= 112
  {}

  lemma TopRaw(t: Word)
    requires t & 0xff <= 112 && (t >> 8) & 0xff <= 112 && (t >> 16) & 0xff <= 112 && (t >> 24) & 0xff <= 112
    ensures (t + (t << 16)) >> 24 == ((t >> 8) & 0xff) + ((t >> 24) & 0xff)
  {}

  lemma TimesRaw(s: Word, t: Word)
    requires t == (s + (s << 8)) + ((s + (s << 8)) << 16)
    ensures s * 0x0101_0101 == t
  {}

  function Spread(t: Word): Word { t + (t << 16) }

  function Top(t: Word): Word { Spread(t) >> 24 }

  lemma DoubledIs(s: Word)
    ensures Doubled(s) == s + (s << 8)
  {}

  lemma SpreadOf(s: Word)
    ensures Spread(s + (s << 8)) == (s + (s << 8)) + ((s + (s << 8)) << 16)
  {}

  lemma SpreadIs(s: Word)
    ensures Spread(Doubled(s)) == (s + (s << 8)) + ((s + (s << 8)) << 16)
  {
    hide Spread, Doubled;
    DoubledIs(s);
    SpreadOf(s);
  }

  lemma TotalIsTop(s: Word)
    ensures (s * 0x0101_0101) >> 24 == Top(Doubled(s))
  {
    hide Doubled, Spread;
    SpreadIs(s);
    TimesRaw(s, Spread(Doubled(s)));
  }

  lemma TopIs(t: Word)
    requires LanesAtMost(t, 112)
    ensures Top(t) == Plus(Lane1(t), Lane3(t))
  {
    TopRaw(t);
  }

  // Doubling twice adds the four lanes in the highest one.
  lemma TopOfDoubled(s: Word)
    requires LanesAtMost(s, 56)
    ensures Top(Doubled(s)) == Plus(Plus(Lane0(s), Lane1(s)), Plus(Lane2(s), Lane3(s)))
  {
    hide Lane0, Lane1, Lane2, Lane3, Doubled, Top, Plus;
    DoubledLanes(s);
    PlusAtMost(Lane0(s), Lane1(s));
    PlusAtMost(Lane1(s), Lane2(s));
    PlusAtMost(Lane2(s), Lane3(s));
    TopIs(Doubled(s));
  }

  // The multiplication does the same.
  method AddUp(s: Word) returns (total: Word)
    requires LanesAtMost(s, 56)
    ensures total == Plus(Plus(Lane0(s), Lane1(s)), Plus(Lane2(s), Lane3(s)))
  {
    hide Lane0, Lane1, Lane2, Lane3, Doubled, Top, Plus;
    total := (s * 0x0101_0101) >> 24;
    TotalIsTop(s);
    TopOfDoubled(s);
  }

  // ---------------------------------------------------------------------------------------------
  // From words to numbers
  // ---------------------------------------------------------------------------------------------

  function Number(x: Word): int { x as int }

  function Less(x: Word): Word { x - 1 }

  lemma PlusOne(x: Word)
    requires x < 4000
    ensures (x + 1) as int == x as int + 1
  {}

  lemma LessIs(x: Word)
    requires x != 0 && x <= 1000
    ensures Number(Less(x)) == Number(x) - 1 && Less(x) <= 1000 && Number(Less(x)) >= 0
  {
    PlusOne(x - 1);
  }

  lemma PlusLess(a: Word, b: Word)
    requires b != 0 && a <= 1000 && b <= 1000
    ensures Number(Plus(a, b)) == Number(Plus(a, Less(b))) + 1
  {
    hide Number, Plus, Less;
    MoreIs(a, b);
    NumberMore(Plus(a, Less(b)));
  }

  function More(x: Word): Word { x + 1 }

  lemma MoreIs(a: Word, b: Word)
    requires b != 0 && a <= 1000 && b <= 1000
    ensures Plus(a, b) == More(Plus(a, Less(b))) && Plus(a, Less(b)) < 4000
  {}

  lemma NumberMore(x: Word)
    requires x < 4000
    ensures Number(More(x)) == Number(x) + 1
  {
    PlusOne(x);
  }

  lemma PlusZero(a: Word)
    ensures Plus(a, 0) == a && Number(0) == 0
  {}

  lemma {:induction false} AddNumbers(a: Word, b: Word)
    requires a <= 1000 && b <= 1000
    ensures Number(Plus(a, b)) == Number(a) + Number(b)
    decreases Number(b)
  {
    hide Number, Plus, Less;
    if b == 0 {
      PlusZero(a);
    } else {
      LessIs(b);
      AddNumbers(a, Less(b));
      PlusLess(a, b);
    }
  }

  // ---------------------------------------------------------------------------------------------
  // Bytes of words
  // ---------------------------------------------------------------------------------------------

  function Wide(b: Byte): Word { b as bv32 }

  function B0(y: Word): Word { y & 1 }
  function B1(y: Word): Word { (y >> 1) & 1 }
  function B2(y: Word): Word { (y >> 2) & 1 }
  function B3(y: Word): Word { (y >> 3) & 1 }
  function B4(y: Word): Word { (y >> 4) & 1 }
  function B5(y: Word): Word { (y >> 5) & 1 }
  function B6(y: Word): Word { (y >> 6) & 1 }
  function B7(y: Word): Word { (y >> 7) & 1 }

  lemma OnesIsSum(y: Word)
    ensures Ones(y) == Plus(Plus(Plus(Plus(Plus(Plus(Plus(B0(y), B1(y)), B2(y)), B3(y)), B4(y)), B5(y)), B6(y)), B7(y))
  {}

  lemma BitsAtMost(y: Word)
    ensures B0(y) <= 1 && B1(y) <= 1 && B2(y) <= 1 && B3(y) <= 1 && B4(y) <= 1 && B5(y) <= 1 && B6(y) <= 1 && B7(y) <= 1
  {}

  lemma OneMore(a: Word, b: Word, m: Word)
    requires a <= m && b <= 1 && m <= 7
    ensures Plus(a, b) <= m + 1 && Number(Plus(a, b)) == Number(a) + Number(b)
  {
    AddNumbers(a, b);
  }

  lemma OnesNumber(y: Word)
    ensures Number(Ones(y)) == Number(B0(y)) + Number(B1(y)) + Number(B2(y)) + Number(B3(y))
      + Number(B4(y)) + Number(B5(y)) + Number(B6(y)) + Number(B7(y))
  {
    hide Ones, Number, Plus, B0, B1, B2, B3, B4, B5, B6, B7;
    OnesIsSum(y);
    BitsAtMost(y);
    OneMore(B0(y), B1(y), 1);
    var s2 := Plus(B0(y), B1(y));
    OneMore(s2, B2(y), 2);
    var s3 := Plus(s2, B2(y));
    OneMore(s3, B3(y), 3);
    var s4 := Plus(s3, B3(y));
    OneMore(s4, B4(y), 4);
    var s5 := Plus(s4, B4(y));
    OneMore(s5, B5(y), 5);
    var s6 := Plus(s5, B5(y));
    OneMore(s6, B6(y), 6);
    OneMore(Plus(s6, B6(y)), B7(y), 7);
  }

  lemma NumberOfBit(x: Word)
    requires x <= 1
    ensures Number(x) == if x == 1 then 1 else 0
  {
    assert x == 0 || x == 1;
  }

  lemma HighBitsOfWide(b: Byte)
    ensures B7(Wide(b)) == 1 <==> BitOf(b, 0)
    ensures B6(Wide(b)) == 1 <==> BitOf(b, 1)
    ensures B5(Wide(b)) == 1 <==> BitOf(b, 2)
    ensures B4(Wide(b)) == 1 <==> BitOf(b, 3)
  {}

  lemma LowBitsOfWide(b: Byte)
    ensures B3(Wide(b)) == 1 <==> BitOf(b, 4)
    ensures B2(Wide(b)) == 1 <==> BitOf(b, 5)
    ensures B1(Wide(b)) == 1 <==> BitOf(b, 6)
    ensures B0(Wide(b)) == 1 <==> BitOf(b, 7)
  {}

  lemma CountByte(b: Byte)
    ensures BitsInByte(b) == Unit(BitOf(b, 0)) + Unit(BitOf(b, 1)) + Unit(BitOf(b, 2)) + Unit(BitOf(b, 3))
      + Unit(BitOf(b, 4)) + Unit(BitOf(b, 5)) + Unit(BitOf(b, 6)) + Unit(BitOf(b, 7))
  {
    hide BitOf, Count;
    CountNothing([b]);
    CountNext(b, 0);
    CountNext(b, 1);
    CountNext(b, 2);
    CountNext(b, 3);
    CountNext(b, 4);
    CountNext(b, 5);
    CountNext(b, 6);
    CountNext(b, 7);
  }

  lemma CountNext(b: Byte, k: nat)
    requires k < 8
    ensures Count([b], 0, k + 1) == Count([b], 0, k) + Unit(BitOf(b, k))
  {
    hide BitOf;
    assert Padded([b], k) == BitOf(b, k);
  }

  // The sum of the bits of a byte is what the table says.
  lemma OnesOfByte(b: Byte)
    ensures Number(Ones(Wide(b))) == BitsInByte(b)
  {
    hide Ones, Number, BitOf, BitsInByte, Wide, B0, B1, B2, B3, B4, B5, B6, B7;
    var y := Wide(b);
    OnesNumber(y);
    BitsAtMost(y);
    HighBitsOfWide(b);
    LowBitsOfWide(b);
    CountByte(b);
    NumberOfBit(B0(y));
    NumberOfBit(B1(y));
    NumberOfBit(B2(y));
    NumberOfBit(B3(y));
    NumberOfBit(B4(y));
    NumberOfBit(B5(y));
    NumberOfBit(B6(y));
    NumberOfBit(B7(y));
  }

  // Four bytes as a word.
  function Load(a: Byte, b: Byte, c: Byte, d: Byte): Word { Wide(a) | (Wide(b) << 8) | (Wide(c) << 16) | (Wide(d) << 24) }

  lemma LoadLanes(a: Byte, b: Byte, c: Byte, d: Byte)
    ensures var x := Load(a, b, c, d);
      Lane0(x) == Wide(a) && Lane1(x) == Wide(b) && Lane2(x) == Wide(c) && Lane3(x) == Wide(d)
  {}

  // ---------------------------------------------------------------------------------------------
  // redisPopcount
  // ---------------------------------------------------------------------------------------------

  function LaneSum(x: Word): int { Number(Lane0(x)) + Number(Lane1(x)) + Number(Lane2(x)) + Number(Lane3(x)) }

  lemma FourBytes(s: Bytes, c: nat)
    requires c + 4 <= |s|
    ensures Count(s, 8 * c, 8 * c + 32) == BitsInByte(s[c]) + BitsInByte(s[c + 1]) + BitsInByte(s[c + 2]) + BitsInByte(s[c + 3])
  {
    hide Count, BitsInByte;
    ByteCount(s, c);
    ByteCount(s, c + 1);
    ByteCount(s, c + 2);
    ByteCount(s, c + 3);
    CountSplit(s, 8 * c, 8 * c + 8, 8 * c + 32);
    CountSplit(s, 8 * c + 8, 8 * c + 16, 8 * c + 32);
    CountSplit(s, 8 * c + 16, 8 * c + 24, 8 * c + 32);
  }

  lemma SwarCounts(s: Bytes, c: nat)
    requires c + 4 <= |s|
    ensures var t := Swar(Load(s[c], s[c + 1], s[c + 2], s[c + 3]));
      LanesAtMost(t, 8) && LaneSum(t) == Count(s, 8 * c, 8 * c + 32)
  {
    hide Swar, Load, Lane0, Lane1, Lane2, Lane3, Ones, Number, BitsInByte, Wide, Count;
    var x := Load(s[c], s[c + 1], s[c + 2], s[c + 3]);
    LoadLanes(s[c], s[c + 1], s[c + 2], s[c + 3]);
    SwarLane0(x);
    SwarLane1(x);
    SwarLane2(x);
    SwarLane3(x);
    OnesAtMost(Lane0(x));
    OnesAtMost(Lane1(x));
    OnesAtMost(Lane2(x));
    OnesAtMost(Lane3(x));
    OnesOfByte(s[c]);
    OnesOfByte(s[c + 1]);
    OnesOfByte(s[c + 2]);
    OnesOfByte(s[c + 3]);
    FourBytes(s, c);
  }

  lemma AtMost(x: Word, m: Word)
    requires LanesAtMost(x, m) && m <= 48
    ensures LanesAtMost(x, 48) && Lane0(x) <= 1000 && Lane1(x) <= 1000 && Lane2(x) <= 1000 && Lane3(x) <= 1000
  {
    hide Lane0, Lane1, Lane2, Lane3;
  }

  lemma AddBounds(s: Word, t: Word, m: Word)
    requires LanesAtMost(s, m) && m <= 48 && LanesAtMost(t, 8)
    ensures LanesAtMost(Plus(s, t), m + 8)
  {
    hide Lane0, Lane1, Lane2, Lane3, Plus;
    AtMost(s, m);
    AddLanes(s, t);
    PlusBound(Lane0(s), Lane0(t), m);
    PlusBound(Lane1(s), Lane1(t), m);
    PlusBound(Lane2(s), Lane2(t), m);
    PlusBound(Lane3(s), Lane3(t), m);
  }

  lemma AddSums(s: Word, t: Word, m: Word)
    requires LanesAtMost(s, m) && m <= 48 && LanesAtMost(t, 8)
    ensures LanesAtMost(Plus(s, t), m + 8) && LaneSum(Plus(s, t)) == LaneSum(s) + LaneSum(t)
  {
    hide Lane0, Lane1, Lane2, Lane3, Number, Plus, LanesAtMost;
    AtMost(s, m);
    AtMost(t, 8);
    AddBounds(s, t, m);
    AddLanes(s, t);
    AddNumbers(Lane0(s), Lane0(t));
    AddNumbers(Lane1(s), Lane1(t));
    AddNumbers(Lane2(s), Lane2(t));
    AddNumbers(Lane3(s), Lane3(t));
  }

  lemma NoLanes()
    ensures LanesAtMost(0, 0) && LaneSum(0) == 0
  {
    PlusZero(0);
  }

  // One more word of a block; no lane can overflow.
  method AddWord(s: Bytes, c: nat, acc: Word, ghost m: Word) returns (r: Word)
    requires c + 4 <= |s| && LanesAtMost(acc, m) && m <= 48
    ensures LanesAtMost(r, m + 8) && LaneSum(r) == LaneSum(acc) + Count(s, 8 * c, 8 * c + 32)
  {
    hide Swar, Load, LanesAtMost, LaneSum, Count, Plus;
    SwarCounts(s, c);
    AddSums(acc, Swar(Load(s[c], s[c + 1], s[c + 2], s[c + 3])), m);
    r := Plus(acc, Swar(Load(s[c], s[c + 1], s[c + 2], s[c + 3])));
  }

  // Seven words.
  method CountBlock(s: Bytes, c: nat) returns (bits: int)
    requires c + 28 <= |s|
    ensures bits == Count(s, 8 * c, 8 * (c + 28))
  {
    hide LanesAtMost, LaneSum, Count, Number, Plus, Lane0, Lane1, Lane2, Lane3;
    NoLanes();
    var acc := AddWord(s, c, 0, 0);
    acc := AddWord(s, c + 4, acc, 8);
    acc := AddWord(s, c + 8, acc, 16);
    acc := AddWord(s, c + 12, acc, 24);
    acc := AddWord(s, c + 16, acc, 32);
    acc := AddWord(s, c + 20, acc, 40);
    acc := AddWord(s, c + 24, acc, 48);
    var total := AddUpAll(acc);
    bits := Number(total);
    SevenWords(s, c);
  }

  lemma SevenWords(s: Bytes, c: nat)
    ensures Count(s, 8 * c, 8 * (c + 28)) ==
      Count(s, 8 * c, 8 * c + 32) + Count(s, 8 * (c + 4), 8 * (c + 4) + 32) + Count(s, 8 * (c + 8), 8 * (c + 8) + 32)
      + Count(s, 8 * (c + 12), 8 * (c + 12) + 32) + Count(s, 8 * (c + 16), 8 * (c + 16) + 32)
      + Count(s, 8 * (c + 20), 8 * (c + 20) + 32) + Count(s, 8 * (c + 24), 8 * (c + 24) + 32)
  {
    hide Count;
    var e := 8 * (c + 28);
    CountSplit(s, 8 * c, 8 * (c + 4), e);
    CountSplit(s, 8 * (c + 4), 8 * (c + 8), e);
    CountSplit(s, 8 * (c + 8), 8 * (c + 12), e);
    CountSplit(s, 8 * (c + 12), 8 * (c + 16), e);
    CountSplit(s, 8 * (c + 16), 8 * (c + 20), e);
    CountSplit(s, 8 * (c + 20), 8 * (c + 24), e);
  }

  method AddUpAll(acc: Word) returns (total: Word)
    requires LanesAtMost(acc, 56)
    ensures Number(total) == LaneSum(acc)
  {
    hide Number, Plus, Lane0, Lane1, Lane2, Lane3;
    total := AddUp(acc);
    PlusAtMost(Lane0(acc), Lane1(acc));
    PlusAtMost(Lane2(acc), Lane3(acc));
    AddNumbers(Lane0(acc), Lane1(acc));
    AddNumbers(Lane2(acc), Lane3(acc));
    AddNumbers(Plus(Lane0(acc), Lane1(acc)), Plus(Lane2(acc), Lane3(acc)));
  }

  // redisPopcount, for a string at an address with the given alignment.
  method RedisPopcount(s: Bytes, address: nat) returns (bits: int)
    ensures bits == Count(s, 0, 8 * |s|)
  {
    hide Count, BitsInByte;
    bits := 0;
    var c := 0;
    CountNothing(s);
    while (address + c) % 4 != 0 && c < |s|
      invariant 0 <= c <= |s| && bits == Count(s, 0, 8 * c)
      decreases |s| - c
    {
      ByteCount(s, c);
      CountSplit(s, 0, 8 * c, 8 * c + 8);
      bits := bits + BitsInByte(s[c]);
      c := c + 1;
    }
    while |s| - c >= 28
      invariant 0 <= c <= |s| && bits == Count(s, 0, 8 * c)
    {
      var block := CountBlock(s, c);
      CountSplit(s, 0, 8 * c, 8 * (c + 28));
      bits := bits + block;
      c := c + 28;
    }
    while c < |s|
      invariant 0 <= c <= |s| && bits == Count(s, 0, 8 * c)
    {
      ByteCount(s, c);
      CountSplit(s, 0, 8 * c, 8 * c + 8);
      bits := bits + BitsInByte(s[c]);
      c := c + 1;
    }
  }

  lemma CountNothing(s: Bytes)
    ensures Count(s, 0, 0) == 0
  {}
}
