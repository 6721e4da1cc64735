// The slice-by-8 CRC of crcspeed.c refines the bit-by-bit CRC of crc64.c, on machines of either byte
// order, and what the CRC detects.
module CrcSpeed {
  import opened Basics
  import opened Crc64

  // ---------------------------------------------------------------------------------------------
  // The mirrored register: it shifts right, and the message is added at its low end
  // ---------------------------------------------------------------------------------------------

  const RPOLY: bv64 := 0x95ac9329ac4bc9b5

  predicate Odd(x: bv64) { x & 1 != 0 }

  function Step(x: bv64): bv64 {
    if Odd(x) then Plus(Half(x), RPOLY) else Half(x)
  }

  function Steps(x: bv64, k: nat): bv64 {
    if k == 0 then x else Step(Steps(x, k - 1))
  }

  function Wide(b: Byte): bv64 { b as bv64 }

  // The table-free meaning of one byte, and of a message.
  function ByteUpdate(r: bv64, b: Byte): bv64 {
    Steps(Plus(r, Wide(b)), 8)
  }

  function Update(r: bv64, data: seq<Byte>): bv64 {
    if data == [] then r
    else ByteUpdate(Update(r, data[..|data| - 1]), data[|data| - 1])
  }

  // ---------------------------------------------------------------------------------------------
  // Step is linear
  // ---------------------------------------------------------------------------------------------

  lemma PlusIs(a: bv64, b: bv64)
    ensures Plus(a, b) == a ^ b
  {}

  lemma PlusAssocXor(a: bv64, b: bv64, c: bv64)
    ensures Plus(a ^ b, c) == Plus(a, b ^ c)
  {}

  lemma PlusAssoc(a: bv64, b: bv64, c: bv64)
    ensures Plus(Plus(a, b), c) == Plus(a, Plus(b, c))
  {
    hide Plus;
    PlusIs(a, b);
    PlusIs(b, c);
    PlusAssocXor(a, b, c);
  }

  lemma PlusComm(a: bv64, b: bv64)
    ensures Plus(a, b) == Plus(b, a)
  {}

  lemma PlusSelf(a: bv64)
    ensures Plus(a, 0) == a
    ensures Plus(a, a) == 0
  {}

  // (a + p) + (b + p) == a + b, and p may be moved past b.
  lemma PlusFacts(a: bv64, b: bv64, p: bv64)
    ensures Plus(Plus(a, p), Plus(b, p)) == Plus(a, b)
    ensures Plus(Plus(a, b), p) == Plus(Plus(a, p), b)
    ensures Plus(Plus(a, b), p) == Plus(a, Plus(b, p))
  {
    hide Plus;
    PlusAssoc(a, b, p);
    PlusAssoc(a, p, b);
    PlusComm(b, p);
    PlusAssoc(a, p, Plus(b, p));
    PlusAssoc(p, p, b);
    PlusComm(0, b);
    PlusSelf(p);
    PlusSelf(b);
  }

  lemma XorShift(x: bv64, y: bv64)
    ensures (x ^ y) >> 1 == (x >> 1) ^ (y >> 1)
    ensures (x ^ y) << 1 == (x << 1) ^ (y << 1)
  {}

  lemma PlusHalf(x: bv64, y: bv64)
    ensures Half(Plus(x, y)) == Plus(Half(x), Half(y))
  {
    XorShift(x, y);
  }

  lemma PlusOdd(x: bv64, y: bv64)
    ensures Odd(Plus(x, y)) == (Odd(x) != Odd(y))
  {}

  lemma StepPlus(x: bv64, y: bv64)
    ensures Step(Plus(x, y)) == Plus(Step(x), Step(y))
  {
    hide Plus, Half, Odd;
    PlusHalf(x, y);
    PlusOdd(x, y);
    PlusFacts(Half(x), Half(y), RPOLY);
  }

  lemma {:induction false} StepsPlus(x: bv64, y: bv64, k: nat)
    ensures Steps(Plus(x, y), k) == Plus(Steps(x, k), Steps(y, k))
  {
    hide Plus, Step;
    if k > 0 {
      StepsPlus(x, y, k - 1);
      StepPlus(Steps(x, k - 1), Steps(y, k - 1));
    }
  }

  lemma {:induction false} StepsAdd(x: bv64, a: nat, b: nat)
    ensures Steps(x, a + b) == Steps(Steps(x, a), b)
  {
    hide Step;
    if b > 0 { StepsAdd(x, a, b - 1); }
  }

  // ---------------------------------------------------------------------------------------------
  // The mirrored register is the mirror of the register
  // ---------------------------------------------------------------------------------------------

  lemma MirrorXor(x: bv64, y: bv64)
    ensures Mirror(x ^ y) == Mirror(x) ^ Mirror(y)
  {}

  lemma MirrorPlus(x: bv64, y: bv64)
    ensures Mirror(Plus(x, y)) == Plus(Mirror(x), Mirror(y))
  {
    hide Mirror;
    MirrorXor(x, y);
  }

  lemma MirrorPoly()
    ensures Mirror(POLY) == RPOLY
    ensures Mirror(0) == 0
  {}

  lemma MirrorTop(x: bv64)
    ensures TopBit(x) == Odd(Mirror(x))
  {}

  lemma PlusOne(x: bv64)
    ensures Half(Plus(x, 1)) == Half(x)
    ensures Odd(Plus(x, 1)) == !Odd(x)
    ensures Plus(x, 0) == x
  {}

  function BitWord(b: bool): bv64 { if b then 1 else 0 }

  lemma MirrorBitStep(c: bv64, bit: bool)
    ensures Mirror(BitStep(c, bit)) == Step(Plus(Mirror(c), BitWord(bit)))
  {
    hide Mirror, Odd, Half, Twice, Plus, TopBit;
    MirrorTop(c);
    MirrorTwice(c);
    MirrorPlus(Twice(c), POLY);
    MirrorPoly();
    PlusOne(Mirror(c));
  }

  function ByteHalves(b: Byte, k: nat): Byte {
    if k == 0 then b else ByteHalves(b, k - 1) >> 1
  }

  lemma ByteHalvesBit(b: Byte, k: nat)
    requires k < 8
    ensures BitOf(b, k) == (ByteHalves(b, k) & 1 != 0)
    ensures ByteHalves(b, 8) == 0
  {
    assert ByteHalves(b, 1) == b >> 1;
    assert ByteHalves(b, 2) == b >> 2;
    assert ByteHalves(b, 3) == b >> 3;
    assert ByteHalves(b, 4) == b >> 4;
    assert ByteHalves(b, 5) == b >> 5;
    assert ByteHalves(b, 6) == b >> 6;
    assert ByteHalves(b, 7) == b >> 7;
    assert ByteHalves(b, 8) == 0;
  }

  lemma WideSplit(w: Byte)
    ensures Wide(w) == Plus(BitWord(w & 1 != 0), Twice(Wide(w >> 1)))
  {}

  lemma StepTwice(w: Byte)
    ensures Step(Twice(Wide(w))) == Wide(w)
  {}

  lemma StepByte(r: bv64, w: Byte)
    ensures Step(Plus(r, Wide(w))) == Plus(Step(Plus(r, BitWord(w & 1 != 0))), Wide(w >> 1))
  {
    hide Plus, Step, Twice, Wide, BitWord;
    WideSplit(w);
    PlusAssoc(r, BitWord(w & 1 != 0), Twice(Wide(w >> 1)));
    StepPlus(Plus(r, BitWord(w & 1 != 0)), Twice(Wide(w >> 1)));
    StepTwice(w >> 1);
  }

  lemma {:induction false} MirrorFeedBits(c: bv64, b: Byte, k: nat)
    requires k <= 8
    ensures Plus(Mirror(FeedBits(c, b, k)), Wide(ByteHalves(b, k))) == Steps(Plus(Mirror(c), Wide(b)), k)
  {
    hide Mirror, Plus, Wide, Step, BitStep, BitOf, BitWord;
    if k > 0 {
      MirrorFeedBits(c, b, k - 1);
      ByteHalvesBit(b, k - 1);
      MirrorBitStep(FeedBits(c, b, k - 1), BitOf(b, k - 1));
      StepByte(Mirror(FeedBits(c, b, k - 1)), ByteHalves(b, k - 1));
    }
  }

  lemma MirrorFeedByte(c: bv64, b: Byte)
    ensures Mirror(FeedBits(c, b, 8)) == ByteUpdate(Mirror(c), b)
  {
    hide Mirror, Plus, Step, FeedBits, Steps;
    MirrorFeedBits(c, b, 8);
    ByteHalvesBit(b, 7);
    PlusSelf(Mirror(FeedBits(c, b, 8)));
  }

  // The mirrored register computes the CRC of crc64.c, for every start value and message.
  lemma {:induction false} UpdateIsBitwise(c: bv64, data: seq<Byte>)
    ensures Update(Mirror(c), data) == Mirror(Register(c, data))
  {
    hide Mirror, FeedBits, ByteUpdate;
    if data != [] {
      UpdateIsBitwise(c, data[..|data| - 1]);
      MirrorFeedByte(Register(c, data[..|data| - 1]), data[|data| - 1]);
    }
  }

  // The CRC of a concatenation is the CRC of the second part seeded with that of the first.
  lemma {:induction false} UpdateConcat(r: bv64, a: seq<Byte>, b: seq<Byte>)
    ensures Update(r, a + b) == Update(Update(r, a), b)
  {
    hide ByteUpdate;
    if b == [] {
      assert a + b == a;
    } else {
      UpdateConcat(r, a, b[..|b| - 1]);
      assert (a + b)[..|a + b| - 1] == a + b[..|b| - 1];
    }
  }

  // ---------------------------------------------------------------------------------------------
  // Bytes and words
  // ---------------------------------------------------------------------------------------------

  function LowByte(x: bv64): Byte { (x & 0xff) as Byte }
  function DropByte(x: bv64): bv64 { x >> 8 }
  function PushByte(x: bv64): bv64 { x << 8 }

  // A word read on a little-endian machine.
  function LittleWord(w: seq<Byte>): bv64
    requires |w| <= 8
  {
    if w == [] then 0 else Plus(Wide(w[0]), PushByte(LittleWord(w[1..])))
  }

  lemma StepsLowClear(x: bv64)
    requires x & 0xff == 0
    ensures Steps(x, 8) == DropByte(x)
  {
    assert Steps(x, 1) == x >> 1;
    assert Steps(x, 2) == x >> 2;
    assert Steps(x, 3) == x >> 3;
    assert Steps(x, 4) == x >> 4;
    assert Steps(x, 5) == x >> 5;
    assert Steps(x, 6) == x >> 6;
    assert Steps(x, 7) == x >> 7;
  }

  lemma SplitByte(x: bv64)
    ensures x == Plus(Wide(LowByte(x)), PushByte(DropByte(x)))
    ensures PushByte(DropByte(x)) & 0xff == 0
    ensures DropByte(PushByte(DropByte(x))) == DropByte(x)
  {}

  // One byte leaves the register: the part of it that the tables know, and the rest shifted.
  lemma StepsSplit(x: bv64)
    ensures Steps(x, 8) == Plus(Steps(Wide(LowByte(x)), 8), DropByte(x))
  {
    hide Plus, Wide, LowByte, PushByte, DropByte, Steps;
    SplitByte(x);
    StepsPlus(Wide(LowByte(x)), PushByte(DropByte(x)), 8);
    StepsLowClear(PushByte(DropByte(x)));
  }

  // x uses at most its n low bytes.
  predicate Fits(x: bv64, n: nat)
    requires n <= 8
  {
    x & [0xffffffffffffffff as bv64, 0xffffffffffffff00, 0xffffffffffff0000, 0xffffffffff000000,
         0xffffffff00000000, 0xffffff0000000000, 0xffff000000000000, 0xff00000000000000, 0][n] == 0
  }

  lemma FitsPush(b: Byte, x: bv64, n: nat)
    requires n < 8 && Fits(x, n)
    ensures Fits(Plus(Wide(b), PushByte(x)), n + 1)
  {}

  lemma FitsPop(b: Byte, x: bv64, n: nat)
    requires n < 8 && Fits(x, n)
    ensures DropByte(PushByte(x)) == x
    ensures PushByte(x) & 0xff == 0
    ensures LowByte(Plus(Wide(b), PushByte(x))) == b
    ensures DropByte(Plus(Wide(b), PushByte(x))) == x
  {}

  lemma {:induction false} LittleWordFits(w: seq<Byte>)
    requires |w| <= 8
    ensures Fits(LittleWord(w), |w|)
  {
    hide Plus, PushByte, Wide;
    if w != [] {
      hide Fits;
      LittleWordFits(w[1..]);
      FitsPush(w[0], LittleWord(w[1..]), |w| - 1);
    }
  }

  lemma {:induction false} LittleWordInjective(v: seq<Byte>, w: seq<Byte>)
    requires |v| == |w| <= 8 && LittleWord(v) == LittleWord(w)
    ensures v == w
  {
    hide Plus, PushByte, Wide, LowByte, DropByte, Fits;
    if w != [] {
      LittleWordFits(v[1..]);
      LittleWordFits(w[1..]);
      FitsPop(v[0], LittleWord(v[1..]), |w| - 1);
      FitsPop(w[0], LittleWord(w[1..]), |w| - 1);
      LittleWordInjective(v[1..], w[1..]);
      assert v == [v[0]] + v[1..];
      assert w == [w[0]] + w[1..];
    }
  }

  // Up to eight bytes can be added to the register at once.
  lemma {:induction false} UpdateWord(r: bv64, w: seq<Byte>)
    requires |w| <= 8
    ensures Update(r, w) == Steps(Plus(r, LittleWord(w)), 8 * |w|)
    decreases |w|
  {
    hide Plus, PushByte, Wide, DropByte, Fits, Steps;
    if w == [] {
      PlusSelf(r);
      assert Steps(r, 0) == r by { StepsNone(r); }
    } else {
      var rest := LittleWord(w[1..]);
      var sum := Plus(r, Wide(w[0]));
      UpdateConcat(r, [w[0]], w[1..]);
      assert [w[0]] + w[1..] == w;
      UpdateOne(r, w[0]);
      UpdateWord(Steps(sum, 8), w[1..]);
      LittleWordFits(w[1..]);
      FitsPop(w[0], rest, |w| - 1);
      StepsLowClear(PushByte(rest));
      StepsPlus(sum, PushByte(rest), 8);
      PlusAssoc(r, Wide(w[0]), PushByte(rest));
      StepsAdd(Plus(r, LittleWord(w)), 8, 8 * (|w| - 1));
    }
  }

  lemma StepsNone(r: bv64)
    ensures Steps(r, 0) == r
  {}

  lemma UpdateOne(r: bv64, b: Byte)
    ensures Update(r, [b]) == Steps(Plus(r, Wide(b)), 8)
  {
    hide Plus, Wide, Steps;
    assert [b][..0] == [];
    assert Update(r, [b]) == ByteUpdate(Update(r, [b][..0]), b);
  }

  // ---------------------------------------------------------------------------------------------
  // The tables
  // ---------------------------------------------------------------------------------------------

  function Entry(k: nat, b: Byte): bv64 {
    Steps(Wide(b), 8 * (k + 1))
  }

  lemma Slice(x: bv64, n: nat)
    ensures Steps(x, 8 * (n + 1)) == Plus(Entry(n, LowByte(x)), Steps(DropByte(x), 8 * n))
  {
    hide Plus, Wide, LowByte, DropByte, Steps;
    StepsAdd(x, 8, 8 * n);
    StepsSplit(x);
    StepsPlus(Steps(Wide(LowByte(x)), 8), DropByte(x), 8 * n);
    StepsAdd(Wide(LowByte(x)), 8, 8 * n);
  }

  lemma Drops(x: bv64)
    ensures DropByte(x) == x >> 8
    ensures DropByte(x >> 8) == x >> 16
    ensures DropByte(x >> 16) == x >> 24
    ensures DropByte(x >> 24) == x >> 32
    ensures DropByte(x >> 32) == x >> 40
    ensures DropByte(x >> 40) == x >> 48
    ensures DropByte(x >> 48) == x >> 56
    ensures DropByte(x >> 56) == 0
  {}

  // Byte j of a word, counting from the least significant: (x >> 8 * j) & 0xff.
  function ByteAt(x: bv64, j: nat): Byte
    requires j < 8
  {
    if j == 0 then LowByte(x)
    else if j == 1 then LowByte(x >> 8)
    else if j == 2 then LowByte(x >> 16)
    else if j == 3 then LowByte(x >> 24)
    else if j == 4 then LowByte(x >> 32)
    else if j == 5 then LowByte(x >> 40)
    else if j == 6 then LowByte(x >> 48)
    else LowByte(x >> 56)
  }

  // a ^ b ^ ... ^ h as C associates it.
  function Sum8(a: bv64, b: bv64, c: bv64, d: bv64, e: bv64, f: bv64, g: bv64, h: bv64): bv64 {
    Plus(Plus(Plus(Plus(Plus(Plus(Plus(a, b), c), d), e), f), g), h)
  }

  // Taking the first summand out, with as many of the others as are still wanted.
  lemma SumRight(a: bv64, b: bv64, c: bv64, d: bv64, e: bv64, f: bv64, g: bv64, h: bv64,
      b': bv64, c': bv64, d': bv64, e': bv64, f': bv64, g': bv64)
    requires g' == Plus(g, h) && f' == Plus(f, g') && e' == Plus(e, f')
    requires d' == Plus(d, e') && c' == Plus(c, d') && b' == Plus(b, c')
    ensures Sum8(a, b, c, d, e, f, g, h) == Plus(a, b')
  {
    hide Plus;
    var ab := Plus(a, b);
    var abc := Plus(ab, c);
    var abcd := Plus(abc, d);
    var abcde := Plus(abcd, e);
    var abcdef := Plus(abcde, f);
    PlusAssoc(abcdef, g, h);
    PlusAssoc(abcde, f, g');
    PlusAssoc(abcd, e, f');
    PlusAssoc(abc, d, e');
    PlusAssoc(ab, c, d');
    PlusAssoc(a, b, c');
  }

  // Eight table entries stand for sixty-four steps of the register.
  lemma EightSlices(x: bv64)
    ensures Steps(x, 64) == Sum8(
      Entry(7, ByteAt(x, 0)), Entry(6, ByteAt(x, 1)), Entry(5, ByteAt(x, 2)), Entry(4, ByteAt(x, 3)),
      Entry(3, ByteAt(x, 4)), Entry(2, ByteAt(x, 5)), Entry(1, ByteAt(x, 6)), Entry(0, ByteAt(x, 7)))
  {
    hide Plus, Sum8, LowByte, DropByte, Steps, Entry;
    Drops(x);
    Slice(x, 7);
    Slice(x >> 8, 6);
    Slice(x >> 16, 5);
    Slice(x >> 24, 4);
    Slice(x >> 32, 3);
    Slice(x >> 40, 2);
    Slice(x >> 48, 1);
    Slice(x >> 56, 0);
    StepsNone(0);
    PlusSelf(Entry(0, ByteAt(x, 7)));
    SumRight(
      Entry(7, ByteAt(x, 0)), Entry(6, ByteAt(x, 1)), Entry(5, ByteAt(x, 2)), Entry(4, ByteAt(x, 3)),
      Entry(3, ByteAt(x, 4)), Entry(2, ByteAt(x, 5)), Entry(1, ByteAt(x, 6)), Entry(0, ByteAt(x, 7)),
      Steps(x >> 8, 56), Steps(x >> 16, 48), Steps(x >> 24, 40), Steps(x >> 32, 32), Steps(x >> 40, 24), Steps(x >> 48, 16));
  }

  ghost predicate LittleTable(t: array2<bv64>)
    reads t
  {
    t.Length0 == 8 && t.Length1 == 256 &&
    forall k, n :: 0 <= k < 8 && 0 <= n < 256 ==> t[k, n] == Entry(k, n as Byte)
  }

  lemma EntryZero(b: Byte)
    ensures Mirror(Register(0, [b])) == Entry(0, b)
  {
    hide Mirror, Register, Plus, Steps, Wide;
    UpdateIsBitwise(0, [b]);
    MirrorPoly();
    UpdateOne(0, b);
    PlusComm(0, Wide(b));
    PlusSelf(Wide(b));
  }

  lemma EntryNext(k: nat, b: Byte)
    ensures Plus(Entry(0, LowByte(Entry(k, b))), DropByte(Entry(k, b))) == Entry(k + 1, b)
  {
    hide Plus, Steps, Wide, LowByte, DropByte;
    StepsSplit(Entry(k, b));
    StepsAdd(Wide(b), 8 * (k + 1), 8);
  }

  // The inner loop: extends the first entry of column n to all eight tables.
  method FillColumn(table: array2<bv64>, n: nat)
    requires table.Length0 == 8 && table.Length1 == 256 && n < 256
    requires forall m :: 0 <= m < 256 ==> table[0, m] == Entry(0, m as Byte)
    modifies table
    ensures forall k, m :: 0 <= k < 8 && 0 <= m < 256 && (m != n || k == 0) ==> table[k, m] == old(table[k, m])
    ensures forall k :: 0 <= k < 8 ==> table[k, n] == Entry(k, n as Byte)
  {
    hide Entry, Plus, LowByte, DropByte;
    var crc := table[0, n];
    for k := 1 to 8
      invariant crc == Entry(k - 1, n as Byte)
      invariant forall j, m :: 0 <= j < 8 && 0 <= m < 256 && (m != n || j == 0) ==> table[j, m] == old(table[j, m])
      invariant forall j :: 0 <= j < k ==> table[j, n] == Entry(j, n as Byte)
    {
      EntryNext(k - 1, n as Byte);
      crc := Plus(table[0, LowByte(crc) as int], DropByte(crc));
      table[k, n] := crc;
    }
  }

  method CrcSpeed64LittleInit(table: array2<bv64>)
    requires table.Length0 == 8 && table.Length1 == 256
    modifies table
    ensures LittleTable(table)
  {
    hide Mirror, Register, Entry;
    for n := 0 to 256
      invariant forall m :: 0 <= m < n ==> table[0, m] == Entry(0, m as Byte)
    {
      var crc := Crc64Bitwise(0, [n as Byte]);
      EntryZero(n as Byte);
      table[0, n] := crc;
    }
    for n := 0 to 256
      invariant forall m :: 0 <= m < 256 ==> table[0, m] == Entry(0, m as Byte)
      invariant forall k, m :: 0 <= k < 8 && 0 <= m < n ==> table[k, m] == Entry(k, m as Byte)
    {
      FillColumn(table, n);
    }
  }

  // ---------------------------------------------------------------------------------------------
  // crcspeed64little
  // ---------------------------------------------------------------------------------------------

  lemma DropPlus(x: bv64, b: Byte)
    ensures DropByte(Plus(x, Wide(b))) == DropByte(x)
  {}

  lemma ByteStep(crc: bv64, b: Byte)
    ensures Plus(Entry(0, LowByte(Plus(crc, Wide(b)))), DropByte(crc)) == ByteUpdate(crc, b)
  {
    hide Plus, Steps, Wide, LowByte, DropByte;
    StepsSplit(Plus(crc, Wide(b)));
    DropPlus(crc, b);
  }

  lemma UpdateSnoc(r: bv64, data: seq<Byte>, b: Byte)
    ensures Update(r, data + [b]) == ByteUpdate(Update(r, data), b)
  {
    hide ByteUpdate;
    assert (data + [b])[..|data + [b]| - 1] == data;
  }

  function Lookup(table: array2<bv64>, k: nat, b: Byte): (e: bv64)
    requires LittleTable(table) && k < 8
    reads table
    ensures e == Entry(k, b)
  {
    hide Entry;
    table[k, b as int]
  }

  method LookupWord(table: array2<bv64>, x: bv64) returns (crc: bv64)
    requires LittleTable(table)
    ensures crc == Steps(x, 64)
  {
    hide Sum8, Entry, ByteAt, Steps, LittleTable;
    crc := Sum8(
      Lookup(table, 7, ByteAt(x, 0)), Lookup(table, 6, ByteAt(x, 1)),
      Lookup(table, 5, ByteAt(x, 2)), Lookup(table, 4, ByteAt(x, 3)),
      Lookup(table, 3, ByteAt(x, 4)), Lookup(table, 2, ByteAt(x, 5)),
      Lookup(table, 1, ByteAt(x, 6)), Lookup(table, 0, ByteAt(x, 7)));
    EightSlices(x);
  }

  lemma UpdateEight(r: bv64, data: seq<Byte>, w: seq<Byte>)
    requires |w| == 8
    ensures Update(r, data + w) == Steps(Plus(Update(r, data), LittleWord(w)), 64)
  {
    hide Plus, Steps, Update, LittleWord;
    UpdateConcat(r, data, w);
    UpdateWord(Update(r, data), w);
  }

  method CrcSpeed64Little(table: array2<bv64>, start: bv64, buf: seq<Byte>, address: nat) returns (crc: bv64)
    requires LittleTable(table)
    ensures crc == Update(start, buf)
  {
    hide Plus, Entry, LowByte, DropByte, Wide, Steps, Update, LittleWord, ByteUpdate, LittleTable;
    crc := start;
    var next, len := 0, |buf|;
    assert buf[..0] == [];
    UpdateNone(start);

    while len > 0 && (address + next) % 8 != 0
      invariant 0 <= next && 0 <= len && next + len == |buf|
      invariant crc == Update(start, buf[..next])
    {
      ByteStep(crc, buf[next]);
      UpdateSnoc(start, buf[..next], buf[next]);
      assert buf[..next + 1] == buf[..next] + [buf[next]];
      crc := Plus(Lookup(table, 0, LowByte(Plus(crc, Wide(buf[next])))), DropByte(crc));
      next, len := next + 1, len - 1;
    }

    while len >= 8
      invariant 0 <= next && 0 <= len && next + len == |buf|
      invariant crc == Update(start, buf[..next])
    {
      ghost var was := crc;
      crc := Plus(crc, LittleWord(buf[next..next + 8]));
      crc := LookupWord(table, crc);
      UpdateEight(start, buf[..next], buf[next..next + 8]);
      assert buf[..next + 8] == buf[..next] + buf[next..next + 8];
      next, len := next + 8, len - 8;
    }

    while len > 0
      invariant 0 <= next && 0 <= len && next + len == |buf|
      invariant crc == Update(start, buf[..next])
    {
      ByteStep(crc, buf[next]);
      UpdateSnoc(start, buf[..next], buf[next]);
      assert buf[..next + 1] == buf[..next] + [buf[next]];
      crc := Plus(Lookup(table, 0, LowByte(Plus(crc, Wide(buf[next])))), DropByte(crc));
      next, len := next + 1, len - 1;
    }
    assert buf[..|buf|] == buf;
  }

  lemma UpdateNone(r: bv64)
    ensures Update(r, []) == r
  {}

  // ---------------------------------------------------------------------------------------------
  // crcspeed64big: the same computation on byte-reversed words
  // ---------------------------------------------------------------------------------------------

  function Rev8(a: bv64): bv64 {
    var b := ((a >> 8) & 0xff00ff00ff00ff) | ((a & 0xff00ff00ff00ff) << 8);
    var c := ((b >> 16) & 0xffff0000ffff) | ((b & 0xffff0000ffff) << 16);
    (c >> 32) | (c << 32)
  }

  function TopByte(x: bv64): Byte { (x >> 56) as Byte }

  // A word read on a big-endian machine.
  function BigBytes(b0: bv64, b1: bv64, b2: bv64, b3: bv64, b4: bv64, b5: bv64, b6: bv64, b7: bv64): bv64 {
    (b0 << 56) | (b1 << 48) | (b2 << 40) | (b3 << 32) | (b4 << 24) | (b5 << 16) | (b6 << 8) | b7
  }

  function BigWord(w: seq<Byte>): bv64
    requires |w| == 8
  {
    BigBytes(Wide(w[0]), Wide(w[1]), Wide(w[2]), Wide(w[3]), Wide(w[4]), Wide(w[5]), Wide(w[6]), Wide(w[7]))
  }

  lemma Rev8Involutive(x: bv64)
    ensures Rev8(Rev8(x)) == x
  {}

  lemma Rev8Plus(x: bv64, y: bv64)
    ensures Rev8(x ^ y) == Rev8(x) ^ Rev8(y)
    ensures Rev8(Plus(x, y)) == Plus(Rev8(x), Rev8(y))
  {}

  lemma Rev8Drop(x: bv64)
    ensures Rev8(DropByte(x)) == PushByte(Rev8(x))
    ensures TopByte(Rev8(x)) == LowByte(x)
  {}

  lemma LowBytePlus(x: bv64, b: Byte)
    ensures LowByte(Plus(x, Wide(b))) == LowByte(x) ^ b
  {}

  lemma Rev8Shifts(x: bv64)
    ensures LowByte(Rev8(x)) == LowByte(x >> 56)
    ensures LowByte(Rev8(x) >> 8) == LowByte(x >> 48)
    ensures LowByte(Rev8(x) >> 16) == LowByte(x >> 40)
    ensures LowByte(Rev8(x) >> 24) == LowByte(x >> 32)
    ensures LowByte(Rev8(x) >> 32) == LowByte(x >> 24)
    ensures LowByte(Rev8(x) >> 40) == LowByte(x >> 16)
    ensures LowByte(Rev8(x) >> 48) == LowByte(x >> 8)
    ensures LowByte(Rev8(x) >> 56) == LowByte(x)
  {}

  lemma Rev8Bytes(x: bv64, j: nat)
    requires j < 8
    ensures ByteAt(Rev8(x), j) == ByteAt(x, 7 - j)
  {
    hide Rev8, LowByte;
    Rev8Shifts(x);
  }

  predicate Link(x: bv64, b: bv64, y: bv64) { b < 256 && x == b ^ (y << 8) }

  lemma LinkPlus(b: Byte, y: bv64)
    ensures Link(Plus(Wide(b), PushByte(y)), Wide(b), y)
  {}

  lemma LittleWordSplit(w: seq<Byte>, k: nat)
    requires k < |w| == 8
    ensures Link(LittleWord(w[k..]), Wide(w[k]), LittleWord(w[k + 1..]))
  {
    hide Link, Plus, PushByte, Wide;
    LinkPlus(w[k], LittleWord(w[k + 1..]));
    assert w[k..][1..] == w[k + 1..];
  }

  lemma LittleRaw(b0: bv64, b1: bv64, b2: bv64, b3: bv64, b4: bv64, b5: bv64, b6: bv64, b7: bv64,
      x0: bv64, x1: bv64, x2: bv64, x3: bv64, x4: bv64, x5: bv64, x6: bv64, x7: bv64)
    requires b0 < 256 && b1 < 256 && b2 < 256 && b3 < 256 && b4 < 256 && b5 < 256 && b6 < 256 && b7 < 256
    requires x7 == b7 ^ (0 << 8) && x6 == b6 ^ (x7 << 8) && x5 == b5 ^ (x6 << 8) && x4 == b4 ^ (x5 << 8)
    requires x3 == b3 ^ (x4 << 8) && x2 == b2 ^ (x3 << 8) && x1 == b1 ^ (x2 << 8) && x0 == b0 ^ (x1 << 8)
    ensures Rev8(x0) == (b0 << 56) | (b1 << 48) | (b2 << 40) | (b3 << 32) | (b4 << 24) | (b5 << 16) | (b6 << 8) | b7
  {}

  lemma LittleLinked(b0: bv64, b1: bv64, b2: bv64, b3: bv64, b4: bv64, b5: bv64, b6: bv64, b7: bv64,
      x0: bv64, x1: bv64, x2: bv64, x3: bv64, x4: bv64, x5: bv64, x6: bv64, x7: bv64)
    requires Link(x7, b7, 0) && Link(x6, b6, x7) && Link(x5, b5, x6) && Link(x4, b4, x5)
    requires Link(x3, b3, x4) && Link(x2, b2, x3) && Link(x1, b1, x2) && Link(x0, b0, x1)
    ensures Rev8(x0) == BigBytes(b0, b1, b2, b3, b4, b5, b6, b7)
  {
    hide Rev8;
    LittleRaw(b0, b1, b2, b3, b4, b5, b6, b7, x0, x1, x2, x3, x4, x5, x6, x7);
  }

  lemma Rev8Word(w: seq<Byte>)
    requires |w| == 8
    ensures Rev8(LittleWord(w)) == BigWord(w)
  {
    hide Rev8, LittleWord, BigBytes, Link, Wide;
    LittleWordSplit(w, 0);
    LittleWordSplit(w, 1);
    LittleWordSplit(w, 2);
    LittleWordSplit(w, 3);
    LittleWordSplit(w, 4);
    LittleWordSplit(w, 5);
    LittleWordSplit(w, 6);
    LittleWordSplit(w, 7);
    assert w[0..] == w;
    assert w[8..] == [];
    LittleNone();
    LittleLinked(Wide(w[0]), Wide(w[1]), Wide(w[2]), Wide(w[3]), Wide(w[4]), Wide(w[5]), Wide(w[6]), Wide(w[7]),
      LittleWord(w[0..]), LittleWord(w[1..]), LittleWord(w[2..]), LittleWord(w[3..]),
      LittleWord(w[4..]), LittleWord(w[5..]), LittleWord(w[6..]), LittleWord(w[7..]));
  }

  lemma LittleNone()
    ensures LittleWord([]) == 0
  {}

  ghost predicate BigTable(t: array2<bv64>)
    reads t
  {
    t.Length0 == 8 && t.Length1 == 256 &&
    forall k, n :: 0 <= k < 8 && 0 <= n < 256 ==> t[k, n] == Rev8(Entry(k, n as Byte))
  }

  method CrcSpeed64BigInit(table: array2<bv64>)
    requires table.Length0 == 8 && table.Length1 == 256
    modifies table
    ensures BigTable(table)
  {
    hide Rev8, Entry;
    CrcSpeed64LittleInit(table);
    for k := 0 to 8
      invariant forall j, m :: 0 <= j < k && 0 <= m < 256 ==> table[j, m] == Rev8(Entry(j, m as Byte))
      invariant forall j, m :: k <= j < 8 && 0 <= m < 256 ==> table[j, m] == Entry(j, m as Byte)
    {
      for n := 0 to 256
        invariant forall j, m :: 0 <= j < k && 0 <= m < 256 ==> table[j, m] == Rev8(Entry(j, m as Byte))
        invariant forall j, m :: k < j < 8 && 0 <= m < 256 ==> table[j, m] == Entry(j, m as Byte)
        invariant forall m :: 0 <= m < n ==> table[k, m] == Rev8(Entry(k, m as Byte))
        invariant forall m :: n <= m < 256 ==> table[k, m] == Entry(k, m as Byte)
      {
        table[k, n] := Rev8(table[k, n]);
      }
    }
  }

  function LookupBig(table: array2<bv64>, k: nat, b: Byte): (e: bv64)
    requires BigTable(table) && k < 8
    reads table
    ensures e == Rev8(Entry(k, b))
  {
    hide Entry, Rev8;
    table[k, b as int]
  }

  lemma SumReversed(a: bv64, b: bv64, c: bv64, d: bv64, e: bv64, f: bv64, g: bv64, h: bv64)
    ensures Sum8(h, g, f, e, d, c, b, a) == Sum8(a, b, c, d, e, f, g, h)
  {
    hide Plus;
    var gh := Plus(g, h);
    var fh := Plus(f, gh);
    var eh := Plus(e, fh);
    var dh := Plus(d, eh);
    var ch := Plus(c, dh);
    var bh := Plus(b, ch);
    SumRight(a, b, c, d, e, f, g, h, bh, ch, dh, eh, fh, gh);
    PlusComm(g, h);
    PlusComm(f, gh);
    PlusComm(e, fh);
    PlusComm(d, eh);
    PlusComm(c, dh);
    PlusComm(b, ch);
    PlusComm(a, bh);
  }

  lemma Rev8Sum(a: bv64, b: bv64, c: bv64, d: bv64, e: bv64, f: bv64, g: bv64, h: bv64)
    ensures Rev8(Sum8(a, b, c, d, e, f, g, h))
         == Sum8(Rev8(a), Rev8(b), Rev8(c), Rev8(d), Rev8(e), Rev8(f), Rev8(g), Rev8(h))
  {
    hide Plus, Rev8;
    var s := Plus(a, b); Rev8Plus(a, b);
    Rev8Plus(s, c); s := Plus(s, c);
    Rev8Plus(s, d); s := Plus(s, d);
    Rev8Plus(s, e); s := Plus(s, e);
    Rev8Plus(s, f); s := Plus(s, f);
    Rev8Plus(s, g); s := Plus(s, g);
    Rev8Plus(s, h);
  }

  method LookupWordBig(table: array2<bv64>, ghost x: bv64, y: bv64) returns (crc: bv64)
    requires BigTable(table) && y == Rev8(x)
    ensures crc == Rev8(Steps(x, 64))
  {
    hide Sum8, Entry, ByteAt, Steps, BigTable, Rev8;
    forall j: nat | j < 8 ensures ByteAt(y, j) == ByteAt(x, 7 - j) {
      Rev8Bytes(x, j);
    }
    crc := Sum8(
      LookupBig(table, 0, ByteAt(y, 0)), LookupBig(table, 1, ByteAt(y, 1)),
      LookupBig(table, 2, ByteAt(y, 2)), LookupBig(table, 3, ByteAt(y, 3)),
      LookupBig(table, 4, ByteAt(y, 4)), LookupBig(table, 5, ByteAt(y, 5)),
      LookupBig(table, 6, ByteAt(y, 6)), LookupBig(table, 7, ByteAt(y, 7)));
    EightSlices(x);
    ghost var a, b, c, d := Entry(7, ByteAt(x, 0)), Entry(6, ByteAt(x, 1)), Entry(5, ByteAt(x, 2)), Entry(4, ByteAt(x, 3));
    ghost var e, f, g, h := Entry(3, ByteAt(x, 4)), Entry(2, ByteAt(x, 5)), Entry(1, ByteAt(x, 6)), Entry(0, ByteAt(x, 7));
    SumReversed(a, b, c, d, e, f, g, h);
    Rev8Sum(h, g, f, e, d, c, b, a);
  }

  lemma ByteStepBig(crc: bv64, b: Byte)
    ensures Plus(Rev8(Entry(0, TopByte(Rev8(crc)) ^ b)), PushByte(Rev8(crc))) == Rev8(ByteUpdate(crc, b))
  {
    hide Plus, Rev8, Entry, TopByte, LowByte, DropByte, PushByte, ByteUpdate, Wide;
    ByteStep(crc, b);
    LowBytePlus(crc, b);
    Rev8Drop(crc);
    Rev8Plus(Entry(0, LowByte(crc) ^ b), DropByte(crc));
  }

  method CrcSpeed64Big(table: array2<bv64>, start: bv64, buf: seq<Byte>, address: nat) returns (crc: bv64)
    requires BigTable(table)
    ensures crc == Update(start, buf)
  {
    hide Plus, Entry, TopByte, PushByte, Rev8, Steps, Update, LittleWord, BigWord, ByteUpdate, BigTable;
    crc := Rev8(start);
    var next, len := 0, |buf|;
    assert buf[..0] == [];
    UpdateNone(start);
    ghost var reg := start;

    while len > 0 && (address + next) % 8 != 0
      invariant 0 <= next && 0 <= len && next + len == |buf|
      invariant reg == Update(start, buf[..next]) && crc == Rev8(reg)
    {
      ByteStepBig(reg, buf[next]);
      UpdateSnoc(start, buf[..next], buf[next]);
      assert buf[..next + 1] == buf[..next] + [buf[next]];
      crc := Plus(LookupBig(table, 0, TopByte(crc) ^ buf[next]), PushByte(crc));
      reg := ByteUpdate(reg, buf[next]);
      next, len := next + 1, len - 1;
    }

    while len >= 8
      invariant 0 <= next && 0 <= len && next + len == |buf|
      invariant reg == Update(start, buf[..next]) && crc == Rev8(reg)
    {
      var w := buf[next..next + 8];
      Rev8Word(w);
      Rev8Plus(reg, LittleWord(w));
      crc := Plus(crc, BigWord(w));
      reg := Plus(reg, LittleWord(w));
      crc := LookupWordBig(table, reg, crc);
      reg := Steps(reg, 64);
      UpdateEight(start, buf[..next], w);
      assert buf[..next + 8] == buf[..next] + w;
      next, len := next + 8, len - 8;
    }

    while len > 0
      invariant 0 <= next && 0 <= len && next + len == |buf|
      invariant reg == Update(start, buf[..next]) && crc == Rev8(reg)
    {
      ByteStepBig(reg, buf[next]);
      UpdateSnoc(start, buf[..next], buf[next]);
      assert buf[..next + 1] == buf[..next] + [buf[next]];
      crc := Plus(LookupBig(table, 0, TopByte(crc) ^ buf[next]), PushByte(crc));
      reg := ByteUpdate(reg, buf[next]);
      next, len := next + 1, len - 1;
    }
    assert buf[..|buf|] == buf;
    Rev8Involutive(reg);
    crc := Rev8(crc);
  }

  // ---------------------------------------------------------------------------------------------
  // crc64 and crc64_init
  // ---------------------------------------------------------------------------------------------

  datatype ByteOrder = Little | Big

  ghost predicate Initialized(order: ByteOrder, table: array2<bv64>)
    reads table
  {
    match order
    case Little => LittleTable(table)
    case Big => BigTable(table)
  }

  method Crc64Init(order: ByteOrder) returns (table: array2<bv64>)
    ensures fresh(table) && Initialized(order, table)
  {
    hide LittleTable, BigTable;
    table := new bv64[8, 256];
    match order {
      case Little => CrcSpeed64LittleInit(table);
      case Big => CrcSpeed64BigInit(table);
    }
  }

  // The result is the CRC that the bit-by-bit function computes from the mirrored start value,
  // whatever the byte order of the machine and the alignment of the buffer.
  method Crc64Update(order: ByteOrder, table: array2<bv64>, crc: bv64, s: seq<Byte>, address: nat) returns (r: bv64)
    requires Initialized(order, table)
    ensures r == Mirror(Register(Mirror(crc), s))
    ensures r == Update(crc, s)
  {
    hide LittleTable, BigTable, Update, Mirror, Register;
    match order {
      case Little => r := CrcSpeed64Little(table, crc, s, address);
      case Big => r := CrcSpeed64Big(table, crc, s, address);
    }
    UpdateIsBitwise(Mirror(crc), s);
    MirrorInvolutive(crc);
  }

  // ---------------------------------------------------------------------------------------------
  // Burst detection
  // ---------------------------------------------------------------------------------------------

  lemma StepInjective(x: bv64, y: bv64)
    requires Step(x) == Step(y)
    ensures x == y
  {}

  lemma {:induction false} StepsInjective(x: bv64, y: bv64, k: nat)
    requires Steps(x, k) == Steps(y, k)
    ensures x == y
  {
    hide Step;
    if k > 0 {
      StepInjective(Steps(x, k - 1), Steps(y, k - 1));
      StepsInjective(x, y, k - 1);
    }
  }

  lemma PlusInjective(x: bv64, y: bv64, z: bv64)
    requires Plus(x, z) == Plus(y, z)
    ensures x == y
  {
    hide Plus;
    PlusFacts(x, y, z);
    PlusComm(x, y);
    PlusAssoc(y, y, x);
    PlusAssoc(x, z, z);
    PlusAssoc(y, z, z);
    PlusSelf(z);
    PlusSelf(x);
    PlusSelf(y);
  }

  // Feeding the same bytes keeps different registers different.
  lemma {:induction false} UpdateInjective(r: bv64, q: bv64, data: seq<Byte>)
    requires Update(r, data) == Update(q, data)
    ensures r == q
  {
    hide Plus, Steps, Wide;
    if data != [] {
      var init, b := data[..|data| - 1], data[|data| - 1];
      StepsInjective(Plus(Update(r, init), Wide(b)), Plus(Update(q, init), Wide(b)), 8);
      PlusInjective(Update(r, init), Update(q, init), Wide(b));
      UpdateInjective(r, q, init);
    }
  }

  // Two messages that differ only inside a window of eight bytes have different CRCs.
  lemma BurstDetected(crc: bv64, m: seq<Byte>, n: seq<Byte>, lo: nat, hi: nat)
    requires |m| == |n| && lo <= hi <= |m| && hi - lo <= 8
    requires forall i :: 0 <= i < |m| && !(lo <= i < hi) ==> m[i] == n[i]
    requires m != n
    ensures Update(crc, m) != Update(crc, n)
  {
    hide Plus, Steps, Update, LittleWord;
    var before, after := m[..lo], m[hi..];
    var v, w := m[lo..hi], n[lo..hi];
    assert m == before + v + after;
    assert n == before + w + after;
    UpdateConcat(crc, before + v, after);
    UpdateConcat(crc, before + w, after);
    UpdateConcat(crc, before, v);
    UpdateConcat(crc, before, w);
    if Update(crc, m) == Update(crc, n) {
      var r := Update(crc, before);
      UpdateInjective(Update(r, v), Update(r, w), after);
      UpdateWord(r, v);
      UpdateWord(r, w);
      StepsInjective(Plus(r, LittleWord(v)), Plus(r, LittleWord(w)), 8 * |v|);
      PlusComm(r, LittleWord(v));
      PlusComm(r, LittleWord(w));
      PlusInjective(LittleWord(v), LittleWord(w), r);
      LittleWordInjective(v, w);
    }
  }
}
