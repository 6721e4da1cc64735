// The command BITCOUNT on a string (bitops.c).
module BitCountCommand {
  import opened Basics
  import opened Bits
  import opened BitPos
  import opened BitCount
  import opened BitPosCommand

  datatype Span = Span(start: int, end: int, isbit: bool)

  // The reply to BITCOUNT: the number of set bits in the range, given in bytes or in bits, or in the
  // whole string. Two positions counted from the end, the second before the first, are an empty range.
  function BitsIn(s: Bytes, range: Option<Span>): nat {
    if range.None? then Count(s, 0, 8 * |s|)
    else
      var total := if range.value.isbit then 8 * |s| else |s|;
      var a, b := ClampStart(range.value.start, total), ClampEnd(range.value.end, total);
      if range.value.end < range.value.start < 0 || a > b then 0
      else if range.value.isbit then Count(s, a, b + 1)
      else Count(s, 8 * a, 8 * b + 8)
  }

  // ---------------------------------------------------------------------------------------------
  // Bits outside of the range, in its first and its last byte
  // ---------------------------------------------------------------------------------------------

  lemma KeepMask(b: Byte, mask: Byte, m: Byte)
    requires mask & m == 0 || mask & m == m
    ensures (b & mask) & m == if mask & m == 0 then 0 else b & m
  {}

  lemma KeepBits(b: Byte, mask: Byte, i: nat)
    requires i < 8
    ensures BitOf(b & mask, i) <==> BitOf(b, i) && BitOf(mask, i)
  {
    hide Mask;
    MasksApart(i, i);
    SingleBit(i, mask);
    KeepMask(b, mask, Mask(i));
  }

  lemma {:induction false} CountZero(s: Bytes, a: nat, b: nat)
    requires a <= b && forall i :: a <= i < b ==> !Padded(s, i)
    ensures Count(s, a, b) == 0
  {
    hide Padded;
    if a < b { CountZero(s, a, b - 1); }
  }

  lemma PaddedByte(s: Bytes, c: nat, i: nat)
    requires c < |s| && i < 8
    ensures Padded(s, 8 * c + i) == BitOf(s[c], i)
  {
    assert (8 * c + i) / 8 == c && (8 * c + i) % 8 == i;
  }

  lemma HighCount(s: Bytes, c: nat, k: nat)
    requires c < |s| && k < 8
    ensures BitsInByte(s[c] & HighMask(k)) == Count(s, 8 * c, 8 * c + k)
  {
    hide BitOf, HighMask, Count, Padded;
    var t := [s[c] & HighMask(k)];
    forall i | 0 <= i < 8 ensures Padded(t, i) <==> BitOf(s[c], i) && i < k {
      PaddedByte(t, 0, i);
      KeepBits(s[c], HighMask(k), i);
      HighMaskBits(k, i);
    }
    CountSplit(t, 0, k, 8);
    CountZero(t, k, 8);
    forall i | 0 <= i < k ensures Alike(s, 8 * c, t, 0, i) { PaddedByte(s, c, i); }
    CountFrame(s, 8 * c, t, 0, k);
  }

  lemma LowCount(s: Bytes, c: nat, k: nat)
    requires c < |s| && k < 8
    ensures BitsInByte(s[c] & LowMask(k)) == Count(s, 8 * c + k + 1, 8 * c + 8)
  {
    hide BitOf, LowMask, Count, Padded;
    var t := [s[c] & LowMask(k)];
    forall i | 0 <= i < 8 ensures Padded(t, i) <==> BitOf(s[c], i) && i > k {
      PaddedByte(t, 0, i);
      KeepBits(s[c], LowMask(k), i);
      LowMaskBits(k, i);
    }
    CountSplit(t, 0, k + 1, 8);
    CountZero(t, 0, k + 1);
    var n, o, p := 8 - (k + 1), 8 * c + k + 1, k + 1;
    forall i | 0 <= i < n ensures Alike(s, o, t, p, i) {
      PaddedByte(s, c, k + 1 + i);
      assert 8 * c + (k + 1 + i) == 8 * c + k + 1 + i;
      assert Padded(t, k + 1 + i) <==> BitOf(s[c], k + 1 + i) && k + 1 + i > k;
    }
    CountFrame(s, o, t, p, n);
  }

  lemma SliceCount(s: Bytes, x: nat, y: nat)
    requires x <= y <= |s|
    ensures Count(s[x..y], 0, 8 * (y - x)) == Count(s, 8 * x, 8 * y)
  {
    hide Count, Padded;
    forall i | 0 <= i < 8 * (y - x) ensures Alike(s[x..y], 0, s, 8 * x, i) { SliceBits(s, x, y, i); }
    CountFrame(s[x..y], 0, s, 8 * x, 8 * (y - x));
  }

  lemma TwoBytes(a: Byte, b: Byte)
    ensures Count([a, b], 0, 16) == BitsInByte(a) + BitsInByte(b)
  {
    hide Count, BitsInByte;
    ByteCount([a, b], 0);
    ByteCount([a, b], 1);
    CountSplit([a, b], 0, 8, 16);
  }

  // ---------------------------------------------------------------------------------------------
  // The command
  // ---------------------------------------------------------------------------------------------

  // The bits of the bytes start to end, without the first a bits of the first byte and the bits after
  // bit b of the last one.
  method CountRange(s: Bytes, address: nat, start: nat, end: nat, a: nat, b: nat) returns (count: int)
    requires start <= end < |s| && a < 8 && b < 8 && (start == end ==> a <= b)
    ensures count == Count(s, 8 * start + a, 8 * end + b + 1)
  {
    hide Count, HighMask, LowMask, BitsInByte;
    var first, last := HighMask(a), LowMask(b);
    HighMaskBits(a, 0);
    LowMaskBits(b, 0);
    count := RedisPopcount(s[start..end + 1], address + start);
    SliceCount(s, start, end + 1);
    CountSplit(s, 8 * start, 8 * start + a, 8 * end + 8);
    CountSplit(s, 8 * start + a, 8 * end + b + 1, 8 * end + 8);
    HighCount(s, start, a);
    LowCount(s, end, b);
    NoneMasked();
    if first != 0 || last != 0 {
      // A mask that is zero keeps no bit.
      var f: Byte := if first != 0 then s[start] & first else 0;
      var l: Byte := if last != 0 then s[end] & last else 0;
      MaskedByZero(s[start], first);
      MaskedByZero(s[end], last);
      var outside := RedisPopcount([f, l], address);
      TwoBytes(f, l);
      count := count - outside;
    } else {
      MaskedByZero(s[start], first);
      MaskedByZero(s[end], last);
    }
  }

  lemma MaskedByZero(b: Byte, mask: Byte)
    ensures mask == 0 ==> b & mask == 0
  {}

  lemma NoneMasked()
    ensures BitsInByte(0) == 0
  {
    hide BitOf;
    forall i | 0 <= i < 8 ensures !Padded([0], i) { ZeroBits(i); }
    CountZero([0], 0, 8);
  }

  // bitcountCommand
  method Bitcount(s: Bytes, address: nat, range: Option<Span>) returns (count: int)
    ensures count == BitsIn(s, range)
  {
    hide Count;
    if range.None? {
      if |s| == 0 {
        CountNothing(s);
        return 0;
      }
      count := CountRange(s, address, 0, |s| - 1, 0, 7);
      return;
    }
    var start, end, isbit := range.value.start, range.value.end, range.value.isbit;
    if start < 0 && end < 0 && start > end {
      return 0;
    }
    var total := if isbit then 8 * |s| else |s|;
    var x, y := ClampStart(start, total), ClampEnd(end, total);
    if x > y {
      return 0;
    }
    if isbit {
      count := CountRange(s, address, x / 8, y / 8, x % 8, y % 8);
    } else {
      count := CountRange(s, address, x, y, 0, 7);
    }
  }

  // ---------------------------------------------------------------------------------------------
  // What the reply says
  // ---------------------------------------------------------------------------------------------

  lemma {:induction false} CountIsSize(s: Bytes, a: nat, b: nat)
    requires a <= b
    ensures Count(s, a, b) == |set i: nat | a <= i < b && Padded(s, i)|
  {
    hide Padded;
    var bits := set i: nat | a <= i < b && Padded(s, i);
    if a == b {
      assert bits == {};
    } else {
      CountIsSize(s, a, b - 1);
      var init := set i: nat | a <= i < b - 1 && Padded(s, i);
      assert bits == if Padded(s, b - 1) then init + {b - 1} else init;
    }
  }

  // The number of set bits in the range, or in the whole string.
  lemma BitsInMeans(s: Bytes, range: Option<Span>)
    ensures BitsIn(s, range) ==
      if range.None? then |set i: nat | i < 8 * |s| && Padded(s, i)|
      else
        var r := range.value;
        if r.end < r.start < 0 then 0 else |set i: nat | i < 8 * |s| && Asked(s, i, r.start, r.end, r.isbit) && Padded(s, i)|
  {
    hide Padded, Count, Asked;
    if range.None? {
      CountIsSize(s, 0, 8 * |s|);
      assert (set i: nat | 0 <= i < 8 * |s| && Padded(s, i)) == set i: nat | i < 8 * |s| && Padded(s, i);
    } else {
      var r := range.value;
      var total := if r.isbit then 8 * |s| else |s|;
      var a, b := ClampStart(r.start, total), ClampEnd(r.end, total);
      var bits := set i: nat | i < 8 * |s| && Asked(s, i, r.start, r.end, r.isbit) && Padded(s, i);
      forall i: nat ensures Asked(s, i, r.start, r.end, r.isbit) <==> i < 8 * |s| && if r.isbit then a <= i < b + 1 else 8 * a <= i < 8 * b + 8 {
        AskedIs(s, i, r.start, r.end, r.isbit);
      }
      if a > b {
        assert bits == {};
      } else {
        var lo, hi := if r.isbit then a else 8 * a, if r.isbit then b + 1 else 8 * b + 8;
        CountIsSize(s, lo, hi);
        assert bits == set i: nat | lo <= i < hi && Padded(s, i);
      }
    }
  }
}
