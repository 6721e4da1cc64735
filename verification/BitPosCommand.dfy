// The command BITPOS on a string (bitops.c).
module BitPosCommand {
  import opened Basics
  import opened Bits
  import opened BitPos

  // Negative positions count from the end; positions before the string are its start.
  function ClampStart(x: int, total: nat): int {
    var y := if x < 0 then total + x else x;
    if y < 0 then 0 else y
  }

  // Positions past the string are its last one.
  function ClampEnd(x: int, total: nat): int {
    var y := ClampStart(x, total);
    if y >= total then total - 1 else y
  }

  // The reply to BITPOS: the least position in the range, given in bytes or in bits. Without an end, the
  // string is continued with zeros.
  function Reply(s: Bytes, bit: bool, start: int, end: Option<int>, isbit: bool): int {
    var total := if isbit then 8 * |s| else |s|;
    var a := ClampStart(start, total);
    var b := if end.Some? then ClampEnd(end.value, total) else total - 1;
    if a > b then -1
    else
      var lo, hi := if isbit then a else 8 * a, if isbit then b + 1 else 8 * b + 8;
      Outcome(First(s, bit, lo, hi), hi, bit, end.Some?)
  }

  function Outcome(r: nat, hi: nat, bit: bool, endGiven: bool): int {
    if r < hi then r else if bit || endGiven then -1 else hi
  }

  // ---------------------------------------------------------------------------------------------
  // Bytes at the edges of a range
  // ---------------------------------------------------------------------------------------------

  // The bits of t from a to b are those of byte c, and the others are not as wanted.
  ghost predicate Edge(s: Bytes, c: nat, a: nat, b: nat, t: Byte, bit: bool) {
    c < |s| && a <= b < 8 && forall i :: 0 <= i < 8 ==> BitOf(t, i) == if a <= i <= b then BitOf(s[c], i) else !bit
  }

  lemma EdgeBit(s: Bytes, c: nat, a: nat, b: nat, t: Byte, bit: bool, i: nat)
    requires Edge(s, c, a, b, t, bit) && i < 8
    ensures Padded([t], i) == if a <= i <= b then Padded(s, 8 * c + i) else !bit
  {
    hide BitOf;
    assert (8 * c + i) / 8 == c && (8 * c + i) % 8 == i;
  }

  lemma FirstOfEdge(s: Bytes, c: nat, a: nat, b: nat, t: Byte, bit: bool)
    requires Edge(s, c, a, b, t, bit)
    ensures var r := First([t], bit, 0, 8);
      && (r < 8 ==> a <= r <= b)
      && First(s, bit, 8 * c + a, 8 * c + b + 1) == if r == 8 then 8 * c + b + 1 else 8 * c + r
  {
    hide First, BitOf, Padded;
    var r := First([t], bit, 0, 8);
    FirstHas([t], bit, 0, 8);
    if r < 8 { EdgeBit(s, c, a, b, t, bit, r); }
    var q := if r == 8 then 8 * c + b + 1 else 8 * c + r;
    forall i | 8 * c + a <= i < q ensures Padded(s, i) != bit {
      EdgeBit(s, c, a, b, t, bit, i - 8 * c);
      assert Padded([t], i - 8 * c) != bit;
    }
    FirstIs(s, bit, 8 * c + a, 8 * c + b + 1, q);
  }

  lemma HighEdge(s: Bytes, c: nat, a: nat, bit: bool)
    requires c < |s| && a < 8
    ensures Edge(s, c, a, 7, Hide(s[c], HighMask(a), bit), bit)
  {
    hide BitOf, Hide, HighMask;
    var t := Hide(s[c], HighMask(a), bit);
    forall i | 0 <= i < 8 ensures BitOf(t, i) == if a <= i then BitOf(s[c], i) else !bit {
      HideBits(s[c], HighMask(a), bit, i);
      HighMaskBits(a, i);
    }
  }

  lemma LowEdge(s: Bytes, c: nat, b: nat, bit: bool)
    requires c < |s| && b < 8
    ensures Edge(s, c, 0, b, Hide(s[c], LowMask(b), bit), bit)
  {
    hide BitOf, Hide, LowMask;
    var t := Hide(s[c], LowMask(b), bit);
    forall i | 0 <= i < 8 ensures BitOf(t, i) == if i <= b then BitOf(s[c], i) else !bit {
      HideBits(s[c], LowMask(b), bit, i);
      LowMaskBits(b, i);
    }
  }

  lemma BothEdges(s: Bytes, c: nat, a: nat, b: nat, bit: bool)
    requires c < |s| && a <= b < 8
    ensures Edge(s, c, a, b, Hide(Hide(s[c], HighMask(a), bit), LowMask(b), bit), bit)
  {
    hide BitOf, Hide, LowMask, HighMask;
    HighEdge(s, c, a, bit);
    var u := Hide(s[c], HighMask(a), bit);
    var t := Hide(u, LowMask(b), bit);
    forall i | 0 <= i < 8 ensures BitOf(t, i) == if i <= b then BitOf(u, i) else !bit {
      HideBits(u, LowMask(b), bit, i);
      LowMaskBits(b, i);
    }
  }

  // ---------------------------------------------------------------------------------------------
  // The search
  // ---------------------------------------------------------------------------------------------

  // The masked first byte: a position in it, or one past the range if it has none.
  method SearchFirst(s: Bytes, address: nat, bit: bool, start: nat, a: nat, b: nat, mask: bool) returns (pos: int)
    requires start < |s| && a < 8 && b < 8 && (if mask then a <= b else b == 7)
    ensures -1 <= pos <= 8 && (pos == -1 ==> bit) && (bit ==> pos != 8)
    ensures var q := First(s, bit, 8 * start + a, 8 * start + b + 1);
      if pos == -1 || pos == 8 then q == 8 * start + b + 1 else q == 8 * start + pos < 8 * start + b + 1
  {
    hide First, Hide, HighMask, LowMask, Edge;
    var t := Hide(s[start], HighMask(a), bit);
    HighEdge(s, start, a, bit);
    if mask {
      t := Hide(t, LowMask(b), bit);
      BothEdges(s, start, a, b, bit);
    }
    FirstOfEdge(s, start, a, b, t, bit);
    pos := RedisBitpos([t], address, bit);
  }

  // The whole bytes, and then the masked last one.
  method SearchRest(s: Bytes, address: nat, bit: bool, start: nat, end: nat, b: nat, endGiven: bool) returns (reply: int)
    requires start <= end < |s| && b < 8 && (endGiven || b == 7)
    ensures var hi := 8 * end + b + 1; reply == Outcome(First(s, bit, 8 * start, hi), hi, bit, endGiven)
  {
    hide First, LowMask, Hide, Edge;
    ghost var hi := 8 * end + b + 1;
    var last := LowMask(b);
    LowMaskBits(b, 0);
    var from, bytes, pos := start, end - start + 1, 0;
    var curbytes := bytes - if last != 0 then 1 else 0;
    if curbytes > 0 {
      pos := RedisBitpos(s[from..from + curbytes], address + from, bit);
      FirstOfSlice(s, bit, from, from + curbytes);
      FirstSplit(s, bit, 8 * from, 8 * (from + curbytes), hi);
      if bytes == curbytes || (pos != -1 && pos != 8 * curbytes) {
        return Finish(pos, from, bytes, bit, endGiven);
      }
      from := from + curbytes;
      bytes := bytes - curbytes;
    }
    LowEdge(s, end, b, bit);
    FirstOfEdge(s, end, 0, b, Hide(s[end], last, bit), bit);
    pos := RedisBitpos([Hide(s[end], last, bit)], address, bit);
    reply := Finish(pos, from, bytes, bit, endGiven);
  }

  // The part of bitposCommand after the range is known: bytes start to end, without the first a bits of
  // the first byte and the bits after bit b of the last one.
  method Search(s: Bytes, address: nat, bit: bool, start: nat, end: nat, a: nat, b: nat, endGiven: bool) returns (reply: int)
    requires start <= end < |s| && a < 8 && b < 8 && (start == end ==> a <= b) && (endGiven || b == 7)
    ensures var hi := 8 * end + b + 1; reply == Outcome(First(s, bit, 8 * start + a, hi), hi, bit, endGiven)
  {
    hide First, HighMask, LowMask;
    ghost var lo, hi := 8 * start + a, 8 * end + b + 1;
    var first, last := HighMask(a), LowMask(b);
    HighMaskBits(a, 0);
    LowMaskBits(b, 0);
    var from, bytes := start, end - start + 1;
    if first != 0 {
      var one := last != 0 && bytes == 1;
      var pos := SearchFirst(s, address, bit, start, a, if one then b else 7, one);
      if bytes == 1 || (pos != -1 && pos != 8) {
        if bytes > 1 { FirstSplit(s, bit, lo, 8 * start + 8, hi); }
        return Finish(pos, from, bytes, bit, endGiven);
      }
      FirstSplit(s, bit, lo, 8 * start + 8, hi);
      from := from + 1;
      bytes := bytes - 1;
    }
    reply := SearchRest(s, address, bit, from, end, b, endGiven);
  }

  // The end of bitposCommand: one past the range means that there is none, if an end was given.
  function Finish(pos: int, from: nat, bytes: nat, bit: bool, endGiven: bool): int {
    if endGiven && !bit && pos == 8 * bytes then -1 else if pos != -1 then pos + 8 * from else pos
  }

  // bitposCommand
  method Bitpos(s: Bytes, address: nat, bit: bool, start: int, end: Option<int>, isbit: bool) returns (reply: int)
    requires isbit ==> end.Some?
    ensures reply == Reply(s, bit, start, end, isbit)
  {
    hide First;
    var total := if isbit then 8 * |s| else |s|;
    var x := ClampStart(start, total);
    var y := if end.Some? then ClampEnd(end.value, total) else total - 1;
    if x > y {
      return -1;
    }
    if isbit {
      reply := Search(s, address, bit, x / 8, y / 8, x % 8, y % 8, true);
    } else {
      reply := Search(s, address, bit, x, y, 0, 7, end.Some?);
    }
  }

  // A key that does not exist is an endless string of zeros.
  method BitposOfMissing(bit: bool) returns (reply: int)
    ensures reply < 0 ==> reply == -1 && forall i: nat :: Padded([], i) != bit
    ensures reply >= 0 ==> Padded([], reply) == bit && forall i: nat :: i < reply ==> Padded([], i) != bit
  {
    reply := if bit then -1 else 0;
  }

  // ---------------------------------------------------------------------------------------------
  // What the reply says
  // ---------------------------------------------------------------------------------------------

  // The last position is -1, the one before it -2, and so on.
  function FromEnd(x: int, total: nat): int { if x < 0 then total + x else x }

  // The positions from start to end. An end in front of the string is its first position.
  predicate InRange(p: int, total: nat, start: int, end: int) {
    0 <= p < total && FromEnd(start, total) <= p && (p <= FromEnd(end, total) || (p == 0 && FromEnd(end, total) < 0))
  }

  lemma ClampIsRange(p: nat, total: nat, start: int, end: int)
    requires p < total
    ensures ClampStart(start, total) <= p <= ClampEnd(end, total) <==> InRange(p, total, start, end)
  {}

  // Bit i of the string is in the range, which is given in bytes or in bits; without an end it goes to the last.
  predicate Asked(s: Bytes, i: nat, start: int, end: int, isbit: bool) {
    if isbit then InRange(i, 8 * |s|, start, end) else InRange(i / 8, |s|, start, end)
  }

  lemma AskedIs(s: Bytes, i: nat, start: int, end: int, isbit: bool)
    ensures var total := if isbit then 8 * |s| else |s|; var a, b := ClampStart(start, total), ClampEnd(end, total);
      Asked(s, i, start, end, isbit) <==> i < 8 * |s| && if isbit then a <= i < b + 1 else 8 * a <= i < 8 * b + 8
  {
    if i < 8 * |s| { ClampIsRange(if isbit then i else i / 8, if isbit then 8 * |s| else |s|, start, end); }
  }

  // The least bit in the range that is as wanted. If there is none it is -1, but for a zero without an end: then
  // it is the first one past the string, unless the range is empty.
  lemma ReplyMeans(s: Bytes, bit: bool, start: int, end: Option<int>, isbit: bool)
    requires isbit ==> end.Some?
    ensures var r, last := Reply(s, bit, start, end, isbit), if end.Some? then end.value else -1;
      if exists i: nat :: Asked(s, i, start, last, isbit) && Padded(s, i) == bit then
        && r >= 0 && Asked(s, r, start, last, isbit) && Padded(s, r) == bit
        && forall i: nat :: i < r && Asked(s, i, start, last, isbit) ==> Padded(s, i) != bit
      else r == if !bit && end.None? && s != [] && FromEnd(start, |s|) < |s| then 8 * |s| else -1
  {
    hide First, Padded, Asked;
    var total := if isbit then 8 * |s| else |s|;
    var last := if end.Some? then end.value else -1;
    var a, b := ClampStart(start, total), ClampEnd(last, total);
    forall i: nat ensures Asked(s, i, start, last, isbit) <==> i < 8 * |s| && if isbit then a <= i < b + 1 else 8 * a <= i < 8 * b + 8 {
      AskedIs(s, i, start, last, isbit);
    }
    if a <= b {
      var lo, hi := if isbit then a else 8 * a, if isbit then b + 1 else 8 * b + 8;
      FirstHas(s, bit, lo, hi);
    }
  }
}
