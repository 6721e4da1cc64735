// The operations of BITFIELD on a string (bitops.c).
module BitFieldCommand {
  import opened Basics
  import opened Bits
  import opened BitField

  // i1 to i64 and u1 to u63.
  predicate IsType(signed: bool, bits: nat) { 0 < bits <= 64 && (signed || bits < 64) }

  ghost predicate SameOutside(before: Bytes, after: Bytes, o: nat, n: nat) {
    && |before| == |after|
    && forall i :: 0 <= i < 8 * |after| && !(o <= i < o + n) ==> Padded(after, i) == Padded(before, i)
  }

  // ---------------------------------------------------------------------------------------------
  // What the operations do
  // ---------------------------------------------------------------------------------------------

  // The value that INCRBY stores for the exact sum x, if it stores one.
  function Incremented(signed: bool, bits: nat, x: int, ow: Overflow): Option<int>
    requires bits > 0
  {
    if InRange(signed, bits, x) then Some(x)
    else match ow
      case WRAP => Some(Wrapped(signed, bits, x))
      case SAT => Some(Clamped(signed, bits, x))
      case FAIL => None
  }

  // The value that SET stores. Saturation goes to the maximum for unsigned types, and for signed types
  // when the value is above, or too far below to tell.
  function Assigned(signed: bool, bits: nat, x: int, ow: Overflow): Option<int>
    requires bits > 0
  {
    if InRange(signed, bits, x) then Some(x)
    else match ow
      case WRAP => Some(Wrapped(signed, bits, x))
      case SAT => Some(if signed && Near(bits, x) then Clamped(signed, bits, x) else Max(signed, bits))
      case FAIL => None
  }

  // The field is changed to the value, if there is one, and nothing else is.
  ghost predicate Stored(before: Bytes, after: Bytes, signed: bool, o: nat, bits: nat, v: Option<int>)
    requires bits > 0
  {
    match v
    case None => after == before
    case Some(x) => Read(signed, after, o, bits) == x && SameOutside(before, after, o, bits)
  }

  // ---------------------------------------------------------------------------------------------
  // INCRBY and SET
  // ---------------------------------------------------------------------------------------------

  // Writing a number of the type and reading it back.
  lemma WriteThenRead(before: Bytes, after: Bytes, signed: bool, o: nat, bits: nat, x: int)
    requires IsType(signed, bits) && InRange(signed, bits, x) && o + bits <= 8 * |after|
    requires Written(before, after, o, bits, AsUint64(x))
    ensures Read(signed, after, o, bits) == x && SameOutside(before, after, o, bits)
  {
    hide Pow2, Padded, Field;
    ReadWritten(before, after, o, bits, AsUint64(x));
    LowBits(x, bits);
    WrappedIs(signed, bits, x);
  }

  lemma TypeFits(signed: bool, bits: nat, x: int)
    requires IsType(signed, bits) && InRange(signed, bits, x)
    ensures IsInt64(x)
    ensures 0 < Pow2(bits - 1) <= TWO63 && (!signed ==> Pow2(bits) <= TWO63)
  {
    hide Pow2;
    PowersAre();
    PowGrows(bits - 1, 63);
    if !signed { PowGrows(bits, 63); }
  }

  lemma ClampedInRange(signed: bool, bits: nat, x: int)
    requires bits > 0
    ensures InRange(signed, bits, Clamped(signed, bits, x)) && InRange(signed, bits, Max(signed, bits))
  {
    hide Pow2;
    PowDouble(bits);
  }

  // setSignedBitfield and setUnsignedBitfield, for a number of the type.
  method SetBitfield(p: array<Byte>, signed: bool, offset: nat, bits: nat, x: int)
    requires IsType(signed, bits) && InRange(signed, bits, x) && offset + bits <= 8 * p.Length
    modifies p
    ensures Read(signed, p[..], offset, bits) == x && SameOutside(old(p[..]), p[..], offset, bits)
  {
    hide Pow2, Read, SameOutside, Written;
    SetUnsignedBitfield(p, offset, bits, AsUint64(x));
    WriteThenRead(old(p[..]), p[..], signed, offset, bits, x);
  }

  method GetBitfield(p: array<Byte>, signed: bool, offset: nat, bits: nat) returns (x: int)
    requires IsType(signed, bits) && offset + bits <= 8 * p.Length
    ensures x == Read(signed, p[..], offset, bits)
  {
    if signed {
      x := GetSignedBitfield(p, offset, bits);
    } else {
      x := GetUnsignedBitfield(p, offset, bits);
    }
  }

  // BITFIELD INCRBY
  method IncrBy(p: array<Byte>, signed: bool, offset: nat, bits: nat, incr: int, ow: Overflow) returns (reply: Option<int>)
    requires IsType(signed, bits) && IsInt64(incr) && offset + bits <= 8 * p.Length
    modifies p
    ensures reply == Incremented(signed, bits, Read(signed, old(p[..]), offset, bits) + incr, ow)
    ensures Stored(old(p[..]), p[..], signed, offset, bits, reply)
  {
    hide Pow2, Read, SameOutside, Clamped, Wrapped, InRange;
    var oldval := GetBitfield(p, signed, offset, bits);
    ReadInRange(signed, p[..], offset, bits);
    RangeIs(signed, bits, oldval);
    TypeFits(signed, bits, oldval);
    var overflow, wrapped, newval;
    if signed {
      overflow, wrapped := CheckSignedBitfieldOverflow(oldval, incr, bits, ow);
      newval := if overflow != 0 then wrapped else oldval + incr;
    } else {
      newval := AsUint64(oldval + incr);
      overflow, wrapped := CheckUnsignedBitfieldOverflow(oldval, incr, bits, ow);
      if overflow != 0 {
        newval := wrapped;
      } else {
        TypeFits(signed, bits, oldval + incr);
        RangeIs(signed, bits, oldval + incr);
        SmallMod(oldval + incr, TWO64);
      }
    }
    WrappedIs(signed, bits, oldval + incr);
    ClampedInRange(signed, bits, oldval + incr);
    if overflow != 0 && ow == FAIL {
      return None;
    }
    reply := Some(newval);
    SetBitfield(p, signed, offset, bits, newval);
  }

  lemma RangeIs(signed: bool, bits: nat, x: int)
    requires bits > 0
    ensures InRange(signed, bits, x) <==> if signed then 0 - Pow2(bits - 1) <= x < Pow2(bits - 1) else 0 <= x < Pow2(bits)
  {}

  // BITFIELD SET; it replies with the old value.
  method Set(p: array<Byte>, signed: bool, offset: nat, bits: nat, value: int, ow: Overflow) returns (reply: Option<int>)
    requires IsType(signed, bits) && IsInt64(value) && offset + bits <= 8 * p.Length
    modifies p
    ensures var v := Assigned(signed, bits, value, ow);
      && reply == (if v.Some? then Some(Read(signed, old(p[..]), offset, bits)) else None)
      && Stored(old(p[..]), p[..], signed, offset, bits, v)
  {
    hide Pow2, Read, SameOutside, Clamped, Wrapped, InRange;
    var oldval := GetBitfield(p, signed, offset, bits);
    var overflow, wrapped, newval;
    if signed {
      newval := value;
      overflow, wrapped := CheckSignedBitfieldOverflow(value, 0, bits, ow);
    } else {
      newval := AsUint64(value);
      UnsignedValue(bits, value);
      overflow, wrapped := CheckUnsignedBitfieldOverflow(newval, 0, bits, ow);
    }
    if overflow != 0 {
      newval := wrapped;
    }
    WrappedIs(signed, bits, value);
    ClampedInRange(signed, bits, value);
    if overflow != 0 && ow == FAIL {
      return None;
    }
    reply := Some(oldval);
    SetBitfield(p, signed, offset, bits, newval);
  }

  // A value taken as an unsigned one: negative ones are far above every range.
  lemma UnsignedValue(bits: nat, value: int)
    requires 0 < bits < 64 && IsInt64(value)
    ensures var u := AsUint64(value);
      && (InRange(false, bits, u) <==> InRange(false, bits, value))
      && (InRange(false, bits, value) ==> u == value)
      && Wrapped(false, bits, u) == Wrapped(false, bits, value)
      && (!InRange(false, bits, value) ==> Clamped(false, bits, u) == Max(false, bits))
  {
    hide Pow2;
    PowersAre();
    PowGrows(bits, 63);
    SmallMod(value, TWO64);
    LowBits(value, bits);
  }

  // ---------------------------------------------------------------------------------------------
  // GET
  // ---------------------------------------------------------------------------------------------

  // Nine bytes of the string from position byte, continued with zeros.
  ghost predicate Window(s: Bytes, byte: nat, buf: Bytes) {
    |buf| == 9 && forall i :: 0 <= i < 9 ==> buf[i] == if byte + i < |s| then s[byte + i] else 0
  }

  lemma WindowBits(s: Bytes, buf: Bytes, o: nat, i: nat)
    requires Window(s, o / 8, buf) && i < 64
    ensures Alike(s, o, buf, o % 8, i)
  {
    hide BitOf;
    var k := o % 8 + i;
    assert (o + i) / 8 == o / 8 + k / 8 && (o + i) % 8 == k % 8;
    ZeroBits(k % 8);
  }

  // BITFIELD GET: what is read through a buffer of nine bytes is what the string holds.
  method Get(s: Bytes, signed: bool, offset: nat, bits: nat) returns (x: int)
    requires IsType(signed, bits)
    ensures x == Read(signed, s, offset, bits)
  {
    hide Pow2, Field, Alike;
    var buf := new Byte[9](_ => 0);
    var byte := offset / 8;
    var i := 0;
    while i < 9 && i + byte < |s|
      invariant 0 <= i <= 9
      invariant forall k :: 0 <= k < i ==> byte + k < |s| && buf[k] == s[byte + k]
      invariant forall k :: i <= k < 9 ==> buf[k] == 0
    {
      buf[i] := s[i + byte];
      i := i + 1;
    }
    x := GetBitfield(buf, signed, offset - byte * 8, bits);
    forall k | 0 <= k < bits ensures Alike(s, offset, buf[..], offset % 8, k) {
      WindowBits(s, buf[..], offset, k);
    }
    FieldFrame(s, offset, buf[..], offset % 8, bits);
  }

  // ---------------------------------------------------------------------------------------------
  // The command
  // ---------------------------------------------------------------------------------------------

  datatype Code = GET | SET(value: int) | INCRBY(incr: int)

  datatype Op = Op(code: Code, signed: bool, offset: nat, bits: nat, ow: Overflow)

  predicate IsOp(op: Op) {
    IsType(op.signed, op.bits) && (op.code.SET? ==> IsInt64(op.code.value)) && (op.code.INCRBY? ==> IsInt64(op.code.incr))
  }

  // What one operation does to the string, and its reply.
  ghost predicate Does(before: Bytes, op: Op, after: Bytes, reply: Option<int>)
    requires IsOp(op)
  {
    var v := Read(op.signed, before, op.offset, op.bits);
    match op.code
    case GET => after == before && reply == Some(v)
    case SET(x) =>
      var w := Assigned(op.signed, op.bits, x, op.ow);
      Stored(before, after, op.signed, op.offset, op.bits, w) && reply == if w.Some? then Some(v) else None
    case INCRBY(d) =>
      var w := Incremented(op.signed, op.bits, v + d, op.ow);
      Stored(before, after, op.signed, op.offset, op.bits, w) && reply == w
  }

  // The string continued with zeros, so that it has the bit at the given position.
  method Grow(s: Bytes, maxbit: nat) returns (p: array<Byte>)
    ensures fresh(p) && p.Length == if |s| > maxbit / 8 then |s| else maxbit / 8 + 1
    ensures s <= p[..] && forall i :: |s| <= i < p.Length ==> p[i] == 0
  {
    var n := if |s| > maxbit / 8 then |s| else maxbit / 8 + 1;
    p := new Byte[n](i => if 0 <= i < |s| then s[i] else 0);
    assert p[..|s|] == s;
  }

  // Whether SET with saturation tells on which side of the range a value is.
  predicate TellsSide(signed: bool, bits: nat, x: int)
    requires bits > 0
  {
    if signed then Near(bits, x) else x >= 0
  }

  // SET with saturation of a value that is out of range leaves the nearest end of the range in the field, if
  // and only if the distance to the maximum fits in 64 bits, for a signed type, and the value is not
  // negative, for an unsigned one.
  lemma SetSaturates(before: Bytes, op: Op, after: Bytes, reply: Option<int>)
    requires IsOp(op) && op.code.SET? && op.ow == SAT && !InRange(op.signed, op.bits, op.code.value)
    requires Does(before, op, after, reply)
    ensures Read(op.signed, after, op.offset, op.bits) == Clamped(op.signed, op.bits, op.code.value) <==>
      TellsSide(op.signed, op.bits, op.code.value)
    ensures reply == Some(Read(op.signed, before, op.offset, op.bits)) && SameOutside(before, after, op.offset, op.bits)
  {
    hide Pow2, Read, SameOutside;
    PowGrows(0, op.bits - 1);
    PowGrows(op.bits - 1, op.bits);
    PowersAre();
    PowDouble(op.bits);
  }

  // The smallest number in an i8 leaves 127, and -1 in a u8 leaves 255.
  lemma SetStrays(before: Bytes, o: nat, after: Bytes, reply: Option<int>)
    ensures Does(before, Op(SET(-TWO63), true, o, 8, SAT), after, reply) ==> Read(true, after, o, 8) == 127
    ensures Does(before, Op(SET(-1), false, o, 8, SAT), after, reply) ==> Read(false, after, o, 8) == 255
    ensures Clamped(true, 8, -TWO63) == -128 && Clamped(false, 8, -1) == 0
  {
    hide Read, SameOutside;
    assert Pow2(7) == 128 && Pow2(8) == 256;
  }

  method Perform(p: array<Byte>, op: Op) returns (reply: Option<int>)
    requires IsOp(op) && (!op.code.GET? ==> op.offset + op.bits <= 8 * p.Length)
    modifies p
    ensures Does(old(p[..]), op, p[..], reply)
  {
    hide Read, Stored, Incremented, Assigned, IsType;
    match op.code
    case GET =>
      var x := Get(p[..], op.signed, op.offset, op.bits);
      reply := Some(x);
    case SET(x) => reply := Set(p, op.signed, op.offset, op.bits, x, op.ow);
    case INCRBY(d) => reply := IncrBy(p, op.signed, op.offset, op.bits, d, op.ow);
  }

  // One of the operations writes up to this bit.
  ghost predicate WritesUpTo(ops: seq<Op>, bit: nat) {
    exists k :: 0 <= k < |ops| && !ops[k].code.GET? && ops[k].offset + ops[k].bits - 1 == bit
  }

  // The highest bit that an operation writes.
  method HighestWrite(ops: seq<Op>) returns (readonly: bool, highest: nat)
    requires forall k :: 0 <= k < |ops| ==> IsOp(ops[k])
    ensures readonly <==> forall k :: 0 <= k < |ops| ==> ops[k].code.GET?
    ensures forall k :: 0 <= k < |ops| && !ops[k].code.GET? ==> ops[k].offset + ops[k].bits - 1 <= highest
    ensures !readonly ==> WritesUpTo(ops, highest)
  {
    readonly, highest := true, 0;
    var j := 0;
    while j < |ops|
      invariant 0 <= j <= |ops|
      invariant readonly <==> forall k :: 0 <= k < j ==> ops[k].code.GET?
      invariant forall k :: 0 <= k < j && !ops[k].code.GET? ==> ops[k].offset + ops[k].bits - 1 <= highest
      invariant if readonly then highest == 0 else WritesUpTo(ops, highest)
    {
      if !ops[j].code.GET? {
        if highest < ops[j].offset + ops[j].bits - 1 {
          highest := ops[j].offset + ops[j].bits - 1;
        }
        assert readonly ==> highest == ops[j].offset + ops[j].bits - 1;
        readonly := false;
      }
      j := j + 1;
    }
  }

  // bitfieldGeneric: the string grows to the highest bit that is written, then the operations are
  // performed one after the other. The strings in between are states.
  method Bitfield(s: Bytes, ops: seq<Op>) returns (result: Bytes, replies: seq<Option<int>>, ghost states: seq<Bytes>)
    requires forall k :: 0 <= k < |ops| ==> IsOp(ops[k])
    ensures |states| == |ops| + 1 && |replies| == |ops| && states[|ops|] == result
    ensures s <= states[0] && forall i :: |s| <= i < |states[0]| ==> states[0][i] == 0
    ensures (forall k :: 0 <= k < |ops| ==> ops[k].code.GET?) ==> states[0] == s
    ensures |states[0]| == |s| || exists bit: nat :: WritesUpTo(ops, bit) && |states[0]| == bit / 8 + 1
    ensures forall k :: 0 <= k < |ops| ==> Does(states[k], ops[k], states[k + 1], replies[k])
  {
    hide Does, IsOp, WritesUpTo;
    var readonly, highest := HighestWrite(ops);
    var p: array<Byte>;
    if readonly {
      p := new Byte[|s|](i requires 0 <= i < |s| => s[i]);
      assert p[..] == s;
    } else {
      p := Grow(s, highest);
    }
    replies := [];
    states := [p[..]];
    var j := 0;
    while j < |ops|
      invariant 0 <= j <= |ops| && |replies| == j && |states| == j + 1 && states[j] == p[..]
      invariant s <= states[0] && forall i :: |s| <= i < |states[0]| ==> states[0][i] == 0
      invariant readonly ==> states[0] == s
      invariant |states[0]| == |s| || (!readonly && |states[0]| == highest / 8 + 1)
      invariant forall k :: 0 <= k < j ==> Does(states[k], ops[k], states[k + 1], replies[k])
    {
      var reply := Perform(p, ops[j]);
      replies := replies + [reply];
      states := states + [p[..]];
      j := j + 1;
    }
    result := p[..];
  }
}
