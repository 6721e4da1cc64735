// The command BITOP (bitops.c).
module BitOp {
  import opened Basics
  import opened Bits

  datatype Op = AND | OR | XOR | NOT

  function Combine(op: Op, a: Byte, b: Byte): Byte {
    match op
    case AND => a & b
    case OR => a | b
    case XOR => a ^ b
    case NOT => a
  }

  // A string continued with zeros.
  function At(s: Bytes, j: nat): Byte { if j < |s| then s[j] else 0 }

  // The operation on byte j of the first n strings.
  function Fold(op: Op, src: seq<Bytes>, j: nat, n: nat): Byte
    requires 0 < n <= |src|
  {
    if n == 1 then if op == NOT then !At(src[0], j) else At(src[0], j)
    else Combine(op, Fold(op, src, j, n - 1), At(src[n - 1], j))
  }

  function MaxLen(src: seq<Bytes>): nat {
    if src == [] then 0
    else
      var m := MaxLen(src[..|src| - 1]);
      if |src[|src| - 1]| > m then |src[|src| - 1]| else m
  }

  // ---------------------------------------------------------------------------------------------
  // The strings and their lengths
  // ---------------------------------------------------------------------------------------------

  // A key that does not exist is an empty string.
  function StringOf(key: Option<Bytes>): Bytes { if key.Some? then key.value else [] }

  method Lookup(keys: seq<Option<Bytes>>) returns (src: seq<Bytes>, maxlen: nat, minlen: nat)
    ensures |src| == |keys| && forall i :: 0 <= i < |keys| ==> src[i] == StringOf(keys[i])
    ensures maxlen == MaxLen(src) && forall i :: 0 <= i < |src| ==> minlen <= |src[i]| <= maxlen
  {
    src, maxlen, minlen := [], 0, 0;
    var j := 0;
    while j < |keys|
      invariant 0 <= j <= |keys| && |src| == j && forall i :: 0 <= i < j ==> src[i] == StringOf(keys[i])
      invariant maxlen == MaxLen(src) && forall i :: 0 <= i < j ==> minlen <= |src[i]| <= maxlen
    {
      var s := StringOf(keys[j]);
      assert (src + [s])[..j] == src;
      src := src + [s];
      if keys[j].None? {
        minlen := 0;
      } else {
        if |s| > maxlen {
          maxlen := |s|;
        }
        if j == 0 || |s| < minlen {
          minlen := |s|;
        }
      }
      j := j + 1;
    }
  }

  // ---------------------------------------------------------------------------------------------
  // The fast path: four words of eight bytes at a time
  // ---------------------------------------------------------------------------------------------

  // A word of the result combined with a word of a source.
  method CombineWord(op: Op, res: array<Byte>, at: nat, s: Bytes)
    requires at + 8 <= res.Length && at + 8 <= |s|
    modifies res
    ensures forall b :: 0 <= b < res.Length ==> res[b] == if at <= b < at + 8 then Combine(op, old(res[b]), s[b]) else old(res[b])
  {
    hide Combine;
    forall b | at <= b < at + 8 {
      res[b] := Combine(op, res[b], s[b]);
    }
  }

  method InvertWord(res: array<Byte>, at: nat)
    requires at + 8 <= res.Length
    modifies res
    ensures forall b :: 0 <= b < res.Length ==> res[b] == if at <= b < at + 8 then !old(res[b]) else old(res[b])
  {
    forall b | at <= b < at + 8 {
      res[b] := !res[b];
    }
  }

  // Four words of the result combined with those of a source.
  method CombineFour(op: Op, res: array<Byte>, at: nat, s: Bytes)
    requires at + 32 <= res.Length && at + 32 <= |s|
    modifies res
    ensures forall b :: 0 <= b < res.Length ==> res[b] == if at <= b < at + 32 then Combine(op, old(res[b]), s[b]) else old(res[b])
  {
    hide Combine;
    CombineWord(op, res, at, s);
    CombineWord(op, res, at + 8, s);
    CombineWord(op, res, at + 16, s);
    CombineWord(op, res, at + 24, s);
  }

  method InvertFour(res: array<Byte>, at: nat)
    requires at + 32 <= res.Length
    modifies res
    ensures forall b :: 0 <= b < res.Length ==> res[b] == if at <= b < at + 32 then !old(res[b]) else old(res[b])
  {
    InvertWord(res, at);
    InvertWord(res, at + 8);
    InvertWord(res, at + 16);
    InvertWord(res, at + 24);
  }

  // One block of all sources. It starts with the bytes of the first one.
  method Block(op: Op, src: seq<Bytes>, res: array<Byte>, j: nat)
    requires |src| > 0 && (op == NOT ==> |src| == 1) && j + 32 <= res.Length
    requires forall i :: 0 <= i < |src| ==> j + 32 <= |src[i]|
    requires forall b :: j <= b < j + 32 ==> res[b] == src[0][b]
    modifies res
    ensures forall b :: 0 <= b < res.Length ==> res[b] == if j <= b < j + 32 then Fold(op, src, b, |src|) else old(res[b])
  {
    hide Combine;
    if op == NOT {
      InvertFour(res, j);
    } else {
      var i := 1;
      while i < |src|
        invariant 1 <= i <= |src|
        invariant forall b :: 0 <= b < res.Length ==> res[b] == if j <= b < j + 32 then Fold(op, src, b, i) else old(res[b])
      {
        CombineFour(op, res, j, src[i]);
        i := i + 1;
      }
    }
  }

  // The bytes for which all sources have data, in blocks.
  method FastPath(op: Op, src: seq<Bytes>, res: array<Byte>, minlen: nat) returns (j: nat)
    requires |src| > 0 && (op == NOT ==> |src| == 1) && minlen <= res.Length
    requires forall i :: 0 <= i < |src| ==> minlen <= |src[i]|
    modifies res
    ensures j <= minlen && forall b :: 0 <= b < j ==> res[b] == Fold(op, src, b, |src|)
  {
    hide Fold;
    // memcpy
    forall b | 0 <= b < minlen {
      res[b] := src[0][b];
    }
    j := 0;
    while minlen - j >= 32
      invariant j <= minlen
      invariant forall b :: 0 <= b < j ==> res[b] == Fold(op, src, b, |src|)
      invariant forall b :: j <= b < minlen ==> res[b] == src[0][b]
    {
      Block(op, src, res, j);
      j := j + 32;
    }
  }

  // ---------------------------------------------------------------------------------------------
  // The rest, byte by byte
  // ---------------------------------------------------------------------------------------------

  lemma Stuck(op: Op, b: Byte)
    ensures op == AND ==> Combine(op, 0, b) == 0
    ensures op == OR ==> Combine(op, 0xff, b) == 0xff
  {}

  // A byte that no further source can change.
  lemma {:induction false} FoldStuck(op: Op, src: seq<Bytes>, j: nat, i: nat, n: nat)
    requires 0 < i <= n <= |src|
    requires (op == AND && Fold(op, src, j, i) == 0) || (op == OR && Fold(op, src, j, i) == 0xff)
    ensures Fold(op, src, j, n) == Fold(op, src, j, i)
  {
    hide Combine;
    if i < n {
      FoldStuck(op, src, j, i, n - 1);
      Stuck(op, At(src[n - 1], j));
    }
  }

  method ByteOf(op: Op, src: seq<Bytes>, j: nat) returns (output: Byte)
    requires |src| > 0 && (op == NOT ==> |src| == 1)
    ensures output == Fold(op, src, j, |src|)
  {
    hide Combine;
    output := if |src[0]| <= j then 0 else src[0][j];
    if op == NOT {
      output := !output;
    }
    var i := 1;
    while i < |src|
      invariant 1 <= i <= |src| && output == Fold(op, src, j, i)
    {
      var byte := if |src[i]| <= j then 0 else src[i][j];
      output := Combine(op, output, byte);
      i := i + 1;
      if (op == AND && output == 0) || (op == OR && output == 0xff) {
        FoldStuck(op, src, j, i, |src|);
        return;
      }
    }
  }

  // bitopCommand: the result has the length of the longest source, and byte by byte it is the operation
  // on the sources continued with zeros. NOT takes one source only.
  method Bitop(op: Op, keys: seq<Option<Bytes>>) returns (r: Option<Bytes>)
    requires |keys| > 0
    ensures r.None? <==> op == NOT && |keys| != 1
    ensures r.Some? ==>
      var src := seq(|keys|, i requires 0 <= i < |keys| => StringOf(keys[i]));
      |r.value| == MaxLen(src) && forall b :: 0 <= b < |r.value| ==> r.value[b] == Fold(op, src, b, |src|)
  {
    hide Fold, MaxLen;
    if op == NOT && |keys| != 1 {
      return None;
    }
    var src, maxlen, minlen := Lookup(keys);
    assert src == seq(|keys|, i requires 0 <= i < |keys| => StringOf(keys[i]));
    assert minlen <= |src[0]| <= maxlen;
    var res := new Byte[maxlen](_ => 0);
    if maxlen > 0 {
      var j := 0;
      if minlen >= 32 && |src| <= 16 {
        j := FastPath(op, src, res, minlen);
      }
      while j < maxlen
        invariant 0 <= j <= maxlen && forall b :: 0 <= b < j ==> res[b] == Fold(op, src, b, |src|)
      {
        res[j] := ByteOf(op, src, j);
        j := j + 1;
      }
    }
    r := Some(res[..]);
  }

  // ---------------------------------------------------------------------------------------------
  // Bit by bit
  // ---------------------------------------------------------------------------------------------

  // In how many of the first n strings a bit is set.
  function On(src: seq<Bytes>, p: nat, n: nat): nat
    requires n <= |src|
  {
    if n == 0 then 0 else On(src, p, n - 1) + if Padded(src[n - 1], p) then 1 else 0
  }

  lemma AndMask(a: Byte, b: Byte, m: Byte)
    requires (a & m == 0 || a & m == m) && (b & m == 0 || b & m == m)
    ensures (a & b) & m != 0 <==> a & m != 0 && b & m != 0
  {}

  lemma OrMask(a: Byte, b: Byte, m: Byte)
    ensures (a | b) & m != 0 <==> a & m != 0 || b & m != 0
  {}

  lemma XorMask(a: Byte, b: Byte, m: Byte)
    requires (a & m == 0 || a & m == m) && (b & m == 0 || b & m == m)
    ensures (a ^ b) & m != 0 <==> (a & m != 0) != (b & m != 0)
  {}

  lemma NotMask(a: Byte, m: Byte)
    requires m != 0 && (a & m == 0 || a & m == m)
    ensures !a & m != 0 <==> a & m == 0
  {}

  lemma AndBits(a: Byte, b: Byte, k: nat)
    requires k < 8
    ensures BitOf(a & b, k) <==> BitOf(a, k) && BitOf(b, k)
  {
    hide Mask;
    SingleBit(k, a);
    SingleBit(k, b);
    AndMask(a, b, Mask(k));
  }

  lemma OrBits(a: Byte, b: Byte, k: nat)
    requires k < 8
    ensures BitOf(a | b, k) <==> BitOf(a, k) || BitOf(b, k)
  {
    hide Mask;
    SingleBit(k, a);
    SingleBit(k, b);
    OrMask(a, b, Mask(k));
  }

  lemma XorBits(a: Byte, b: Byte, k: nat)
    requires k < 8
    ensures BitOf(a ^ b, k) <==> BitOf(a, k) != BitOf(b, k)
  {
    hide Mask;
    SingleBit(k, a);
    SingleBit(k, b);
    XorMask(a, b, Mask(k));
  }

  lemma NotBits(a: Byte, k: nat)
    requires k < 8
    ensures BitOf(!a, k) <==> !BitOf(a, k)
  {
    hide Mask;
    SingleBit(k, a);
    MasksApart(k, k);
    NotMask(a, Mask(k));
  }

  lemma CombineBits(op: Op, a: Byte, b: Byte, k: nat)
    requires k < 8
    ensures match op
      case AND => BitOf(Combine(op, a, b), k) <==> BitOf(a, k) && BitOf(b, k)
      case OR => BitOf(Combine(op, a, b), k) <==> BitOf(a, k) || BitOf(b, k)
      case XOR => BitOf(Combine(op, a, b), k) <==> BitOf(a, k) != BitOf(b, k)
      case NOT => BitOf(!a, k) <==> !BitOf(a, k)
  {
    hide BitOf;
    match op
    case AND => AndBits(a, b, k);
    case OR => OrBits(a, b, k);
    case XOR => XorBits(a, b, k);
    case NOT => NotBits(a, k);
  }

  lemma AtBits(s: Bytes, p: nat)
    ensures BitOf(At(s, p / 8), p % 8) == Padded(s, p)
  {
    if p >= 8 * |s| { ZeroBits(p % 8); }
  }

  // A bit of the fold over the first n strings.
  ghost predicate BitMeans(op: Op, src: seq<Bytes>, p: nat, n: nat, bit: bool)
    requires 0 < n <= |src|
  {
    match op
    case AND => bit <==> On(src, p, n) == n
    case OR => bit <==> On(src, p, n) > 0
    case XOR => bit <==> On(src, p, n) % 2 == 1
    case NOT => n == 1 ==> (bit <==> On(src, p, n) == 0)
  }

  lemma {:induction false} OnBounded(src: seq<Bytes>, p: nat, n: nat)
    requires n <= |src|
    ensures On(src, p, n) <= n
    ensures On(src, p, n) == n <==> forall i :: 0 <= i < n ==> Padded(src[i], p)
    ensures On(src, p, n) > 0 <==> exists i :: 0 <= i < n && Padded(src[i], p)
  {
    hide Padded;
    if n > 0 { OnBounded(src, p, n - 1); }
  }

  lemma {:induction false} FoldBits(op: Op, src: seq<Bytes>, p: nat, n: nat)
    requires 0 < n <= |src|
    ensures BitMeans(op, src, p, n, BitOf(Fold(op, src, p / 8, n), p % 8))
  {
    hide BitOf, Padded, At, Combine;
    AtBits(src[n - 1], p);
    var last := At(src[n - 1], p / 8);
    if n == 1 {
      CombineBits(op, last, last, p % 8);
      assert On(src, p, 1) == On(src, p, 0) + if Padded(src[0], p) then 1 else 0;
    } else {
      FoldBits(op, src, p, n - 1);
      OnBounded(src, p, n - 1);
      CombineBits(op, Fold(op, src, p / 8, n - 1), last, p % 8);
    }
  }

  // The longest string.
  lemma {:induction false} MaxLenIs(src: seq<Bytes>)
    ensures forall i :: 0 <= i < |src| ==> |src[i]| <= MaxLen(src)
    ensures src != [] ==> exists i :: 0 <= i < |src| && |src[i]| == MaxLen(src)
  {
    if src != [] {
      var init := src[..|src| - 1];
      MaxLenIs(init);
      forall i | 0 <= i < |init| ensures src[i] == init[i] {}
      if |src[|src| - 1]| <= MaxLen(init) {
        if init == [] {
          assert |src[0]| == MaxLen(src);
        } else {
          var i :| 0 <= i < |init| && |init[i]| == MaxLen(init);
          assert |src[i]| == MaxLen(src);
        }
      }
    }
  }

  // Every bit of the result of BITOP: it is set in all strings, in some, in an odd number of them, or in the one it
  // is not.
  lemma BitopMeans(op: Op, src: seq<Bytes>, r: Bytes, p: nat)
    requires src != [] && (op == NOT ==> |src| == 1)
    requires |r| == MaxLen(src) && forall b :: 0 <= b < |r| ==> r[b] == Fold(op, src, b, |src|)
    requires p < 8 * |r|
    ensures match op
      case AND => Padded(r, p) <==> forall i :: 0 <= i < |src| ==> Padded(src[i], p)
      case OR => Padded(r, p) <==> exists i :: 0 <= i < |src| && Padded(src[i], p)
      case XOR => Padded(r, p) <==> On(src, p, |src|) % 2 == 1
      case NOT => Padded(r, p) <==> !Padded(src[0], p)
  {
    hide BitOf, Fold, MaxLen, Combine, At;
    FoldBits(op, src, p, |src|);
    OnBounded(src, p, |src|);
    assert r[p / 8] == Fold(op, src, p / 8, |src|);
    assert Padded(r, p) == BitOf(r[p / 8], p % 8);
  }
}
