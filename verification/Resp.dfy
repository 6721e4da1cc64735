// The framing of commands in an append only file, and how it is read back (aof.c).
module Resp {

  newtype Octet = x: int | 0 <= x < 256

  type Bytes = seq<Octet>

  type Argv = seq<Bytes>

  const CR: Octet := 13
  const LF: Octet := 10
  const STAR: Octet := 42
  const DOLLAR: Octet := 36
  const HASH: Octet := 35

  // ---------------------------------------------------------------------------------------------
  // Numbers
  // ---------------------------------------------------------------------------------------------

  const LONG_MAX: nat := 0x7fff_ffff_ffff_ffff
  const INT_MAX: nat := 0x7fff_ffff

  predicate IsDigit(b: Octet) { 48 <= b <= 57 }

  // ll2string, for numbers that are not negative.
  function Decimal(n: nat): Bytes {
    if n < 10 then [(48 + n) as Octet] else Decimal(n / 10) + [(48 + n % 10) as Octet]
  }

  // The digits at the start of a text.
  function Digits(s: Bytes): Bytes {
    if s != [] && IsDigit(s[0]) then [s[0]] + Digits(s[1..]) else []
  }

  function Value(s: Bytes): nat
    requires forall i :: 0 <= i < |s| ==> IsDigit(s[i])
  {
    if s == [] then 0
    else
      assert IsDigit(s[|s| - 1]);
      10 * Value(s[..|s| - 1]) + (s[|s| - 1] as int - 48)
  }

  lemma {:induction false} DigitsAreDigits(s: Bytes)
    ensures forall i :: 0 <= i < |Digits(s)| ==> IsDigit(Digits(s)[i])
  {
    if s != [] && IsDigit(s[0]) {
      DigitsAreDigits(s[1..]);
    }
  }

  predicate IsSpace(b: Octet) { b == 32 || 9 <= b <= 13 }

  function SkipSpace(s: Bytes): Bytes {
    if s != [] && IsSpace(s[0]) then SkipSpace(s[1..]) else s
  }

  // strtol in base ten: white space, a sign, digits; the result stays in the range of a long.
  function StrTol(s: Bytes): int {
    var t := SkipSpace(s);
    var neg := t != [] && t[0] == 45;
    var d := Digits(if t != [] && (t[0] == 45 || t[0] == 43) then t[1..] else t);
    DigitsAreDigits(if t != [] && (t[0] == 45 || t[0] == 43) then t[1..] else t);
    var v: int := Value(d);
    if neg then if v > LONG_MAX + 1 then -1 - LONG_MAX else -v
    else if v > LONG_MAX then LONG_MAX else v
  }

  // atoi: the same, cut to the width of an int.
  function Atoi(s: Bytes): int {
    var v := StrTol(s) % 0x1_0000_0000;
    if v > INT_MAX then v - 0x1_0000_0000 else v
  }

  lemma {:induction false} DecimalDigits(n: nat)
    ensures Decimal(n) != [] && forall i :: 0 <= i < |Decimal(n)| ==> IsDigit(Decimal(n)[i])
    ensures Value(Decimal(n)) == n
    ensures n > 0 ==> Decimal(n)[0] != 48
  {
    if n >= 10 {
      DecimalDigits(n / 10);
      assert Decimal(n)[..|Decimal(n)| - 1] == Decimal(n / 10);
      assert Decimal(n)[0] == Decimal(n / 10)[0];
    }
  }

  // Digits followed by something else.
  lemma {:induction false} DigitsThen(d: Bytes, rest: Bytes)
    requires forall i :: 0 <= i < |d| ==> IsDigit(d[i])
    requires rest != [] ==> !IsDigit(rest[0])
    ensures Digits(d + rest) == d
  {
    if d == [] {
      assert d + rest == rest;
    } else {
      assert (d + rest)[1..] == d[1..] + rest;
      DigitsThen(d[1..], rest);
    }
  }

  lemma StrTolDigits(d: Bytes, rest: Bytes)
    requires forall i :: 0 <= i < |d| ==> IsDigit(d[i])
    requires rest != [] ==> !IsDigit(rest[0]) && (d != [] || (!IsSpace(rest[0]) && rest[0] != 45 && rest[0] != 43))
    ensures StrTol(d + rest) == if Value(d) > LONG_MAX then LONG_MAX else Value(d)
  {
    DigitsThen(d, rest);
    var s := d + rest;
    assert s != [] ==> s[0] == if d != [] then d[0] else rest[0];
    assert SkipSpace(s) == s;
  }

  // The number that is written is the number that is read, as far as the line goes.
  lemma ReadDecimal(n: nat, rest: Bytes)
    requires n <= LONG_MAX && rest != [] && !IsDigit(rest[0])
    ensures StrTol(Decimal(n) + rest) == n
    ensures n <= INT_MAX ==> Atoi(Decimal(n) + rest) == n
  {
    DecimalDigits(n);
    StrTolDigits(Decimal(n), rest);
  }

  // ---------------------------------------------------------------------------------------------
  // Writing
  // ---------------------------------------------------------------------------------------------

  // A header: a sign, a number, the end of the line.
  function Header(sign: Octet, n: nat): Bytes { [sign] + Decimal(n) + [CR, LF] }

  function Bulk(arg: Bytes): Bytes { Header(DOLLAR, |arg|) + arg + [CR, LF] }

  function Bulks(argv: Argv): Bytes {
    if argv == [] then [] else Bulk(argv[0]) + Bulks(argv[1..])
  }

  // catAppendOnlyGenericCommand
  function Encode(argv: Argv): Bytes { Header(STAR, |argv|) + Bulks(argv) }

  // What the types of the source can hold.
  ghost predicate Fits(argv: Argv) {
    1 <= |argv| <= INT_MAX && forall i :: 0 <= i < |argv| ==> |argv[i]| <= LONG_MAX
  }

  // ---------------------------------------------------------------------------------------------
  // Reading
  // ---------------------------------------------------------------------------------------------

  // AOF_ANNOTATION_LINE_MAX_LEN
  const LINE_MAX: nat := 1024

  // fgets: the bytes up to the first end of line, or as many as the buffer can hold.
  function LineLength(s: Bytes, max: nat): (k: nat)
    ensures k <= |s| && k <= max
    ensures s != [] && max > 0 ==> k > 0
  {
    if s == [] || max == 0 then 0 else if s[0] == LF then 1 else 1 + LineLength(s[1..], max - 1)
  }

  function Line(s: Bytes): (k: nat)
    ensures k <= |s| && (s != [] ==> k > 0)
  {
    LineLength(s, LINE_MAX - 1)
  }

  // Whether reading the line came to the end of the file.
  predicate HitEnd(s: Bytes) {
    Line(s) == |s| && Line(s) < LINE_MAX - 1 && (s != [] ==> s[|s| - 1] != LF)
  }

  datatype Parsed =
    | Command(argv: Argv, rest: Bytes)
    | Annotation(rest: Bytes)
    // The end of the file, in front of a command or inside of one.
    | AtEnd
    | Short
    // A read that failed before the end of the file.
    | Unreadable
    | BadFormat
    // The memory for the argument cannot be had.
    | TooLarge

  // The body of the loop of loadSingleAppendOnlyFile, up to the lookup of the command.
  function ParseCommand(s: Bytes): Parsed {
    if s == [] then AtEnd
    else
      var k := Line(s);
      if s[0] == HASH then Annotation(s[k..])
      else if s[0] != STAR then BadFormat
      else if k == 1 || s[1] == 0 then if HitEnd(s) then Short else Unreadable
      else
        var argc := Atoi(s[1..k]);
        if argc < 1 then BadFormat else ParseArgs(argc, s[k..])
  }

  function ParseArgs(n: nat, s: Bytes): Parsed {
    if n == 0 then Command([], s)
    else if s == [] then Short
    else if s[0] != DOLLAR then BadFormat
    else
      var k := Line(s);
      var len := StrTol(s[1..k]);
      if len < 0 then TooLarge
      else if |s| - k < len + 2 then Short
      else
        var p := ParseArgs(n - 1, s[k + len + 2..]);
        if p.Command? then Command([s[k..k + len]] + p.argv, p.rest) else p
  }

  lemma {:induction false} ArgsShrink(n: nat, s: Bytes)
    ensures var p := ParseArgs(n, s); !p.Annotation? && !p.AtEnd? && (p.Command? ==> |p.rest| <= |s|)
    decreases n
  {
    hide StrTol, Line;
    if n > 0 && s != [] {
      var k := Line(s);
      var len := StrTol(s[1..k]);
      if 0 <= len <= |s| - k - 2 {
        ArgsShrink(n - 1, s[k + len + 2..]);
      }
    }
  }

  // Reading makes progress.
  lemma ParseShrinks(s: Bytes)
    ensures var p := ParseCommand(s); p.Command? || p.Annotation? ==> |p.rest| < |s|
  {
    hide ParseArgs, Atoi, Line;
    if s != [] {
      var k := Line(s);
      if k > 1 && Atoi(s[1..k]) >= 1 {
        ArgsShrink(Atoi(s[1..k]), s[k..]);
      }
    }
  }

  // ---------------------------------------------------------------------------------------------
  // Lines
  // ---------------------------------------------------------------------------------------------

  lemma {:induction false} LineIs(a: Bytes, rest: Bytes, max: nat)
    requires |a| < max && forall i :: 0 <= i < |a| ==> a[i] != LF
    ensures LineLength(a + [LF] + rest, max) == |a| + 1
    ensures LineLength(a, max) == |a|
  {
    if a == [] {
      assert (a + [LF] + rest)[0] == LF;
    } else {
      assert (a + [LF] + rest)[1..] == a[1..] + [LF] + rest;
      LineIs(a[1..], rest, max - 1);
    }
  }

  lemma {:induction false} DecimalShort(n: nat, digits: nat)
    requires n < Pow10(digits) && digits > 0
    ensures |Decimal(n)| <= digits
    decreases digits
  {
    if n >= 10 {
      DecimalShort(n / 10, digits - 1);
    }
  }

  function Pow10(n: nat): nat { if n == 0 then 1 else 10 * Pow10(n - 1) }

  lemma DecimalFits(n: nat)
    requires n <= LONG_MAX
    ensures |Decimal(n)| <= 19
  {
    assert Pow10(4) == 10000;
    assert Pow10(8) == 10000_0000 by { assert Pow10(6) == 1000000; }
    assert Pow10(12) == 10000_0000_0000 by { assert Pow10(10) == 10000_000000; }
    assert Pow10(16) == 10000_0000_0000_0000 by { assert Pow10(14) == 10000_0000_000000; }
    assert Pow10(19) == 1000_0000_0000_0000_0000 by { assert Pow10(18) == 100_0000_0000_0000_0000; }
    DecimalShort(n, 19);
  }

  // A header at the start of a text is its first line.
  lemma HeaderLine(sign: Octet, n: nat, rest: Bytes)
    requires n <= LONG_MAX && sign != LF
    ensures var s := Header(sign, n) + rest; var k := |Header(sign, n)|;
      && Line(s) == k && s[k..] == rest && s[0] == sign && k > 2
      && StrTol(s[1..k]) == n && (n <= INT_MAX ==> Atoi(s[1..k]) == n)
      && s[1] != 0
  {
    var h, s := Header(sign, n), Header(sign, n) + rest;
    var k := |h|;
    var a := [sign] + Decimal(n) + [CR];
    DecimalDigits(n);
    DecimalFits(n);
    assert s == a + [LF] + rest;
    LineIs(a, rest, LINE_MAX - 1);
    assert s[1..k] == Decimal(n) + [CR, LF];
    ReadDecimal(n, [CR, LF]);
    assert s[1] == Decimal(n)[0];
  }

  // Part of a number is a number that is not larger, and is positive if the number is.
  lemma {:induction false} ValuePrefix(d: Bytes, k: nat)
    requires k <= |d| && forall i :: 0 <= i < |d| ==> IsDigit(d[i])
    ensures Value(d[..k]) <= Value(d)
    ensures k > 0 && d[0] != 48 ==> Value(d[..k]) > 0
    decreases |d|
  {
    if k == |d| {
      assert d[..k] == d;
      if k > 1 {
        ValuePrefix(d[..k - 1], k - 1);
      }
    } else {
      ValuePrefix(d[..|d| - 1], k);
      assert d[..|d| - 1][..k] == d[..k];
    }
  }

  // A number of which the end is missing, or the end of the line after it.
  lemma NumberCut(n: nat, y: Bytes)
    requires n <= LONG_MAX && y < Decimal(n) + [CR, LF]
    ensures 0 <= StrTol(y) <= n && (n > 0 && y != [] ==> StrTol(y) >= 1)
    ensures y != [] ==> y[0] != 0
    ensures forall i :: 0 <= i < |y| ==> y[i] != LF
  {
    hide StrTol, Value, Decimal;
    var d := Decimal(n);
    DecimalDigits(n);
    if |y| <= |d| {
      assert y == d[..|y|] + [];
      ValuePrefix(d, |y|);
      StrTolDigits(d[..|y|], []);
    } else {
      assert y == d + [CR];
      ReadDecimal(n, [CR]);
    }
  }

  lemma SmallAtoi(s: Bytes)
    requires 0 <= StrTol(s) <= INT_MAX
    ensures Atoi(s) == StrTol(s)
  {}

  // A header of which the end is missing.
  lemma HeaderCut(sign: Octet, n: nat, x: Bytes)
    requires n <= LONG_MAX && sign != LF && x < Header(sign, n) && x != []
    ensures Line(x) == |x| && HitEnd(x) && x[0] == sign && x[1..|x|] == x[1..]
    ensures StrTol(x[1..]) >= 0
    ensures |x| > 1 ==> x[1] != 0 && (0 < n <= INT_MAX ==> Atoi(x[1..]) >= 1)
  {
    hide StrTol, Decimal, Atoi;
    var h := Header(sign, n);
    DecimalFits(n);
    assert h == [sign] + (Decimal(n) + [CR, LF]);
    assert x[0] == h[0];
    var y := x[1..];
    assert y < Decimal(n) + [CR, LF];
    NumberCut(n, y);
    if n <= INT_MAX { SmallAtoi(y); }
    assert x == [sign] + y;
    LineIs(x, [], LINE_MAX - 1);
  }

  // ---------------------------------------------------------------------------------------------
  // Whole commands
  // ---------------------------------------------------------------------------------------------

  lemma BulkWhole(arg: Bytes, tail: Bytes)
    requires |arg| <= LONG_MAX
    ensures var s := Bulk(arg) + tail; var k := Line(s);
      && s != [] && s[0] == DOLLAR && 1 <= k && StrTol(s[1..k]) == |arg| && |s| - k >= |arg| + 2
      && s[k..k + |arg|] == arg && s[k + |arg| + 2..] == tail
  {
    hide Line, StrTol, Header;
    var h, after := Header(DOLLAR, |arg|), arg + [CR, LF] + tail;
    var s, k := Bulk(arg) + tail, |h|;
    assert s == h + after;
    HeaderLine(DOLLAR, |arg|, after);
    assert s[k..k + |arg|] == after[..|arg|] == arg;
    assert s[k + |arg| + 2..] == after[|arg| + 2..] == tail;
  }

  lemma {:induction false} ArgsWhole(argv: Argv, rest: Bytes)
    requires forall i :: 0 <= i < |argv| ==> |argv[i]| <= LONG_MAX
    ensures ParseArgs(|argv|, Bulks(argv) + rest) == Command(argv, rest)
  {
    hide Line, StrTol, Bulk;
    if argv == [] {
      assert Bulks(argv) + rest == rest;
    } else {
      var tail := Bulks(argv[1..]) + rest;
      assert Bulks(argv) + rest == Bulk(argv[0]) + tail;
      BulkWhole(argv[0], tail);
      ArgsWhole(argv[1..], rest);
      assert argv == [argv[0]] + argv[1..];
    }
  }

  // A command that is there as a whole is read back.
  lemma CommandWhole(argv: Argv, rest: Bytes)
    requires Fits(argv)
    ensures ParseCommand(Encode(argv) + rest) == Command(argv, rest)
  {
    hide Line, Atoi, Header, ParseArgs, Bulks;
    var after := Bulks(argv) + rest;
    var s := Encode(argv) + rest;
    assert s == Header(STAR, |argv|) + after;
    HeaderLine(STAR, |argv|, after);
    ArgsWhole(argv, rest);
  }

  // ---------------------------------------------------------------------------------------------
  // Parts of commands
  // ---------------------------------------------------------------------------------------------

  lemma {:induction false} ArgsCut(argv: Argv, x: Bytes)
    requires x < Bulks(argv) && forall i :: 0 <= i < |argv| ==> |argv[i]| <= LONG_MAX
    ensures ParseArgs(|argv|, x) == Short
    decreases |argv|
  {
    hide Line, StrTol, Header, HitEnd;
    if x != [] {
      var arg := argv[0];
      var h, tail := Header(DOLLAR, |arg|), Bulks(argv[1..]);
      var k := |h|;
      assert Bulks(argv) == h + (arg + [CR, LF] + tail);
      if |x| < k {
        assert x < h;
        HeaderCut(DOLLAR, |arg|, x);
      } else {
        var after := x[k..];
        assert x == h + after;
        HeaderLine(DOLLAR, |arg|, after);
        if |after| >= |arg| + 2 {
          var y := x[k + |arg| + 2..];
          assert y < tail;
          ArgsCut(argv[1..], y);
        }
      }
    }
  }

  // A command of which the end is missing is seen to be short.
  lemma CommandCut(argv: Argv, x: Bytes)
    requires Fits(argv) && x < Encode(argv) && x != []
    ensures ParseCommand(x) == Short
  {
    hide Line, Atoi, StrTol, Header, ParseArgs, Bulks, HitEnd;
    var h := Header(STAR, |argv|);
    if |x| < |h| {
      assert x < h;
      HeaderCut(STAR, |argv|, x);
      if |x| > 1 {
        NoArgs(Atoi(x[1..]));
        assert x[|x|..] == [];
      }
    } else {
      var after := x[|h|..];
      assert x == h + after;
      HeaderLine(STAR, |argv|, after);
      assert after < Bulks(argv);
      ArgsCut(argv, after);
    }
  }

  lemma NoArgs(n: nat)
    requires n > 0
    ensures ParseArgs(n, []) == Short
  {}
}
