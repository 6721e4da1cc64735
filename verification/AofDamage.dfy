// What loading does with a file of commands and annotations, whatever follows them (aof.c).
module AofDamage {
  import opened Basics
  import opened Resp
  import opened AofLog
  import AofRewrite
  import AofSnapshot

  // ---------------------------------------------------------------------------------------------
  // Text
  // ---------------------------------------------------------------------------------------------

  predicate IsText(s: string) { forall i :: 0 <= i < |s| ==> s[i] as int < 256 }

  function Ascii(s: string): Bytes
    requires IsText(s)
  {
    seq(|s|, i requires 0 <= i < |s| => s[i] as int as Octet)
  }

  // The names of the commands that the server writes by itself.
  lemma NamesAreSpelt()
    ensures SELECT == Ascii("SELECT") && AofRewrite.SET == Ascii("SET") && AofRewrite.RPUSH == Ascii("RPUSH")
    ensures AofRewrite.SADD == Ascii("SADD") && AofRewrite.ZADD == Ascii("ZADD") && AofRewrite.HMSET == Ascii("HMSET")
    ensures AofRewrite.PEXPIREAT == Ascii("PEXPIREAT") && AofSnapshot.PXAT == Ascii("PXAT")
  {}

  // ---------------------------------------------------------------------------------------------
  // Files
  // ---------------------------------------------------------------------------------------------

  datatype Item = Cmd(argv: Argv) | Note(line: Bytes)

  // An annotation that is not longer than the buffer.
  predicate IsNote(line: Bytes) {
    && 2 <= |line| < LINE_MAX && line[0] == Ascii("#")[0] && line[|line| - 1] == Ascii("\n")[0]
    && forall i :: 0 <= i < |line| - 1 ==> line[i] != Ascii("\n")[0]
  }

  ghost predicate ItemOk(look: Lookup, x: Item) {
    match x
    case Cmd(argv) => Resp.Fits(argv) && !look(argv).Unknown?
    case Note(line) => IsNote(line)
  }

  ghost predicate ItemsOk(look: Lookup, items: seq<Item>) {
    forall i :: 0 <= i < |items| ==> ItemOk(look, items[i])
  }

  function Text(items: seq<Item>): Bytes {
    if items == [] then [] else Text(items[..|items| - 1]) + TextOf(items[|items| - 1])
  }

  function TextOf(x: Item): Bytes { if x.Cmd? then Encode(x.argv) else x.line }

  // The commands among the items.
  function Argvs(items: seq<Item>): seq<Argv> {
    if items == [] then []
    else Argvs(items[..|items| - 1]) + if items[|items| - 1].Cmd? then [items[|items| - 1].argv] else []
  }

  // How many items there are up to the last command, and up to the last MULTI.
  function UpToCommand(items: seq<Item>): (k: nat)
    ensures k <= |items|
  {
    if items == [] || items[|items| - 1].Cmd? then |items| else UpToCommand(items[..|items| - 1])
  }

  function UpToMulti(look: Lookup, items: seq<Item>): (k: nat)
    ensures k <= |items|
  {
    if items == [] then 0
    else
      var init, last := items[..|items| - 1], items[|items| - 1];
      if last.Cmd? && look(last.argv).Multi? then UpToCommand(init) else UpToMulti(look, init)
  }

  // The loader's variables after the items.
  function After(look: Lookup, items: seq<Item>): Progress {
    Progress(Run(look, Argvs(items)), |Text(items[..UpToCommand(items)])|, |Text(items[..UpToMulti(look, items)])|)
  }

  // ---------------------------------------------------------------------------------------------
  // Reading the items
  // ---------------------------------------------------------------------------------------------

  lemma NoteWhole(line: Bytes, rest: Bytes)
    requires IsNote(line)
    ensures ParseCommand(line + rest) == Annotation(rest)
  {
    var a := line[..|line| - 1];
    assert line + rest == a + [LF] + rest;
    LineIs(a, rest, LINE_MAX - 1);
    assert (line + rest)[|line|..] == rest;
  }

  lemma TextNext(items: seq<Item>, i: nat)
    requires i < |items|
    ensures Text(items[..i + 1]) == Text(items[..i]) + TextOf(items[i])
  {
    assert items[..i + 1][..i] == items[..i];
  }

  lemma {:induction false} TextStarts(items: seq<Item>, i: nat)
    requires i <= |items|
    ensures |Text(items[..i])| <= |Text(items)| && Text(items)[..|Text(items[..i])|] == Text(items[..i])
    decreases |items| - i
  {
    hide TextOf;
    if i == |items| {
      assert items[..i] == items;
    } else {
      var init := items[..|items| - 1];
      TextStarts(init, i);
      assert init[..i] == items[..i];
    }
  }

  lemma AfterNext(look: Lookup, items: seq<Item>, x: Item)
    ensures After(look, items + [x]) ==
      if x.Cmd? then Advance(look, After(look, items), x.argv, |Text(items + [x])|) else After(look, items)
  {
    hide Text, Step;
    var more := items + [x];
    assert more[..|items|] == items && more[..|more|] == more;
    assert more[..UpToCommand(items)] == items[..UpToCommand(items)];
    assert more[..UpToMulti(look, items)] == items[..UpToMulti(look, items)];
    if x.Cmd? {
      RunSnoc(look, Argvs(items), x.argv);
    } else {
      assert Argvs(more) == Argvs(items) + [] == Argvs(items);
    }
  }

  // One item is read.
  lemma ReadsItem(look: Lookup, items: seq<Item>, x: Item, rest: Bytes, file: Bytes)
    requires ItemOk(look, x) && file == Text(items + [x]) + rest
    ensures |Text(items)| <= |Text(items + [x])| <= |file|
    ensures LoadLoop(look, file, |Text(items)|, After(look, items)) == LoadLoop(look, file, |Text(items + [x])|, After(look, items + [x]))
  {
    hide After, Step, Text, ParseCommand, Encode, Resp.Fits, IsNote;
    TextNext(items + [x], |items|);
    assert (items + [x])[..|items|] == items && (items + [x])[..|items| + 1] == items + [x];
    assert file[|Text(items)|..] == TextOf(x) + rest;
    AfterNext(look, items, x);
    if x.Cmd? { CommandWhole(x.argv, rest); } else { NoteWhole(x.line, rest); }
  }

  lemma {:induction false} ReadsItems(look: Lookup, items: seq<Item>, i: nat, rest: Bytes, file: Bytes)
    requires ItemsOk(look, items) && i <= |items| && file == Text(items) + rest
    ensures |Text(items[..i])| <= |file|
    ensures LoadLoop(look, file, |Text(items[..i])|, After(look, items[..i])) == LoadLoop(look, file, |Text(items)|, After(look, items))
    decreases |items| - i
  {
    hide After, Text, ItemOk, LoadLoop;
    if i == |items| {
      assert items[..i] == items;
    } else {
      TextStarts(items, i);
      TextStarts(items, i + 1);
      var next := Text(items[..i + 1]);
      assert file == next + file[|next|..];
      assert items[..i] + [items[i]] == items[..i + 1];
      ReadsItem(look, items[..i], items[i], file[|next|..], file);
      ReadsItems(look, items, i + 1, rest, file);
    }
  }

  // Loading comes to what follows the items, with their commands executed.
  lemma LoadComesTo(look: Lookup, items: seq<Item>, rest: Bytes)
    requires ItemsOk(look, items) && Text(items) + rest != []
    ensures var file := Text(items) + rest; Load(look, file) == LoadLoop(look, file, |Text(items)|, After(look, items))
    ensures (Text(items) + rest)[|Text(items)|..] == rest
  {
    hide LoadLoop, Run;
    RunNothing(look);
    assert items[..0] == [] && items[..0][..0] == [];
    ReadsItems(look, items, 0, rest, Text(items) + rest);
  }

  // ---------------------------------------------------------------------------------------------
  // What follows them
  // ---------------------------------------------------------------------------------------------

  // The server stops: the commands before the damage were executed, and the file is left as it is.
  ghost predicate Fails(look: Lookup, items: seq<Item>, rest: Bytes) {
    Load(look, Text(items) + rest) == Loaded(LoadFailed, Run(look, Argvs(items)), |Text(items)| + |rest|)
  }

  lemma FailsAt(look: Lookup, items: seq<Item>, rest: Bytes)
    requires ItemsOk(look, items) && rest != []
    requires var p := ParseCommand(rest);
      p.BadFormat? || p.TooLarge? || p.Unreadable? || (p.Command? && look(p.argv).Unknown?)
    ensures Fails(look, items, rest)
  {
    hide ParseCommand, Text, Run, Argvs, UpToCommand, UpToMulti;
    LoadComesTo(look, items, rest);
  }

  // A line that is neither a command nor an annotation.
  lemma BadMarkFails(look: Lookup, items: seq<Item>, rest: Bytes)
    requires ItemsOk(look, items) && rest != [] && rest[0] !in Ascii("*#")
    ensures Fails(look, items, rest)
  {
    hide Line, Atoi, ParseArgs, HitEnd;
    assert Ascii("*#") == [STAR, HASH];
    FailsAt(look, items, rest);
  }

  // A command that the server does not know.
  lemma UnknownFails(look: Lookup, items: seq<Item>, argv: Argv, rest: Bytes)
    requires ItemsOk(look, items) && Resp.Fits(argv) && look(argv).Unknown?
    ensures Fails(look, items, Encode(argv) + rest)
  {
    hide ParseCommand, Resp.Fits;
    CommandWhole(argv, rest);
    FailsAt(look, items, Encode(argv) + rest);
  }

  // A command of no arguments.
  lemma NoArgumentsFails(look: Lookup, items: seq<Item>, rest: Bytes)
    requires ItemsOk(look, items)
    ensures Fails(look, items, Ascii("*0\r\n") + rest)
  {
    hide Line, Atoi, ParseArgs, HitEnd;
    assert Decimal(0) == [48];
    assert Ascii("*0\r\n") == Header(STAR, 0);
    HeaderLine(STAR, 0, rest);
    FailsAt(look, items, Header(STAR, 0) + rest);
  }

  lemma {:induction false} ArgsThen(args: Argv, more: nat, rest: Bytes)
    requires forall i :: 0 <= i < |args| ==> |args[i]| <= LONG_MAX
    requires !ParseArgs(more, rest).Command?
    ensures ParseArgs(|args| + more, Bulks(args) + rest) == ParseArgs(more, rest)
    decreases |args|
  {
    hide Line, StrTol, Bulk;
    if args == [] {
      assert Bulks(args) + rest == rest;
    } else {
      hide ParseArgs;
      var tail := Bulks(args[1..]) + rest;
      assert Bulks(args) + rest == Bulk(args[0]) + tail;
      ArgsThen(args[1..], more, rest);
      ArgThen(args[0], |args| - 1 + more, tail);
    }
  }

  lemma ArgThen(arg: Bytes, n: nat, tail: Bytes)
    requires |arg| <= LONG_MAX && !ParseArgs(n, tail).Command?
    ensures ParseArgs(n + 1, Bulk(arg) + tail) == ParseArgs(n, tail)
  {
    hide Line, StrTol, Bulk;
    BulkWhole(arg, tail);
  }

  // The beginning of a command: its count and some of its arguments.
  lemma CommandThen(n: nat, args: Argv, rest: Bytes)
    requires |args| < n <= INT_MAX && forall i :: 0 <= i < |args| ==> |args[i]| <= LONG_MAX
    requires !ParseArgs(n - |args|, rest).Command?
    ensures ParseCommand(Header(STAR, n) + Bulks(args) + rest) == ParseArgs(n - |args|, rest)
  {
    hide Line, Atoi, Header, ParseArgs, Bulks;
    var after := Bulks(args) + rest;
    assert Header(STAR, n) + Bulks(args) + rest == Header(STAR, n) + after;
    HeaderLine(STAR, n, after);
    ArgsThen(args, n - |args|, rest);
  }

  // Inside of a command, a line that is no length of an argument.
  lemma BadArgumentFails(look: Lookup, items: seq<Item>, n: nat, args: Argv, rest: Bytes)
    requires ItemsOk(look, items) && |args| < n <= INT_MAX && forall i :: 0 <= i < |args| ==> |args[i]| <= LONG_MAX
    requires rest != [] && rest[0] !in Ascii("$")
    ensures Fails(look, items, Header(STAR, n) + Bulks(args) + rest)
  {
    hide ParseCommand, Header, Bulks, Line, StrTol;
    assert Ascii("$") == [DOLLAR];
    CommandThen(n, args, rest);
    FailsAt(look, items, Header(STAR, n) + Bulks(args) + rest);
  }

  // A length below zero.
  lemma NegativeLengthFails(look: Lookup, items: seq<Item>, n: nat, args: Argv, len: nat, rest: Bytes)
    requires ItemsOk(look, items) && |args| < n <= INT_MAX && forall i :: 0 <= i < |args| ==> |args[i]| <= LONG_MAX
    requires 0 < len <= LONG_MAX
    ensures Fails(look, items, Header(STAR, n) + Bulks(args) + (Ascii("$-") + Decimal(len) + Ascii("\r\n") + rest))
  {
    hide ParseCommand, Header, Bulks, Line, StrTol, Decimal;
    var bad := Ascii("$-") + Decimal(len) + Ascii("\r\n") + rest;
    NegativeLength(len, rest);
    CommandThen(n, args, bad);
    FailsAt(look, items, Header(STAR, n) + Bulks(args) + bad);
  }

  lemma NegativeLength(len: nat, rest: Bytes)
    requires 0 < len <= LONG_MAX
    ensures var s := Ascii("$-") + Decimal(len) + Ascii("\r\n") + rest;
      s[0] == DOLLAR && StrTol(s[1..Line(s)]) < 0
  {
    hide Decimal;
    DecimalDigits(len);
    DecimalFits(len);
    var s, a := Ascii("$-") + Decimal(len) + Ascii("\r\n") + rest, [DOLLAR, 45] + Decimal(len) + [CR];
    assert s == a + [LF] + rest;
    LineIs(a, rest, LINE_MAX - 1);
    DigitsThen(Decimal(len), [CR, LF]);
    var t := s[1..Line(s)];
    assert t == [45] + (Decimal(len) + [CR, LF]);
    assert t[1..] == Decimal(len) + [CR, LF];
  }

  // A zero byte in place of the count, on a line that ends.
  lemma ZeroByteFails(look: Lookup, items: seq<Item>, a: Bytes, rest: Bytes)
    requires ItemsOk(look, items) && |a| + 3 < LINE_MAX && forall i :: 0 <= i < |a| ==> a[i] != LF
    ensures Fails(look, items, Ascii("*") + [0] + a + Ascii("\n") + rest)
  {
    var bad, line := Ascii("*") + [0] + a + Ascii("\n") + rest, [STAR, 0] + a;
    assert bad == line + [LF] + rest;
    LineIs(line, rest, LINE_MAX - 1);
    assert Line(bad) == |line| + 1;
    assert bad[|line|] == LF;
    FailsAt(look, items, bad);
  }

  // ---------------------------------------------------------------------------------------------
  // What is loaded
  // ---------------------------------------------------------------------------------------------

  // The file ends with an item: it is loaded, unless a transaction is open; then it is cut in front of it.
  lemma WholeLoads(look: Lookup, items: seq<Item>)
    requires ItemsOk(look, items) && Text(items) != []
    ensures var c := Run(look, Argvs(items));
      Load(look, Text(items)) == if c.multi then Loaded(LoadedTruncated, c, |Text(items[..UpToMulti(look, items)])|)
        else Loaded(LoadedOk, c, |Text(items)|)
  {
    hide Text, Run, Argvs, UpToCommand, UpToMulti;
    assert Text(items) + [] == Text(items);
    LoadComesTo(look, items, []);
    AtTheEnd();
  }

  // The file ends inside of a command: it is cut behind the last command that is whole.
  lemma TornLoads(look: Lookup, items: seq<Item>, argv: Argv, x: Bytes)
    requires ItemsOk(look, items) && Resp.Fits(argv) && x < Encode(argv) && x != []
    ensures Load(look, Text(items) + x) ==
      Loaded(LoadedTruncated, Run(look, Argvs(items)), |Text(items[..UpToCommand(items)])|)
  {
    hide Text, Run, Argvs, UpToCommand, UpToMulti, Encode, ParseCommand, Resp.Fits;
    LoadComesTo(look, items, x);
    CommandCut(argv, x);
  }

  function Cmds(cs: seq<Argv>): seq<Item> {
    if cs == [] then [] else Cmds(cs[..|cs| - 1]) + [Cmd(cs[|cs| - 1])]
  }

  lemma {:induction false} CmdsAre(look: Lookup, cs: seq<Argv>)
    ensures Text(Cmds(cs)) == Log(cs) && Argvs(Cmds(cs)) == cs && (Loadable(look, cs) ==> ItemsOk(look, Cmds(cs)))
  {
    hide Encode, Resp.Fits, IsNote;
    if cs != [] {
      var init, last := cs[..|cs| - 1], cs[|cs| - 1];
      CmdsAre(look, init);
      assert Cmds(cs)[..|Cmds(cs)| - 1] == Cmds(init);
      assert cs == init + [last];
      assert Loadable(look, cs) ==> Loadable(look, init) && ItemOk(look, Cmd(last));
    }
  }

  lemma {:induction false} ItemsConcat(look: Lookup, a: seq<Item>, b: seq<Item>)
    ensures Text(a + b) == Text(a) + Text(b) && Argvs(a + b) == Argvs(a) + Argvs(b)
    decreases |b|
  {
    hide TextOf;
    if b == [] {
      assert a + b == a;
    } else {
      var init, last := b[..|b| - 1], b[|b| - 1];
      ItemsConcat(look, a, init);
      assert (a + b)[..|a + b| - 1] == a + init;
      assert Text(a) + (Text(init) + TextOf(last)) == Text(a) + Text(init) + TextOf(last);
      var one := if last.Cmd? then [last.argv] else [];
      assert Argvs(a) + (Argvs(init) + one) == Argvs(a) + Argvs(init) + one;
    }
  }

  // An annotation between two commands makes no difference to what is executed.
  lemma NoteIsSkipped(look: Lookup, a: seq<Argv>, line: Bytes, b: seq<Argv>)
    requires Loadable(look, a + b) && IsNote(line)
    ensures var r := Load(look, Log(a) + line + Log(b));
      && r.client == Run(look, a + b)
      && r.status == (if r.client.multi then LoadedTruncated else LoadedOk)
      && (a + b != [] ==> r.client == Load(look, Log(a + b)).client && r.status == Load(look, Log(a + b)).status)
  {
    hide Log, Run, Text, Load, Argvs, Resp.Fits, Encode, IsNote, UpToMulti;
    assert Loadable(look, a) && Loadable(look, b) by {
      forall i | 0 <= i < |a| ensures Resp.Fits(a[i]) && !look(a[i]).Unknown? { assert (a + b)[i] == a[i]; }
      forall i | 0 <= i < |b| ensures Resp.Fits(b[i]) && !look(b[i]).Unknown? { assert (a + b)[|a| + i] == b[i]; }
    }
    CmdsAre(look, a);
    CmdsAre(look, b);
    CmdsAre(look, a + b);
    var note := [Note(line)];
    var items := Cmds(a) + note + Cmds(b);
    NoteItem(line);
    ItemsConcat(look, Cmds(a), note);
    ItemsConcat(look, Cmds(a) + note, Cmds(b));
    assert a + [] == a;
    assert ItemsOk(look, items);
    assert |Text(items)| > 0;
    WholeLoads(look, items);
    if a + b != [] {
      LogFirst(a + b);
      WholeLoads(look, Cmds(a + b));
    }
  }

  lemma NoteItem(line: Bytes)
    requires IsNote(line)
    ensures Text([Note(line)]) == line && Argvs([Note(line)]) == [] && line != []
  {
    assert [Note(line)][..0] == [];
  }

  lemma LogFirst(cs: seq<Argv>)
    requires cs != []
    ensures Log(cs) != []
  {
    LogZero(cs, |cs|);
    assert cs[..|cs|] == cs;
  }

  // ---------------------------------------------------------------------------------------------
  // A sample
  // ---------------------------------------------------------------------------------------------

  // Lines of text.
  function Lines(ls: seq<string>): Bytes
    requires forall i :: 0 <= i < |ls| ==> IsText(ls[i])
  {
    if ls == [] then [] else Ascii(ls[0]) + Ascii("\r\n") + Lines(ls[1..])
  }

  const SET_FOO: Bytes := Lines(["*3", "$3", "set", "$3", "foo", "$5", "hello"])

  lemma LinesBulk(ls: seq<string>)
    requires |ls| >= 2 && (forall i :: 0 <= i < |ls| ==> IsText(ls[i])) && Ascii(ls[0]) == [DOLLAR] + Decimal(|ls[1]|)
    ensures Lines(ls) == Bulk(Ascii(ls[1])) + Lines(ls[2..])
  {
    hide Lines, Decimal, Ascii, IsText, Bulk;
    var next := ls[1..];
    assert next[1..] == ls[2..] && next[0] == ls[1];
    LinesNext(ls);
    LinesNext(next);
    AsciiLength(ls[1]);
    var a := Ascii(ls[1]);
    assert Header(DOLLAR, |a|) == Ascii(ls[0]) + [CR, LF];
    BulkParts(a, Lines(ls[2..]));
  }

  lemma AsciiLength(s: string)
    requires IsText(s)
    ensures |Ascii(s)| == |s|
  {}

  lemma BulkParts(a: Bytes, rest: Bytes)
    ensures Bulk(a) + rest == Header(DOLLAR, |a|) + (a + [CR, LF] + rest)
  {
    hide Header;
  }

  lemma LinesNext(ls: seq<string>)
    requires ls != [] && forall i :: 0 <= i < |ls| ==> IsText(ls[i])
    ensures Lines(ls) == Ascii(ls[0]) + [CR, LF] + Lines(ls[1..])
  {
    hide Ascii, IsText;
    EndOfLine();
  }

  lemma EndOfLine()
    ensures Ascii("\r\n") == [CR, LF]
  {}

  // The framing, written out.
  lemma SetFooIs()
    ensures SET_FOO == Encode([Ascii("set"), Ascii("foo"), Ascii("hello")])
  {
    hide Lines, Bulk;
    var ls := ["*3", "$3", "set", "$3", "foo", "$5", "hello"];
    assert Decimal(3) == [51] && Decimal(5) == [53];
    assert Ascii("*3") == [STAR, 51] && Ascii("$3") == [DOLLAR, 51] && Ascii("$5") == [DOLLAR, 53];
    assert ls[1..][2..] == ls[3..] && ls[3..][2..] == ls[5..] && ls[5..][2..] == [];
    LinesNext(ls);
    LinesBulk(ls[1..]);
    LinesBulk(ls[3..]);
    LinesBulk(ls[5..]);
    NoLines();
    assert Header(STAR, 3) == Ascii("*3") + [CR, LF];
    ThreeBulks(Ascii("set"), Ascii("foo"), Ascii("hello"));
  }

  lemma NoLines()
    ensures Lines([]) == []
  {}

  lemma ThreeBulks(a: Bytes, b: Bytes, c: Bytes)
    ensures Bulks([a, b, c]) == Bulk(a) + (Bulk(b) + (Bulk(c) + []))
  {
    hide Bulk;
    assert [a, b, c][1..] == [b, c] && [b, c][1..] == [c] && [c][1..] == [];
    assert Bulks([c]) == Bulk(c) + [];
    assert Bulks([b, c]) == Bulk(b) + Bulks([c]);
  }

  // The file of the integration test: a command, three characters that are none, and the command again.
  lemma BadFormatSample(look: Lookup)
    requires look([Ascii("set"), Ascii("foo"), Ascii("hello")]).Other?
    ensures var r := Load(look, SET_FOO + Ascii("!!!") + SET_FOO);
      r.status == LoadFailed && r.client.done == [(0, [Ascii("set"), Ascii("foo"), Ascii("hello")])]
  {
    hide Load, Encode, Lines, Run;
    var argv := [Ascii("set"), Ascii("foo"), Ascii("hello")];
    SetFooIs();
    assert [Cmd(argv)][..0] == [];
    assert Text([Cmd(argv)]) == SET_FOO;
    var bad := Ascii("!!!") + SET_FOO;
    assert SET_FOO + Ascii("!!!") + SET_FOO == SET_FOO + bad;
    assert bad[0] == 33 && Ascii("*#") == [42, 35];
    BadMarkFails(look, [Cmd(argv)], bad);
    RunsOne(look, argv);
  }

  lemma RunsOne(look: Lookup, argv: Argv)
    requires look(argv).Other?
    ensures Run(look, Argvs([Cmd(argv)])).done == [(0, argv)]
  {
    assert [Cmd(argv)][..0] == [];
    assert Argvs([Cmd(argv)]) == [argv];
    RunNothing(look);
    RunSnoc(look, [], argv);
    assert [] + [argv] == [argv];
  }
}
