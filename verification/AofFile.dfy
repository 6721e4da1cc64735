// Writing the log and reading it back, byte by byte (aof.c).
module AofFile {
  import opened Resp
  import opened AofLog

  lemma {:induction false} BulksConcat(a: Argv, b: Argv)
    ensures Bulks(a + b) == Bulks(a) + Bulks(b)
  {
    if a == [] {
      assert a + b == b;
    } else {
      assert (a + b)[1..] == a[1..] + b;
      BulksConcat(a[1..], b);
    }
  }

  lemma BulksNext(argv: Argv, j: nat)
    requires j < |argv|
    ensures Bulks(argv[..j + 1]) == Bulks(argv[..j]) + Header(DOLLAR, |argv[j]|) + argv[j] + [CR, LF]
  {
    hide Header;
    assert argv[..j + 1] == argv[..j] + [argv[j]];
    BulksConcat(argv[..j], [argv[j]]);
    assert [argv[j]][1..] == [];
    assert Bulks([argv[j]]) == Bulk(argv[j]) + [];
  }

  // catAppendOnlyGenericCommand
  method CatGenericCommand(dst: Bytes, argv: Argv) returns (r: Bytes)
    ensures r == dst + Encode(argv)
  {
    hide Bulks, Header;
    r := dst + Header(STAR, |argv|);
    var j := 0;
    assert Bulks(argv[..0]) == [] by { assert argv[..0] == []; NoBulks(); }
    while j < |argv|
      invariant 0 <= j <= |argv| && r == dst + Header(STAR, |argv|) + Bulks(argv[..j])
    {
      BulksNext(argv, j);
      r := r + Header(DOLLAR, |argv[j]|);
      r := r + argv[j];
      r := r + [CR, LF];
      j := j + 1;
    }
    assert argv[..j] == argv;
  }

  lemma NoBulks()
    ensures Bulks([]) == []
  {}

  // The part of the server that writes the log.
  class Writer {
    // aof_buf and aof_selected_db
    var buf: Bytes
    var selectedDb: int
    ghost var feeds: seq<Feed>

    ghost predicate Valid()
      reads this
    {
      buf == Log(Commands(feeds)) && selectedDb == Selected(feeds)
    }

    constructor ()
      ensures Valid() && feeds == []
    {
      buf, selectedDb, feeds := [], -1, [];
    }

    // feedAppendOnlyFile, without time stamps, while the log is written.
    method FeedAppendOnlyFile(f: Feed)
      requires Valid() && f.db >= -1
      modifies this
      ensures Valid() && feeds == old(feeds) + [f]
      ensures buf == old(buf) + ((if f.db == -1 || f.db == old(selectedDb) then [] else Encode([SELECT, Decimal(f.db)])) + Encode(f.argv))
      ensures selectedDb == if f.db == -1 then old(selectedDb) else f.db
    {
      hide Encode, Log, Commands, Selected, Decimal;
      FeedIs(feeds, f);
      var b: Bytes := [];
      if f.db != -1 && f.db != selectedDb {
        b := CatGenericCommand(b, SelectArgv(f.db));
        selectedDb := f.db;
      }
      b := CatGenericCommand(b, f.argv);
      buf := buf + b;
      feeds := feeds + [f];
    }
  }

  // The log and the selected database after one more command.
  lemma FeedIs(feeds: seq<Feed>, f: Feed)
    requires f.db >= -1
    ensures Log(Commands(feeds + [f])) ==
      Log(Commands(feeds)) + ((if f.db == -1 || f.db == Selected(feeds) then [] else Encode([SELECT, Decimal(f.db)])) + Encode(f.argv))
    ensures Selected(feeds + [f]) == if f.db == -1 then Selected(feeds) else f.db
  {
    hide Encode, Log, Commands, Selected, Decimal, Emit;
    CommandsSnoc(feeds, f);
    LogConcat(Commands(feeds), Emit(Selected(feeds), f));
    LogOfEmit(Selected(feeds), f);
  }

  lemma LogOfEmit(selected: int, f: Feed)
    ensures Log(Emit(selected, f)) == (if f.db >= 0 && f.db != selected then Encode(SelectArgv(f.db)) else []) + Encode(f.argv)
  {
    hide Encode, SelectArgv;
    LogOne(f.argv);
    if f.db >= 0 && f.db != selected {
      LogOne(SelectArgv(f.db));
      LogConcat([SelectArgv(f.db)], [f.argv]);
    } else {
      assert Emit(selected, f) == [f.argv];
    }
  }

  // A file that is being read.
  class Reader {
    const file: Bytes
    var pos: nat
    var eof: bool

    ghost predicate Valid()
      reads this
    {
      pos <= |file| && (eof ==> pos == |file|)
    }

    ghost function Left(): Bytes
      requires Valid()
      reads this
    {
      file[pos..]
    }

    constructor (file: Bytes)
      ensures Valid() && this.file == file && pos == 0 && !eof
    {
      this.file, pos, eof := file, 0, false;
    }

    // fgets; an empty line stands for NULL.
    method GetLine() returns (line: Bytes)
      requires Valid()
      modifies this
      ensures Valid() && pos == old(pos) + Line(old(Left())) && line == file[old(pos)..pos]
      ensures eof == (old(eof) || HitEnd(old(Left())))
    {
      ghost var s := Left();
      line := [];
      var stop := false;
      while !stop && |line| < LINE_MAX - 1 && pos < |file|
        invariant Valid() && pos == old(pos) + |line| && line == file[old(pos)..pos] && |line| <= LINE_MAX - 1 && eof == old(eof)
        invariant stop ==> line != [] && line[|line| - 1] == LF && Line(s) == |line|
        invariant !stop ==> Line(s) == |line| + LineLength(Left(), LINE_MAX - 1 - |line|)
        invariant !stop && line != [] ==> line[|line| - 1] != LF
        decreases |file| - pos, !stop
      {
        var c := file[pos];
        assert Left()[1..] == file[pos + 1..];
        pos := pos + 1;
        line := line + [c];
        stop := c == LF;
      }
      assert |line| == Line(s);
      assert Line(s) == |s| ==> pos == |file| && line == s;
      if !stop && |line| < LINE_MAX - 1 {
        eof := true;
      }
    }

    // fread of one item of n bytes.
    method Read(n: nat) returns (ok: bool, data: Bytes)
      requires Valid()
      modifies this
      ensures Valid() && ok == (n <= |old(Left())|)
      ensures ok ==> data == old(Left())[..n] && Left() == old(Left())[n..] && eof == old(eof)
      ensures !ok ==> eof
    {
      if n <= |file| - pos {
        ok, data := true, file[pos..pos + n];
        pos := pos + n;
      } else {
        ok, data, eof := false, [], true;
        pos := |file|;
      }
    }

    // One argument: its length, its bytes, the end of the line. The result has no rest of its own.
    method ReadArg() returns (p: Parsed)
      requires Valid()
      modifies this
      ensures Valid()
      ensures if p.Command? then |p.argv| == 1 && p.rest == Left() && ReadsArg(old(Left()), p.argv[0], Left()) else ReadsNoArg(old(Left()), p)
    {
      hide Line, StrTol, HitEnd;
      ghost var t := Left();
      var line := GetLine();
      if line == [] {
        return Short;
      }
      assert line[0] == t[0] && line == t[..|line|] && Left() == t[|line|..];
      if line[0] != DOLLAR {
        return BadFormat;
      }
      var len := StrTol(line[1..]);
      assert t[1..|line|] == line[1..];
      if len < 0 {
        return TooLarge;
      }
      var ok, arg := Read(len);
      if !ok {
        return Short;
      }
      var end, crlf := Read(2);
      if !end {
        return Short;
      }
      assert Left() == t[|line| + len + 2..] && arg == t[|line|..|line| + len];
      p := Command([arg], file[pos..]);
    }

    // The arguments of a command.
    method ReadArgs(argc: nat) returns (p: Parsed)
      requires Valid()
      modifies this
      ensures Valid() && p == ParseArgs(argc, old(Left())) && (p.Command? ==> p.rest == Left())
    {
      hide ReadsArg, ReadsNoArg, ParseArgs;
      ghost var s := Left();
      var argv: Argv := [];
      var j := 0;
      BeforeNothing(ParseArgs(argc, s));
      while j < argc
        invariant Valid() && 0 <= j <= argc
        invariant ParseArgs(argc, s) == Before(argv, ParseArgs(argc - j, Left()))
      {
        ghost var t := Left();
        var q := ReadArg();
        if !q.Command? {
          ReadsNoArgIs(t, argc - j, q);
          return q;
        }
        ReadsArgIs(t, argc - j, q.argv[0], Left());
        BeforeMore(argv, q.argv[0], ParseArgs(argc - j - 1, Left()));
        argv := argv + q.argv;
        j := j + 1;
      }
      p := Command(argv, file[pos..]);
      NoArgsLeft(Left());
    }

    // One command: the body of the loop of loadSingleAppendOnlyFile, up to the lookup of the command.
    method ReadCommand() returns (p: Parsed)
      requires Valid()
      modifies this
      ensures Valid() && p == ParseCommand(old(Left())) && (p.Command? || p.Annotation? ==> p.rest == Left())
    {
      hide Line, StrTol, Atoi, HitEnd, ParseArgs;
      ghost var s := Left();
      var line := GetLine();
      if line == [] {
        return AtEnd;
      }
      assert line[0] == s[0] && line == s[..|line|] && Left() == s[|line|..];
      if line[0] == HASH {
        return Annotation(file[pos..]);
      }
      if line[0] != STAR {
        return BadFormat;
      }
      // The line is a C string: it ends at its first zero byte.
      if |line| == 1 || line[1] == 0 {
        return if eof then Short else Unreadable;
      }
      assert s[1..|line|] == line[1..];
      var argc := Atoi(line[1..]);
      if argc < 1 {
        return BadFormat;
      }
      p := ReadArgs(argc);
      ArgsShrink(argc, s[|line|..]);
    }
  }

  // What the next argument is, and what is left after it; or why there is none.
  ghost predicate ReadsArg(s: Bytes, arg: Bytes, rest: Bytes) {
    && s != [] && s[0] == DOLLAR
    && var k := Line(s); var len := StrTol(s[1..k]);
       0 <= len <= |s| - k - 2 && arg == s[k..k + len] && rest == s[k + len + 2..]
  }

  ghost predicate ReadsNoArg(s: Bytes, p: Parsed) {
    if s == [] then p == Short
    else if s[0] != DOLLAR then p == BadFormat
    else
      var k := Line(s);
      var len := StrTol(s[1..k]);
      if len < 0 then p == TooLarge else |s| - k < len + 2 && p == Short
  }

  lemma ReadsArgIs(s: Bytes, n: nat, arg: Bytes, rest: Bytes)
    requires n > 0 && ReadsArg(s, arg, rest)
    ensures var p := ParseArgs(n - 1, rest);
      ParseArgs(n, s) == if p.Command? then Command([arg] + p.argv, p.rest) else p
  {
    hide Line, StrTol;
  }

  lemma ReadsNoArgIs(s: Bytes, n: nat, p: Parsed)
    requires n > 0 && ReadsNoArg(s, p)
    ensures ParseArgs(n, s) == p
  {
    hide Line, StrTol;
  }

  lemma NoArgsLeft(s: Bytes)
    ensures ParseArgs(0, s) == Command([], s)
  {}

  lemma BeforeNothing(p: Parsed)
    ensures Before([], p) == p
  {
    assert p.Command? ==> [] + p.argv == p.argv;
  }

  // The arguments read so far, in front of those still to be read.
  ghost function Before(argv: Argv, p: Parsed): Parsed {
    if p.Command? then Command(argv + p.argv, p.rest) else p
  }

  lemma BeforeMore(argv: Argv, arg: Bytes, p: Parsed)
    ensures Before(argv, if p.Command? then Command([arg] + p.argv, p.rest) else p) == Before(argv + [arg], p)
  {
    if p.Command? {
      assert argv + ([arg] + p.argv) == argv + [arg] + p.argv;
    }
  }

  // loadSingleAppendOnlyFile on a file that is not in RDB format.
  method LoadSingleAppendOnlyFile(look: Lookup, file: Bytes) returns (r: Loaded)
    ensures r == Load(look, file)
  {
    hide ParseCommand, Step;
    if |file| == 0 {
      return Loaded(LoadEmpty, START, 0);
    }
    var fp := new Reader(file);
    var client, validUpTo: nat, beforeMulti: nat := START, 0, 0;
    assert file[0..] == file;
    while true
      invariant fp.Valid() && fp.file == file
      invariant Load(look, file) == LoadLoop(look, file, fp.pos, Progress(client, validUpTo, beforeMulti))
      decreases |file| - fp.pos
    {
      ghost var pos := fp.pos;
      ParseShrinks(file[pos..]);
      var p := fp.ReadCommand();
      match p {
        case AtEnd =>
          if client.multi {
            validUpTo := beforeMulti;
            return Loaded(LoadedTruncated, client, validUpTo);
          }
          return Loaded(LoadedOk, client, |file|);
        case Annotation(_) =>
        case Command(argv, _) =>
          var kind := look(argv);
          if kind.Unknown? {
            return Loaded(LoadFailed, client, |file|);
          }
          if kind.Multi? {
            beforeMulti := validUpTo;
          }
          client := Step(look, client, argv);
          validUpTo := fp.pos;
        case Short =>
          return Loaded(LoadedTruncated, client, validUpTo);
        case _ =>
          return Loaded(LoadFailed, client, |file|);
      }
    }
  }
}
