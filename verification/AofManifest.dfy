// The multi-part AOF manifest of aof.c: one BASE file, ordered INCR files, and HISTORY files.
module AofManifest {
  import opened Basics

  // File names are built from the configured prefix, a sequence number and a suffix, so they are
  // determined by the kind of file, the number and, for a BASE file, the format.
  datatype FileName =
    | BaseFile(num: nat, rdb: bool)
    | IncrFile(num: nat)
    | TempRewrite(pid: nat)

  datatype FileType = Base | Hist | Incr

  datatype AofInfo = AofInfo(name: FileName, num: nat, ftype: FileType)

  datatype Manifest = Manifest(
    base: Option<AofInfo>,
    history: seq<AofInfo>,
    incr: seq<AofInfo>,
    baseSeq: nat,
    incrSeq: nat,
    dirty: bool)

  const EmptyManifest := Manifest(None, [], [], 0, 0, false)

  function AsHistory(ai: AofInfo): AofInfo { ai.(ftype := Hist) }

  function AllAsHistory(infos: seq<AofInfo>): seq<AofInfo> {
    seq(|infos|, i requires 0 <= i < |infos| => AsHistory(infos[i]))
  }

  // getNewBaseFileNameAndMarkPreAsHistory
  function WithNewBase(am: Manifest, rdb: bool): Manifest {
    var num := am.baseSeq + 1;
    am.(base := Some(AofInfo(BaseFile(num, rdb), num, Base)),
        history := (if am.base.Some? then [AsHistory(am.base.value)] else []) + am.history,
        baseSeq := num,
        dirty := true)
  }

  // getNewIncrAofName
  function WithNewIncr(am: Manifest): Manifest {
    var num := am.incrSeq + 1;
    am.(incr := am.incr + [AofInfo(IncrFile(num), num, Incr)], incrSeq := num, dirty := true)
  }

  // markRewrittenIncrAofAsHistory: all INCR files become HISTORY, except the one being written.
  function WithIncrAsHistory(am: Manifest, fdOpen: bool): Manifest {
    if am.incr == [] then am
    else
      var keep := if fdOpen then |am.incr| - 1 else |am.incr|;
      am.(history := AllAsHistory(am.incr[..keep]) + am.history, incr := am.incr[keep..], dirty := true)
  }

  // ---------------------------------------------------------------------------------------------
  // The manifest file: a line per AOF file
  // ---------------------------------------------------------------------------------------------

  // getAofManifestAsString
  function Lines(am: Manifest): seq<AofInfo> {
    (if am.base.Some? then [am.base.value] else []) + am.history + am.incr
  }

  datatype Loaded = Ok(am: Manifest) | Abort

  // One line of aofLoadManifestFromFile; the INCR numbers must increase.
  function LoadLine(am: Manifest, maxSeq: nat, ai: AofInfo): Loaded {
    if ai.num == 0 then Abort
    else match ai.ftype
      case Base => if am.base.Some? then Abort else Ok(am.(base := Some(ai), baseSeq := ai.num))
      case Hist => Ok(am.(history := am.history + [ai]))
      case Incr => if ai.num <= maxSeq then Abort else Ok(am.(incr := am.incr + [ai], incrSeq := ai.num))
  }

  function LoadLines(am: Manifest, maxSeq: nat, lines: seq<AofInfo>): Loaded
    decreases |lines|
  {
    if lines == [] then Ok(am)
    else
      var r := LoadLine(am, maxSeq, lines[0]);
      if r.Abort? then Abort
      else LoadLines(r.am, if lines[0].ftype.Incr? then lines[0].num else maxSeq, lines[1..])
  }

  // An empty manifest file is an error.
  function Load(lines: seq<AofInfo>): Loaded {
    if lines == [] then Abort else LoadLines(EmptyManifest, 0, lines)
  }

  // ---------------------------------------------------------------------------------------------
  // What every operation keeps
  // ---------------------------------------------------------------------------------------------

  ghost predicate IncreasingFrom(infos: seq<AofInfo>, lo: nat) {
    && (forall i :: 0 <= i < |infos| ==>
          infos[i].name == IncrFile(infos[i].num) && infos[i].ftype == Incr && lo < infos[i].num)
    && (forall i, j :: 0 <= i < j < |infos| ==> infos[i].num < infos[j].num)
  }

  // HISTORY entries carry numbers that no present or future live file has.
  ghost predicate Retired(ai: AofInfo, baseNum: nat, incrNum: nat) {
    ai.ftype == Hist && 0 < ai.num &&
    match ai.name
    case BaseFile(n, _) => n == ai.num < baseNum
    case IncrFile(n) => n == ai.num < incrNum
    case TempRewrite(_) => false
  }

  // A manifest of a server whose AOF is on.
  ghost predicate Sound(am: Manifest) {
    && am.base.Some?
    && am.base.value.ftype == Base
    && am.base.value.num == am.baseSeq > 0
    && am.base.value.name.BaseFile? && am.base.value.name.num == am.baseSeq
    && am.incr != []
    && IncreasingFrom(am.incr, 0)
    && am.incr[|am.incr| - 1].num == am.incrSeq
    && forall i :: 0 <= i < |am.history| ==> Retired(am.history[i], am.baseSeq, am.incr[0].num)
  }

  lemma NewIncrSound(am: Manifest)
    requires Sound(am)
    ensures Sound(WithNewIncr(am))
  {}

  lemma RewriteSound(am: Manifest, rdb: bool)
    requires Sound(am)
    ensures Sound(WithIncrAsHistory(WithNewBase(am, rdb), true))
  {
    var last := |am.incr| - 1;
    var next := WithIncrAsHistory(WithNewBase(am, rdb), true);
    assert next.incr == am.incr[last..];
    forall i | 0 <= i < |next.history|
      ensures Retired(next.history[i], next.baseSeq, next.incr[0].num)
    {
      if i < last {
        assert next.history[i] == AsHistory(am.incr[i]);
      } else if i == last {
        assert next.history[i] == AsHistory(am.base.value);
      } else {
        assert next.history[i] == am.history[i - last - 1];
      }
    }
  }

  lemma {:induction false} LoadHistory(am: Manifest, maxSeq: nat, hist: seq<AofInfo>, rest: seq<AofInfo>)
    requires forall i :: 0 <= i < |hist| ==> hist[i].ftype == Hist && hist[i].num > 0
    ensures LoadLines(am, maxSeq, hist + rest) == LoadLines(am.(history := am.history + hist), maxSeq, rest)
    decreases |hist|
  {
    if hist == [] {
      assert hist + rest == rest;
      assert am.history + hist == am.history;
    } else {
      assert (hist + rest)[1..] == hist[1..] + rest;
      LoadHistory(am.(history := am.history + [hist[0]]), maxSeq, hist[1..], rest);
      assert am.history + [hist[0]] + hist[1..] == am.history + hist;
    }
  }

  lemma {:induction false} LoadIncr(am: Manifest, maxSeq: nat, incr: seq<AofInfo>)
    requires IncreasingFrom(incr, maxSeq)
    ensures LoadLines(am, maxSeq, incr)
         == Ok(am.(incr := am.incr + incr, incrSeq := if incr == [] then am.incrSeq else incr[|incr| - 1].num))
    decreases |incr|
  {
    if incr == [] {
      assert am.incr + incr == am.incr;
    } else {
      assert IncreasingFrom(incr[1..], incr[0].num);
      LoadIncr(am.(incr := am.incr + [incr[0]], incrSeq := incr[0].num), incr[0].num, incr[1..]);
      assert am.incr + [incr[0]] + incr[1..] == am.incr + incr;
    }
  }

  // A written manifest is read back as it was, and never makes the server abort.
  lemma LoadOfLines(am: Manifest)
    requires Sound(am)
    ensures Load(Lines(am)) == Ok(am.(dirty := false))
  {
    var base := am.base.value;
    assert Lines(am)[0] == base && Lines(am)[1..] == am.history + am.incr;
    var m := EmptyManifest.(base := Some(base), baseSeq := base.num);
    assert LoadLines(EmptyManifest, 0, Lines(am)) == LoadLines(m, 0, am.history + am.incr);
    LoadHistory(m, 0, am.history, am.incr);
    assert m.history + am.history == am.history;
    LoadIncr(m.(history := am.history), 0, am.incr);
    assert m.incr + am.incr == am.incr;
  }

  // ---------------------------------------------------------------------------------------------
  // Which manifests are accepted
  // ---------------------------------------------------------------------------------------------

  // The lines of one type, in order.
  function OfType(lines: seq<AofInfo>, ftype: FileType): seq<AofInfo> {
    if lines == [] then [] else (if lines[0].ftype == ftype then [lines[0]] else []) + OfType(lines[1..], ftype)
  }

  ghost predicate Numbered(lines: seq<AofInfo>) { forall i :: 0 <= i < |lines| ==> lines[i].num > 0 }

  ghost predicate NumsIncrease(infos: seq<AofInfo>, lo: nat) {
    && (forall i :: 0 <= i < |infos| ==> lo < infos[i].num)
    && (forall i, j :: 0 <= i < j < |infos| ==> infos[i].num < infos[j].num)
  }

  function NumOf(infos: seq<AofInfo>, otherwise: nat): nat {
    if infos == [] then otherwise else infos[|infos| - 1].num
  }

  lemma IncreaseNext(x: AofInfo, infos: seq<AofInfo>, lo: nat)
    ensures NumsIncrease([x] + infos, lo) <==> lo < x.num && NumsIncrease(infos, x.num)
    ensures NumOf([x] + infos, lo) == NumOf(infos, x.num)
  {
    var all := [x] + infos;
    if NumsIncrease(all, lo) {
      assert all[0] == x;
      forall i | 0 <= i < |infos| ensures x.num < infos[i].num { assert all[i + 1] == infos[i]; }
      forall i, j | 0 <= i < j < |infos| ensures infos[i].num < infos[j].num {
        assert all[i + 1] == infos[i] && all[j + 1] == infos[j];
      }
    }
  }

  // The lines that can follow those of a manifest, and the manifest with them.
  ghost predicate Accepts(am: Manifest, maxSeq: nat, lines: seq<AofInfo>) {
    Numbered(lines) && |OfType(lines, Base)| <= (if am.base.Some? then 0 else 1) && NumsIncrease(OfType(lines, Incr), maxSeq)
  }

  function With(am: Manifest, lines: seq<AofInfo>): Manifest {
    var bases, incrs := OfType(lines, Base), OfType(lines, Incr);
    am.(base := if bases == [] then am.base else Some(bases[0]), baseSeq := NumOf(bases, am.baseSeq),
        history := am.history + OfType(lines, Hist), incr := am.incr + incrs, incrSeq := NumOf(incrs, am.incrSeq))
  }

  lemma TypesNext(lines: seq<AofInfo>)
    requires lines != []
    ensures var x, rest := lines[0], lines[1..];
      && (Numbered(lines) <==> x.num > 0 && Numbered(rest))
      && forall ftype :: OfType(lines, ftype) == if x.ftype == ftype then [x] + OfType(rest, ftype) else OfType(rest, ftype)
  {
    var x, rest := lines[0], lines[1..];
    assert Numbered(lines) ==> Numbered(rest);
    forall ftype ensures OfType(lines, ftype) == if x.ftype == ftype then [x] + OfType(rest, ftype) else OfType(rest, ftype) {
      assert [] + OfType(rest, ftype) == OfType(rest, ftype);
    }
  }

  lemma AcceptsNext(am: Manifest, maxSeq: nat, lines: seq<AofInfo>)
    requires lines != []
    ensures var x, rest := lines[0], lines[1..]; var next := LoadLine(am, maxSeq, x);
      && (Accepts(am, maxSeq, lines) <==> next.Ok? && Accepts(next.am, if x.ftype.Incr? then x.num else maxSeq, rest))
      && (Accepts(am, maxSeq, lines) ==> With(next.am, rest) == With(am, lines))
  {
    hide OfType, Numbered, NumsIncrease, NumOf;
    TypesNext(lines);
    var x, rest := lines[0], lines[1..];
    match x.ftype
    case Base => OneBase(x, OfType(rest, Base), am.baseSeq);
    case Hist => assert am.history + [x] + OfType(rest, Hist) == am.history + ([x] + OfType(rest, Hist));
    case Incr =>
      IncreaseNext(x, OfType(rest, Incr), maxSeq);
      IncreaseNext(x, OfType(rest, Incr), am.incrSeq);
      assert am.incr + [x] + OfType(rest, Incr) == am.incr + ([x] + OfType(rest, Incr));
  }

  lemma OneBase(x: AofInfo, bases: seq<AofInfo>, otherwise: nat)
    ensures NumOf([x] + bases, otherwise) == NumOf(bases, x.num)
  {}

  lemma {:induction false} LoadLinesExactly(am: Manifest, maxSeq: nat, lines: seq<AofInfo>)
    ensures LoadLines(am, maxSeq, lines) == if Accepts(am, maxSeq, lines) then Ok(With(am, lines)) else Abort
    decreases |lines|
  {
    if lines == [] {
      assert am.history + [] == am.history && am.incr + [] == am.incr;
    } else {
      hide Accepts, With;
      AcceptsNext(am, maxSeq, lines);
      var next := LoadLine(am, maxSeq, lines[0]);
      if next.Ok? {
        LoadLinesExactly(next.am, if lines[0].ftype.Incr? then lines[0].num else maxSeq, lines[1..]);
      }
    }
  }

  // A manifest is accepted exactly if it has a line, all numbers are positive, there is at most one BASE file and
  // the numbers of the INCR files increase; then it is the lines of each type, in their order.
  lemma LoadExactly(lines: seq<AofInfo>)
    ensures var r := Load(lines); var bases, incrs := OfType(lines, Base), OfType(lines, Incr);
      && (r.Ok? <==> lines != [] && Numbered(lines) && |bases| <= 1 && NumsIncrease(incrs, 0))
      && (r.Ok? ==> r.am == Manifest(if bases == [] then None else Some(bases[0]), OfType(lines, Hist), incrs,
                                     NumOf(bases, 0), NumOf(incrs, 0), false))
  {
    hide LoadLines;
    LoadLinesExactly(EmptyManifest, 0, lines);
    assert EmptyManifest.history + OfType(lines, Hist) == OfType(lines, Hist);
    assert EmptyManifest.incr + OfType(lines, Incr) == OfType(lines, Incr);
  }
}
