// A server that goes on writing to a file which ends inside of a transaction (aof.c).
module AofTorn {
  import opened Basics
  import opened Resp
  import opened AofManifest
  import opened AofUnits
  import opened AofProtocol
  import opened AofSafety
  import AofLog
  import AofRewrite
  import AofRebuild

  type Feed = AofLog.Feed

  // ---------------------------------------------------------------------------------------------
  // Going on
  // ---------------------------------------------------------------------------------------------

  // A server starts, executes a unit, and writes it as a whole.
  ghost function GoOn(m: Machine, s: State, u: Unit): State {
    var s2 := Do(m, Do(m, s, Restart), Exec(u));
    if s2.server.None? then s2 else Do(m, s2, Flush(|s2.server.value.buf|))
  }

  // The bytes of a unit that is the first one after a restart.
  function UnitBytes(u: Unit): Bytes { AofLog.Log(EmitAll(-1, FeedsOf(u))) }

  // The disk on which the open file was cut and then continued.
  ghost predicate Continued(m: Machine, disk: Disk, disk': Disk, am: Manifest, u: Unit) {
    Live(am) != [] && Last(Live(am)).name in disk &&
    disk' == disk[Last(Live(am)).name := Cut(m, disk[Last(Live(am)).name]) + UnitBytes(u)]
  }

  lemma GoesOnTo(m: Machine, s: State, u: Unit)
    requires Works(m) && Inv(m, s) && s.server.None? && Torn(m, s) && UnitOk(m, u)
    ensures var s' := GoOn(m, s, u);
      && Durable(m, s'.history) == ActAll(m, Durable(m, s.history), u)
      && s'.manifest == s.manifest && Continued(m, s.disk, s'.disk, Load(s.manifest.value).am, u)
  {
    hide Works, LoadFiles, Load, FileOk, Sound, AofLog.Log, Written, Durable, Recover, Cut, Live, Closed, EndsOpen, ActUnits, ActAll, UnitOk, EmitAll, FeedsOf;
    var lines, h := s.manifest.value, s.history;
    var am := Load(lines).am;
    HoldsRecovers(m, s.disk, lines, h);
    var fd := Last(am.incr).name;
    var s1 := Do(m, s, Restart);
    var s2 := Do(m, s1, Exec(u));
    assert s2.server.value.buf == UnitBytes(u);
    var s3 := Do(m, s2, Flush(|s2.server.value.buf|));
    assert s3.disk[fd] == Cut(m, s.disk[fd]) + UnitBytes(u);
    OneUnit(m, s3.history, Durable(m, h), u, |UnitBytes(u)|);
  }

  lemma OneUnit(m: Machine, h: History, d: Keys, u: Unit, n: nat)
    requires h.start == d && h.units == [u] && h.ends == [n] && h.written == n
    ensures Durable(m, h) == ActAll(m, d, u)
  {
    assert [u][..1] == [u] && [u][..0] == [];
    NoUnits(m, d);
  }

  // What is recovered depends on what the continued file executes.
  lemma RecoverContinued(m: Machine, s: State, disk: Disk, u: Unit) returns (file: Bytes, d: Keys)
    requires Works(m) && Inv(m, s) && Torn(m, s) && Continued(m, s.disk, disk, Load(s.manifest.value).am, u)
    ensures FileOk(m, s.history, file, d) && EndsOpen(m.look, file)
    ensures var r := AofLog.Load(m.look, Cut(m, file) + UnitBytes(u));
      Recover(m, disk, s.manifest) == if r.status.LoadFailed? then None else Some(Replay(m, d, r.client.done))
  {
    hide Works, LoadFiles, Load, FileOk, Sound, Durable, Cut, EndsOpen, UnitBytes, AofLog.Load, Replay, Live;
    var am, h := Load(s.manifest.value).am, s.history;
    HoldsRecovers(m, s.disk, s.manifest.value, h);
    LiveIsClosed(am);
    OpenIsNotClosed(am);
    LoadFilesFrame(m, s.disk, disk, Closed(am));
    file, d := s.disk[Last(am.incr).name], LoadFiles(m, s.disk, Closed(am)).value;
  }

  lemma KeptLoads(look: AofLog.Lookup, cs: seq<Argv>, j: nat)
    requires AofLog.Loadable(look, cs) && j <= |cs|
    ensures AofLog.Loadable(look, cs[..j])
  {}

  // ---------------------------------------------------------------------------------------------
  // One command is lost
  // ---------------------------------------------------------------------------------------------

  lemma TornFile(m: Machine, h: History, file: Bytes, d: Keys, f: Feed)
    requires Works(m) && FileOk(m, h, file, d) && EndsOpen(m.look, file) && Ordinary(m.look, f)
    ensures var r := AofLog.Load(m.look, Cut(m, file) + UnitBytes([f]));
      !r.status.LoadFailed? && Replay(m, d, r.client.done) == Durable(m, h)
  {
    hide Replay, AofLog.Load, AofLog.Run, AofLog.Log, Written, Durable, Full, AofLog.Whole, AofLog.CutAt, AofLog.Loadable, AofLog.Commands, AllUnits, AofRewrite.Execute, AofRebuild.IsEmitted, AofRebuild.IsWrite, Ordinary, EmitAll, StepAll;
    var cs, n := h.head + Written(h.units), |AofLog.Log(h.head)| + h.written;
    FileIsPrefix(m, h, file);
    FileLoads(m, h, file, d);
    LeftOf(m.look, cs, n);
    assert AllOrdinary(m.look, [f]);
    AppendAfterLoad(m.look, cs, n, [f]);
    var j := AofLog.CutAt(m.look, cs, n);
    EmitPlain(m.look, -1, [f]);
    EmitFromNothing([f]);
    KeptLoads(m.look, cs, j);
    LoadAppended(m.look, cs[..j], AofLog.Commands([f]));
  }

  // A command that is written, as a whole, inside of a transaction is not recovered.
  lemma TornLoses(m: Machine, s: State, f: Feed)
    requires Works(m) && Inv(m, s) && s.server.None? && Torn(m, s) && UnitOk(m, [f])
    ensures var s' := GoOn(m, s, [f]);
      && Durable(m, s'.history) == ActAll(m, Durable(m, s.history), [f])
      && Recover(m, s'.disk, s'.manifest) == Some(Durable(m, s.history))
  {
    hide Inv, Works, Torn, GoOn, Recover, Durable, ActAll, FileOk, EndsOpen, AofLog.Load, Cut, UnitBytes, Replay, Continued, Load, FeedOk;
    GoesOnTo(m, s, [f]);
    var file, d := RecoverContinued(m, s, GoOn(m, s, [f]).disk, [f]);
    UnitIsOrdinary(m, [f]);
    assert Ordinary(m.look, [f][0]);
    TornFile(m, s.history, file, d, f);
  }

  // ---------------------------------------------------------------------------------------------
  // A unit of several commands brings back half of another
  // ---------------------------------------------------------------------------------------------

  // Of the unit that was being written, the first i commands are whole, and the next one is not.
  ghost predicate HalfWritten(h: History, i: nat) {
    var k := Complete(h.ends, h.written);
    k < |h.units| && i <= |h.units[k]| &&
    var before, sel := Written(h.units[..k]), SelectedIn(h.units[..k]);
    && |AofLog.Log(before + Begun(sel, h.units[k], i))| <= h.written
    && (i < |h.units[k]| ==> h.written < |AofLog.Log(before + Begun(sel, h.units[k], i + 1))|)
  }

  lemma EmitPrefix(selected: int, u: Unit, i: nat)
    requires i <= |u|
    ensures EmitAll(selected, u[..i]) <= EmitAll(selected, u)
  {
    hide EmitAll, SelectedAfter;
    assert u[..i] + u[i..] == u;
    EmitConcat(selected, u[..i], u[i..]);
  }

  // The bytes of the commands tell which of them are whole.
  lemma HalfIs(head: seq<Argv>, before: seq<Argv>, selected: int, u: Unit, rest: seq<Argv>, w: nat, part: seq<Argv>, i: nat)
    requires i <= |u| && EmitAll(selected, u[..i]) <= part <= EmitAll(selected, u)
    requires i < |u| ==> |part| < |EmitAll(selected, u[..i + 1])|
    requires var cs := head + before + [MULTI] + EmitAll(selected, u) + rest;
      AofLog.Whole(cs, |AofLog.Log(head)| + w) == |head| + |before| + 1 + |part|
    ensures |AofLog.Log(before + Begun(selected, u, i))| <= w
    ensures i < |u| ==> w < |AofLog.Log(before + Begun(selected, u, i + 1))|
  {
    hide AofLog.Log, EmitAll, AofLog.Whole;
    var cs, n := head + before + [MULTI] + EmitAll(selected, u) + rest, |AofLog.Log(head)| + w;
    var whole := AofLog.Whole(cs, n);
    AofLog.WholeIs(cs, n);
    var mine := before + Begun(selected, u, i);
    assert cs[..|head| + |mine|] == head + mine;
    AofLog.LogGrows(cs, |head| + |mine|, whole);
    AofLog.LogConcat(head, mine);
    if i < |u| {
      EmitPrefix(selected, u, i + 1);
      var next := before + Begun(selected, u, i + 1);
      assert cs[..|head| + |next|] == head + next;
      AofLog.LogConcat(head, next);
      if |AofLog.Log(next)| <= w { WholeAtLeast(cs, |head| + |next|, n); }
    }
  }

  // What a transaction that is left open would execute.
  lemma HalfCalls(m: Machine, d: Keys, before: seq<Argv>, selected: int, u: Unit, part: seq<Argv>) returns (i: nat)
    requires Works(m) && UnitOk(m, u) && Resting(AofLog.Run(m.look, before)) && InDb(AofLog.Run(m.look, before), selected)
    requires part <= EmitAll(selected, u)
    ensures i <= |u| && EmitAll(selected, u[..i]) <= part && (i < |u| ==> |part| < |EmitAll(selected, u[..i + 1])|)
    ensures Replay(m, d, AofLog.CallAll(m.look, AofLog.START, before + [MULTI] + part).done)
         == ActAll(m, Replay(m, d, AofLog.Run(m.look, before).done), u[..i])
  {
    hide AofLog.Run, AofLog.CallAll, EmitAll, Replay, ActAll, FeedOk, AofRewrite.Execute, AofRebuild.IsEmitted, AofRebuild.IsWrite, Full, AofLog.Matches;
    var c := AofLog.Run(m.look, before);
    AofLog.FlatRun(m.look, before);
    AofLog.CallAllSnoc(m.look, AofLog.START, before, MULTI);
    AofLog.CallNothing(m.look, c, MULTI);
    AofRebuild.CallAllConcat(m.look, AofLog.START, before + [MULTI], part);
    UnitIsOrdinary(m, u);
    var tail;
    i, tail := PartCalls(m.look, c, selected, u, part);
    ReplayConcat(m, d, c.done, tail);
    forall j | 0 <= j < |u[..i]| ensures FeedOk(m, u[..i][j]) { assert u[..i][j] == u[j]; }
    MatchesReplay(m, Replay(m, d, c.done), tail, u[..i]);
  }

  lemma TornFileUnit(m: Machine, h: History, file: Bytes, d: Keys, u: Unit) returns (i: nat)
    requires Works(m) && FileOk(m, h, file, d) && EndsOpen(m.look, file) && UnitOk(m, u) && |u| >= 2
    ensures HalfWritten(h, i)
    ensures var r := AofLog.Load(m.look, Cut(m, file) + UnitBytes(u));
      && !r.status.LoadFailed?
      && Replay(m, d, r.client.done) == ActAll(m, ActAll(m, Durable(m, h), h.units[Complete(h.ends, h.written)][..i]), u)
  {
    hide Works, Replay, AofLog.Load, AofLog.Run, AofLog.Log, AofLog.CallAll, Written, Durable, Full, AofLog.Whole, AofLog.CutAt, AofLog.Loadable, EmitAll, FeedsOf, ActAll, ActUnits, UnitOk, Resting, InDb, WholeUnits, Complete, SelectedIn, AofLog.Matches, EndsOpen, FeedOk;
    var cs, n, us := h.head + Written(h.units), |AofLog.Log(h.head)| + h.written, h.units;
    FileIsPrefix(m, h, file);
    LeftOf(m.look, cs, n);
    var part := LeftOpen(m, h.head, us, h.written);
    var k := WholeUnits(us, h.written);
    CompleteIsWhole(h, |us|, h.written);
    assert h.ends[..|us|] == h.ends && us[..|us|] == us;
    DurableIs(m, h);
    assert AllUnits(m, us[..k]) && UnitOk(m, us[k]);
    var before, sel, kept := h.head + Written(us[..k]), SelectedIn(us[..k]), cs[..AofLog.Whole(cs, n)];
    RunUnits(m, d, h.head, us[..k]);
    i := HalfCalls(m, d, before, sel, us[k], part);
    var rest := TornSplit(us, k);
    assert cs == h.head + Written(us[..k]) + [MULTI] + EmitAll(sel, us[k]) + ([EXEC] + rest);
    assert |kept| == |before| + 1 + |part|;
    HalfIs(h.head, Written(us[..k]), sel, us[k], [EXEC] + rest, h.written, part, i);
    KeptLoads(m.look, cs, AofLog.Whole(cs, n));
    ClosedBy(m, d, kept, u);
  }

  lemma TornSplit(us: seq<Unit>, k: nat) returns (rest: seq<Argv>)
    requires k < |us| && |us[k]| >= 2
    ensures Written(us) == Written(us[..k]) + ([MULTI] + EmitAll(SelectedIn(us[..k]), us[k]) + [EXEC]) + rest
  {
    hide Written, EmitAll, FeedsOf, SelectedIn;
    rest := WrittenFrom(us, k);
    FeedsOfUnit(SelectedIn(us[..k]), us[k]);
  }

  lemma ClosedBy(m: Machine, d: Keys, kept: seq<Argv>, u: Unit)
    requires Works(m) && UnitOk(m, u) && |u| >= 2 && AofLog.Loadable(m.look, kept) && AofLog.Run(m.look, kept).multi
    ensures var r := AofLog.Load(m.look, AofLog.Log(kept) + UnitBytes(u));
      && !r.status.LoadFailed?
      && Replay(m, d, r.client.done) == ActAll(m, Replay(m, d, AofLog.CallAll(m.look, AofLog.START, kept).done), u)
  {
    hide Replay, AofLog.Load, AofLog.Run, AofLog.Log, AofLog.CallAll, AofLog.Loadable, EmitAll, FeedsOf, ActAll, AofLog.Matches, FeedOk, AofRewrite.Execute, AofRebuild.IsEmitted, AofRebuild.IsWrite, Full, Resting;
    UnitIsOrdinary(m, u);
    var tail := UnitCloses(m.look, kept, u);
    var done := AofLog.CallAll(m.look, AofLog.START, kept).done;
    ReplayConcat(m, d, done, tail);
    MatchesReplay(m, Replay(m, d, done), tail, u);
  }

  // A unit of several commands that is written, as a whole, inside of a transaction is recovered, and with it
  // those commands of the torn unit that were whole, although their unit was not.
  lemma TornRevives(m: Machine, s: State, u: Unit) returns (i: nat)
    requires Works(m) && Inv(m, s) && s.server.None? && Torn(m, s) && UnitOk(m, u) && |u| >= 2
    ensures HalfWritten(s.history, i)
    ensures var s', h := GoOn(m, s, u), s.history;
      && Durable(m, s'.history) == ActAll(m, Durable(m, h), u)
      && Recover(m, s'.disk, s'.manifest) == Some(ActAll(m, ActAll(m, Durable(m, h), h.units[Complete(h.ends, h.written)][..i]), u))
  {
    hide Inv, Works, Torn, GoOn, Recover, Durable, ActAll, FileOk, EndsOpen, AofLog.Load, Cut, UnitBytes, Replay, Continued, Load, UnitOk, Complete;
    GoesOnTo(m, s, u);
    var file, d := RecoverContinued(m, s, GoOn(m, s, u).disk, u);
    i := TornFileUnit(m, s.history, file, d, u);
  }

  // ---------------------------------------------------------------------------------------------
  // When a server may go on
  // ---------------------------------------------------------------------------------------------

  // Everything that was written as a whole is recovered, and nothing else.
  ghost predicate Recovers(m: Machine, s: State) { Recover(m, s.disk, s.manifest) == Some(Durable(m, s.history)) }

  // SET, with a value that the key does not have.
  lemma Changing(m: Machine, d: Keys) returns (f: Feed)
    requires Works(m)
    ensures UnitOk(m, [f]) && ActAll(m, d, [f]) != d
  {
    hide Full;
    var slot := AofRewrite.Slot(0, [1]);
    var x: Bytes := if slot in d && d[slot].value == AofRewrite.StrV([1]) then [2] else [1];
    var argv := [AofRewrite.SET, [1], x];
    f := AofLog.Feed(0, argv);
    assert AofRebuild.IsWrite(argv) && AofRebuild.IsEmitted(m.cx, argv);
    assert FeedOk(m, f);
    AofRebuild.ExecuteSet(m.cx, d, 0, [1], x);
    assert [f][..0] == [];
    assert ActAll(m, d, []) == d;
    assert ActAll(m, d, [f]) == m.apply(d, 0, argv);
  }

  // After any calm run that ended in a crash, whatever unit comes next is recovered, and no more than it, if and
  // only if the file that the server goes on with does not end inside of a transaction.
  lemma RestartExactly(m: Machine, steps: seq<Step>)
    requires Works(m) && Calm(m, steps) && Run(m, steps).server.None?
    ensures (forall u :: UnitOk(m, u) ==> Recovers(m, GoOn(m, Run(m, steps), u))) <==> !Torn(m, Run(m, steps))
  {
    hide Inv, Works, Do, Torn, Durable, Recover, UnitOk, ActAll, Run;
    var s := Run(m, steps);
    RunKeeps(m, steps);
    if Torn(m, s) {
      var f := Changing(m, Durable(m, s.history));
      TornLoses(m, s, f);
      assert !Recovers(m, GoOn(m, s, [f]));
    } else {
      forall u | UnitOk(m, u) ensures Recovers(m, GoOn(m, s, u)) {
        var s1 := Do(m, s, Restart);
        StepKeeps(m, s, Restart);
        var s2 := Do(m, s1, Exec(u));
        StepKeeps(m, s1, Exec(u));
        InvRecovers(m, s2);
        if s2.server.Some? {
          StepKeeps(m, s2, Flush(|s2.server.value.buf|));
          InvRecovers(m, Do(m, s2, Flush(|s2.server.value.buf|)));
        }
      }
    }
  }

  // ---------------------------------------------------------------------------------------------
  // A run that gets there
  // ---------------------------------------------------------------------------------------------

  // What is written for two commands in front of the second one itself.
  function UpTo(f: Feed, g: Feed): seq<Argv> {
    [MULTI] + EmitAll(-1, [f]) + (if g.db >= 0 && g.db != SelectedAfter(-1, [f]) then [AofLog.SelectArgv(g.db)] else [])
  }

  lemma PairIs(f: Feed, g: Feed)
    ensures EmitAll(-1, FeedsOf([f, g])) == UpTo(f, g) + [g.argv] + [EXEC]
  {
    hide EmitAll, SelectedAfter;
    FeedsOfUnit(-1, [f, g]);
    assert [f, g] == [f] + [g];
    EmitConcat(-1, [f], [g]);
    EmitOne(SelectedAfter(-1, [f]), g);
  }

  lemma WholeBetween(cs: seq<Argv>, i: nat, n: nat)
    requires i < |cs| && |AofLog.Log(cs[..i])| <= n < |AofLog.Log(cs[..i + 1])|
    ensures AofLog.Whole(cs, n) == i
  {
    hide AofLog.Log, AofLog.Whole;
    AofLog.WholeIs(cs, n);
    WholeAtLeast(cs, i, n);
    if AofLog.Whole(cs, n) > i { AofLog.LogGrows(cs, i + 1, AofLog.Whole(cs, n)); }
  }

  // The file that holds the pair as far as inside of the second command.
  lemma PairEndsOpen(m: Machine, f: Feed, g: Feed, k: nat)
    requires Works(m) && UnitOk(m, [f, g])
    requires |AofLog.Log(UpTo(f, g))| < k < |AofLog.Log(UpTo(f, g))| + |Encode(g.argv)|
    ensures k < |UnitBytes([f, g])| && EndsOpen(m.look, UnitBytes([f, g])[..k])
  {
    hide AofLog.Log, AofLog.Run, AofLog.CutAt, AofLog.Whole, EmitAll, FeedsOf, UnitOk, UpTo, Encode, AofRewrite.Execute, AofRebuild.IsEmitted, AofRebuild.IsWrite, Full, EndsOpen, AofLog.Loadable;
    var before := UpTo(f, g);
    var cs := before + [g.argv] + [EXEC];
    PairIs(f, g);
    UnitLoads(m, -1, [f, g]);
    AofLog.LogConcat(before, [g.argv]);
    AofLog.LogConcat(before + [g.argv], [EXEC]);
    AofLog.LogOne(g.argv);
    assert cs[..|before|] == before && cs[..|before| + 1] == before + [g.argv];
    WholeBetween(cs, |before|, k);
    UpToOpens(m, f, g);
    CutIsWhole(m.look, cs, k, before);
    LeftOf(m.look, cs, k);
    assert |AofLog.Log([EXEC])| >= 0;
  }

  lemma CutIsWhole(look: AofLog.Lookup, cs: seq<Argv>, n: nat, before: seq<Argv>)
    requires cs[..AofLog.Whole(cs, n)] == before && n != |AofLog.Log(before)|
    ensures cs[..AofLog.CutAt(look, cs, n)] == before
  {
    hide AofLog.Log, AofLog.Run, AofLog.Whole;
  }

  lemma UpToOpens(m: Machine, f: Feed, g: Feed)
    requires Works(m) && UnitOk(m, [f, g])
    ensures AofLog.Run(m.look, UpTo(f, g)).multi
  {
    hide AofLog.Run, EmitAll, SelectedAfter, StepAll, AofLog.SelectArgv, AofRewrite.Execute, AofRebuild.IsEmitted, AofRebuild.IsWrite, Full;
    var u := [f, g];
    assert FeedOk(m, u[0]) && FeedOk(m, u[1]);
    assert AllOrdinary(m.look, [f]);
    EmitPlain(m.look, -1, [f]);
    var plain := UpTo(f, g)[1..];
    assert UpTo(f, g) == [] + ([MULTI] + plain);
    assert AllPlain(m.look, plain);
    RunConcat(m.look, [], [MULTI] + plain);
    AofLog.RunNothing(m.look);
    InTransaction(m.look, AofLog.START, plain);
  }

  lemma CalmSnoc(m: Machine, steps: seq<Step>, step: Step)
    requires Calm(m, steps) && (step.Restart? ==> Run(m, steps).manifest.None?)
    ensures Calm(m, steps + [step]) && Run(m, steps + [step]) == Do(m, Run(m, steps), step)
  {
    hide Do;
    assert (steps + [step])[..|steps|] == steps;
  }

  // An empty disk, and the start of a server on it.
  function Start(rdb: bool): seq<Step> { [Restart, StartBase([], rdb), StartIncr, StartManifest(true)] }

  // The server while it starts.
  ghost function Booting(disk: Disk, pc: Pc): State {
    State(disk, None, Some(Server(EmptyManifest, map[], [], -1, None, pc)), NO_HISTORY)
  }

  // And when it has started.
  ghost function Fresh(rdb: bool): State {
    var next := WithNewIncr(WithNewBase(EmptyManifest, rdb));
    State(map[BaseFile(1, rdb) := [], IncrFile(1) := []], Some(Lines(next)),
          Some(Server(next.(dirty := false), map[], [], -1, None, Idle)), NO_HISTORY)
  }

  lemma Boots(m: Machine, rdb: bool)
    ensures var base := WithNewBase(EmptyManifest, rdb);
      && Do(m, INITIAL, Restart) == Booting(map[], StartingBase)
      && Do(m, Booting(map[], StartingBase), StartBase([], rdb)) == Booting(map[BaseFile(1, rdb) := []], StartingIncr(base))
  {
    Nothing(m);
  }

  lemma BootsOn(m: Machine, rdb: bool)
    ensures var base := WithNewBase(EmptyManifest, rdb);
      var disk := map[BaseFile(1, rdb) := [], IncrFile(1) := []];
      && Do(m, Booting(map[BaseFile(1, rdb) := []], StartingIncr(base)), StartIncr) == Booting(disk, StartingManifest(WithNewIncr(base)))
      && Do(m, Booting(disk, StartingManifest(WithNewIncr(base))), StartManifest(true)) == Fresh(rdb)
  {
    hide Lines;
  }

  lemma Started(m: Machine, rdb: bool)
    ensures Calm(m, Start(rdb)) && Run(m, Start(rdb)) == Fresh(rdb)
  {
    hide Calm, Run, Do, Booting, Fresh;
    Nothing(m);
    Boots(m, rdb);
    BootsOn(m, rdb);
    var s1, s2, s3, s4 := Restart, StartBase([], rdb), StartIncr, StartManifest(true);
    CalmSnoc(m, [], s1);
    CalmSnoc(m, [] + [s1], s2);
    CalmSnoc(m, [] + [s1] + [s2], s3);
    CalmSnoc(m, [] + [s1] + [s2] + [s3], s4);
    assert [] + [s1] + [s2] + [s3] + [s4] == Start(rdb);
  }

  lemma Nothing(m: Machine)
    ensures Calm(m, []) && Run(m, []) == INITIAL && Iterates(m, map[], []) && Rewritten(m, []) == []
  {}

  // For any two commands there is a run, without any earlier restart on a torn file, that ends in a crash with a
  // file which ends inside of their transaction.
  lemma TornRun(m: Machine, f: Feed, g: Feed, k: nat, rdb: bool)
    requires Works(m) && UnitOk(m, [f, g])
    requires |AofLog.Log(UpTo(f, g))| < k < |AofLog.Log(UpTo(f, g))| + |Encode(g.argv)|
    ensures var steps := Start(rdb) + [Exec([f, g]), Flush(k), Crash];
      Calm(m, steps) && Run(m, steps).server.None? && Torn(m, Run(m, steps))
  {
    hide Works, Calm, Run, UnitOk, ActAll, EmitAll, FeedsOf, AofLog.Log, EndsOpen, Start, UpTo, Encode, Lines, Load;
    var next := WithNewIncr(WithNewBase(EmptyManifest, rdb));
    var u, b := [f, g], UnitBytes([f, g]);
    Started(m, rdb);
    PairEndsOpen(m, f, g, k);
    var p := Start(rdb);
    CalmSnoc(m, p, Exec(u));
    CalmSnoc(m, p + [Exec(u)], Flush(k));
    CalmSnoc(m, p + [Exec(u)] + [Flush(k)], Crash);
    assert p + [Exec(u)] + [Flush(k)] + [Crash] == p + [Exec(u), Flush(k), Crash];
    FirstSound(rdb);
    LoadOfLines(next);
    LiveIsClosed(next.(dirty := false));
    var s := Run(m, p + [Exec(u), Flush(k), Crash]);
    assert s.disk[IncrFile(1)] == [] + b[..k] == b[..k];
  }
}
