// What the steps of the AOF protocol bring about: a rewrite that does not fail replaces the files, one that
// fails leaves them, and a unit whose bytes are written is recovered.
module AofProgress {
  import opened Basics
  import opened Resp
  import opened AofManifest
  import opened AofUnits
  import opened AofProtocol
  import opened AofSafety
  import AofLog
  import AofRewrite

  ghost function Names(infos: seq<AofInfo>): set<FileName> {
    set i | 0 <= i < |infos| :: infos[i].name
  }

  // The manifest that a server would load.
  ghost predicate Lists(s: State, am: Manifest) {
    s.manifest.Some? && Load(s.manifest.value) == Ok(am)
  }

  // Nothing that clients see has changed.
  ghost predicate SameData(v: Server, v': Server) {
    v'.data == v.data && v'.buf == v.buf
  }

  lemma ListsLines(s: State, am: Manifest)
    requires Sound(am) && s.manifest == Some(Lines(am))
    ensures Lists(s, am.(dirty := false))
  {
    hide Load, Lines, Sound;
    LoadOfLines(am);
  }

  lemma NamesConcat(a: seq<AofInfo>, b: seq<AofInfo>)
    ensures Names(a + b) == Names(a) + Names(b)
  {
    forall f | f in Names(a) + Names(b) ensures f in Names(a + b) {
      if f in Names(a) {
        var i :| 0 <= i < |a| && a[i].name == f;
        assert (a + b)[i].name == f;
      } else {
        var i :| 0 <= i < |b| && b[i].name == f;
        assert (a + b)[|a| + i].name == f;
      }
    }
  }

  lemma NamesHistory(infos: seq<AofInfo>)
    ensures Names(AllAsHistory(infos)) == Names(infos)
  {
    forall f | f in Names(infos) ensures f in Names(AllAsHistory(infos)) {
      var i :| 0 <= i < |infos| && infos[i].name == f;
      assert AllAsHistory(infos)[i].name == f;
    }
  }

  lemma NamesOne(info: AofInfo)
    ensures Names([info]) == {info.name} && Names([]) == {}
  {
    assert [info][0].name == info.name;
  }

  // ---------------------------------------------------------------------------------------------
  // Units
  // ---------------------------------------------------------------------------------------------

  // A unit changes the dataset, and is recovered once the buffer was written.
  lemma LoggedIsRecovered(m: Machine, steps: seq<Step>, u: Unit)
    requires Works(m) && Calm(m, steps) && UnitOk(m, u)
    requires Run(m, steps).server.Some? && Run(m, steps).server.value.pc.Idle?
    ensures var s := Run(m, steps); var s1 := Do(m, s, Exec(u));
      && s1.server.Some? && s1.server.value.data == ActAll(m, s.server.value.data, u) && s1.disk == s.disk
      && var s2 := Do(m, s1, Flush(|s1.server.value.buf|));
         && s2.server.Some? && s2.server.value.data == s1.server.value.data && s2.server.value.buf == []
         && Recover(m, s2.disk, s2.manifest) == Some(ActAll(m, s.server.value.data, u))
  {
    hide Works, Calm, Run, Recover, Durable, FileOk, LoadFiles, Load, UnitOk, ActAll, AofLog.Log, EmitAll, FeedsOf, Inv;
    var s := Run(m, steps);
    RunKeeps(m, steps);
    StepKeeps(m, s, Exec(u));
    var s1 := Do(m, s, Exec(u));
    FlushedIsRecovered(m, s1);
  }

  lemma FlushedIsRecovered(m: Machine, s: State)
    requires Works(m) && Inv(m, s) && s.server.Some? && s.server.value.pc.Idle?
    ensures var v := s.server.value; var s' := Do(m, s, Flush(|v.buf|));
      && s'.server == Some(v.(buf := [])) && Recover(m, s'.disk, s'.manifest) == Some(v.data)
  {
    hide Works, Recover, Durable, FileOk, LoadFiles, Load, Sound, AofLog.Log, Written, ActUnits;
    var v := s.server.value;
    var s' := Do(m, s, Flush(|v.buf|));
    Held(m, s, v);
    assert CanFlush(s, v, |v.buf|);
    StepKeeps(m, s, Flush(|v.buf|));
    InvRecovers(m, s');
    AllDurable(m, s', s'.server.value);
  }

  lemma AllDurable(m: Machine, s: State, v: Server)
    requires Works(m) && Inv(m, s) && s.server == Some(v) && v.pc.Idle? && v.buf == []
    ensures Durable(m, s.history) == v.data
  {
    hide Works, Durable, FileOk, LoadFiles, Load, Sound, AofLog.Log, Written, ActUnits;
    Held(m, s, v);
    SettleFile(m, s.history, s.disk[Last(v.am.incr).name], LoadFiles(m, s.disk, Closed(v.am)).value);
  }

  // A short write appends that many bytes, and what follows it loses none: the file is as it was, or the
  // bytes are in the file and not in the buffer.
  lemma ShortWriteLosesNothing(m: Machine, s: State, k: nat, ok: bool)
    requires s.server.Some? && CanFlush(s, s.server.value, k) && k < |s.server.value.buf|
    ensures var v, fd := s.server.value, Last(s.server.value.am.incr).name;
      var s1 := Do(m, s, Flush(k));
      var s2 := Do(m, s1, Undo(ok));
      && fd in s1.disk && s1.disk[fd] == s.disk[fd] + v.buf[..k]
      && s2.server.Some? && fd in s2.disk && s2.disk[fd] + s2.server.value.buf == s.disk[fd] + v.buf
      && (ok ==> s2.disk == s.disk && s2.server == s.server)
      && (!ok ==> s2.disk[fd] == s1.disk[fd])
      && s2.manifest == s.manifest && s2.server.value.pc.Idle? && s2.server.value.data == v.data
  {
    var v, fd := s.server.value, Last(s.server.value.am.incr).name;
    var s1 := Do(m, s, Flush(k));
    var v1 := s1.server.value;
    assert CanUndo(s1, v1);
    assert s1.disk[fd][..|s1.disk[fd]| - k] == s.disk[fd];
    assert s1.disk[fd := s.disk[fd]] == s.disk;
    assert v.buf[..k] + v.buf[k..] == v.buf;
  }

  // ---------------------------------------------------------------------------------------------
  // A rewrite begins
  // ---------------------------------------------------------------------------------------------

  // The server goes on in a new INCR file, and a child has the dataset of this moment.
  lemma RewriteBegins(m: Machine, steps: seq<Step>, pid: nat)
    requires Works(m) && Calm(m, steps) && Run(m, steps).server.Some?
    requires var v := Run(m, steps).server.value; v.pc.Idle? && v.child.None? && v.buf == []
    ensures var s := Run(m, steps); var v := s.server.value;
      var s1 := Do(m, Do(m, Do(m, s, BeginRewrite), OpenIncr(true)), PersistIncr(true, true, pid));
      && s1.server.Some? && SameData(v, s1.server.value) && s1.server.value.pc.Idle?
      && s1.server.value.child == Some(Child(pid, v.data, false))
      && Lists(s1, s1.server.value.am)
      && var am, fd := s1.server.value.am, IncrFile(v.am.incrSeq + 1);
         && am.base == v.am.base && am.history == v.am.history && am.incr[..|am.incr| - 1] == v.am.incr && Last(am.incr).name == fd
         && s1.disk == s.disk[fd := []]
         && Recover(m, s1.disk, s1.manifest) == Some(v.data)
  {
    hide Works, Calm, Run, Recover, Durable, FileOk, LoadFiles, Load, Lines, Sound, Inv;
    var s := Run(m, steps);
    var v := s.server.value;
    RunKeeps(m, steps);
    StepKeeps(m, s, BeginRewrite);
    var s1 := Do(m, s, BeginRewrite);
    StepKeeps(m, s1, OpenIncr(true));
    var s2 := Do(m, s1, OpenIncr(true));
    StepKeeps(m, s2, PersistIncr(true, true, pid));
    var s3 := Do(m, s2, PersistIncr(true, true, pid));
    SoundOf(m, s, v);
    NewIncrSound(v.am);
    ListsLines(s3, WithNewIncr(v.am));
    InvRecovers(m, s3);
    AllDurable(m, s3, s3.server.value);
  }

  lemma SoundOf(m: Machine, s: State, v: Server)
    requires Inv(m, s) && s.server == Some(v) && !Starting(v.pc)
    ensures Sound(v.am) && s.manifest.Some? && Load(s.manifest.value).Ok? && SameLive(v.am, Load(s.manifest.value).am)
  {
    hide Sound, Load, LoadFiles, FileOk;
  }

  // A new file that cannot be opened, or a manifest that cannot be written, changes no manifest.
  lemma RewriteDoesNotBegin(m: Machine, s: State, open: bool, pid: nat)
    requires s.server.Some? && s.server.value.pc.Idle? && s.server.value.child.None? && s.server.value.buf == []
    ensures var v := s.server.value; var s1 := Do(m, s, BeginRewrite);
      var s2 := if open then Do(m, Do(m, s1, OpenIncr(true)), PersistIncr(false, true, pid)) else Do(m, s1, OpenIncr(false));
      s2.manifest == s.manifest && s2.server == Some(v.(selected := -1))
  {}

  // ---------------------------------------------------------------------------------------------
  // A rewrite ends
  // ---------------------------------------------------------------------------------------------

  // The files of a rewrite: a new BASE file with the next number, and the INCR file that is being written. What
  // they replace is HISTORY, in front of what was: the INCR files in their order, and the BASE file.
  ghost predicate Replaces(am: Manifest, am': Manifest, rdb: bool) {
    && am.base.Some? && am.incr != []
    && am'.base == Some(AofInfo(BaseFile(am.baseSeq + 1, rdb), am.baseSeq + 1, Base))
    && am'.incr == [Last(am.incr)]
    && Names(am'.history) == {am.base.value.name} + Names(am.incr[..|am.incr| - 1]) + Names(am.history)
    && |am'.history| == |am.history| + |am.incr|
    && var n := |am.incr| - 1;
       && (forall i :: 0 <= i < n ==> am'.history[i] == AofInfo(am.incr[i].name, am.incr[i].num, Hist))
       && am'.history[n] == AofInfo(am.base.value.name, am.base.value.num, Hist)
       && am'.history[n + 1..] == am.history
  }

  lemma RewriteReplaces(am: Manifest, next: Manifest)
    requires Sound(am) && RewriteOf(am, next)
    ensures Replaces(am, next, next.base.value.name.rdb)
  {
    var past := am.incr[..|am.incr| - 1];
    var hist := [AsHistory(am.base.value)] + am.history;
    assert next.incr == am.incr[|am.incr| - 1..];
    assert next.history == AllAsHistory(past) + hist;
    NamesConcat(AllAsHistory(past), hist);
    NamesConcat([AsHistory(am.base.value)], am.history);
    NamesHistory(past);
    NamesOne(AsHistory(am.base.value));
  }

  // The manifest of a finished rewrite is persisted: it lists the file that rebuilds the dataset of the fork,
  // the open file, and what they replace as HISTORY.
  lemma RewriteTakesEffect(m: Machine, steps: seq<Step>, collect: bool)
    requires Works(m) && Calm(m, steps) && Run(m, steps).server.Some? && Run(m, steps).server.value.pc.PersistingRewrite?
    ensures var s := Run(m, steps); var v := s.server.value; var s' := Do(m, s, PersistRewrite(true, collect));
      && v.child.Some? && s.manifest.Some? && Load(s.manifest.value).Ok? && SameLive(v.am, Load(s.manifest.value).am)
      && s'.server.Some? && Lists(s', s'.server.value.am)
      && var am := s'.server.value.am;
         && (Replaces(v.am, am, true) || Replaces(v.am, am, false))
         && am.base.Some? && Rebuilds(m, s'.disk, am.base.value.name, v.child.value.snapshot)
         && s'.disk == s.disk && SameData(v, s'.server.value) && s'.server.value.child.None?
         && s'.server.value.pc == (if collect then Collecting else Idle)
         && Recover(m, s'.disk, s'.manifest) == Recover(m, s.disk, s.manifest)
  {
    hide Works, Calm, Run, Recover, Durable, FileOk, LoadFiles, Load, Lines, Sound, Replaces, RewriteOf;
    var s := Run(m, steps);
    var v := s.server.value;
    var s' := Do(m, s, PersistRewrite(true, collect));
    RunKeeps(m, steps);
    Held(m, s, v);
    InvRecovers(m, s);
    RewritePersisted(m, s, v, collect);
    StepKeeps(m, s, PersistRewrite(true, collect));
    InvRecovers(m, s');
  }

  lemma RewritePersisted(m: Machine, s: State, v: Server, collect: bool)
    requires Inv(m, s) && s.server == Some(v) && v.pc.PersistingRewrite?
    ensures v.child.Some? && v.pc.next.base.Some? && v.pc.next.base.value.name.BaseFile?
    ensures var next := v.pc.next; var am := next.(dirty := false); var s' := Do(m, s, PersistRewrite(true, collect));
      && Replaces(v.am, am, next.base.value.name.rdb) && Lists(s', am)
      && s' == s.(manifest := s'.manifest,
                  server := Some(v.(am := am, child := None, pc := if collect then Collecting else Idle)))
      && Rebuilds(m, s.disk, am.base.value.name, v.child.value.snapshot)
  {
    hide LoadWhole, FileOk, LoadFiles, Load, Lines, Sound, BufferOk;
    var next := v.pc.next;
    RewriteShape(v.am, next);
    RewriteReplaces(v.am, next);
    var s' := Do(m, s, PersistRewrite(true, collect));
    ListsLines(s', next);
  }

  // A rewrite that fails, at any point, leaves the manifest as it is and none of its files.
  lemma RewriteFails(m: Machine, s: State, collect: bool)
    requires Inv(m, s) && s.server.Some? && s.server.value.child.Some?
    ensures var v := s.server.value; var temp := TempRewrite(v.child.value.pid);
      && (v.pc.Idle? ==> var s' := Do(m, s, ChildDies);
            s'.manifest == s.manifest && s'.disk == s.disk - {temp} && s'.server == Some(v.(child := None)))
      && (v.pc.Idle? && v.child.value.finished ==> var s' := Do(m, s, RenameBase(false, collect));
            s'.manifest == s.manifest && s'.disk == s.disk - {temp} && s'.server == Some(v.(child := None)))
      && (v.pc.PersistingRewrite? ==> var s' := Do(m, s, PersistRewrite(false, collect));
            s'.manifest == s.manifest && s'.server == Some(v.(child := None, pc := Idle)) &&
            (forall f :: f in s'.disk <==> f in s.disk && f != v.pc.next.base.value.name) &&
            (forall f :: f in s'.disk ==> s'.disk[f] == s.disk[f]))
  {
    hide LoadWhole, FileOk, LoadFiles, Load, Sound, BufferOk;
  }

  // ---------------------------------------------------------------------------------------------
  // HISTORY is collected
  // ---------------------------------------------------------------------------------------------

  ghost function Unlinked(m: Machine, s: State, n: nat): State {
    if n == 0 then s else Do(m, Unlinked(m, s, n - 1), Unlink)
  }

  // The state after n files were deleted.
  ghost function Without(s: State, v: Server, n: nat): State
    requires n <= |v.am.history|
  {
    s.(disk := s.disk - Names(v.am.history[..n]),
       server := Some(v.(am := v.am.(history := v.am.history[n..], dirty := n > 0 || v.am.dirty))))
  }

  lemma {:induction false} Unlinks(m: Machine, s: State, v: Server, n: nat)
    requires s.server == Some(v) && v.pc.Collecting? && n <= |v.am.history|
    ensures Unlinked(m, s, n) == Without(s, v, n)
  {
    if n == 0 {
      assert v.am.history[..0] == [] && v.am.history[0..] == v.am.history;
      assert s.disk - {} == s.disk;
    } else {
      hide Do, Without;
      Unlinks(m, s, v, n - 1);
      UnlinkOne(m, s, v, n - 1);
    }
  }

  lemma UnlinkOne(m: Machine, s: State, v: Server, n: nat)
    requires s.server == Some(v) && v.pc.Collecting? && n < |v.am.history|
    ensures Do(m, Without(s, v, n), Unlink) == Without(s, v, n + 1)
  {
    hide Names;
    var hist := v.am.history;
    assert hist[n..][1..] == hist[n + 1..];
    assert hist[..n + 1] == hist[..n] + [hist[n]];
    NamesConcat(hist[..n], [hist[n]]);
    NamesOne(hist[n]);
    var names, f := Names(hist[..n]), hist[n].name;
    assert s.disk - names - {f} == s.disk - (names + {f});
  }

  lemma {:induction false} UnlinkedKeeps(m: Machine, s: State, n: nat)
    requires Works(m) && Inv(m, s)
    ensures Inv(m, Unlinked(m, s, n))
  {
    hide Works, Inv, Do;
    if n > 0 {
      UnlinkedKeeps(m, s, n - 1);
      StepKeeps(m, Unlinked(m, s, n - 1), Unlink);
    }
  }

  // A turn of the loop for every HISTORY file, and the manifest.
  ghost function Collected(m: Machine, s: State, n: nat): State {
    Do(m, Unlinked(m, s, n), PersistCollected(true))
  }

  // All HISTORY files are gone, and the manifest lists none. What can be recovered is the same.
  ghost predicate Emptied(m: Machine, s: State, s': State) {
    && s.server.Some?
    && var v := s.server.value;
       && s'.disk == s.disk - Names(v.am.history)
       && s'.server == Some(v.(pc := Idle, am := v.am.(history := [], dirty := false)))
       && Lists(s', v.am.(history := [], dirty := false))
       && Recover(m, s'.disk, s'.manifest) == Recover(m, s.disk, s.manifest)
  }

  lemma CollectBegins(m: Machine, s: State, v: Server)
    requires s.server == Some(v) && (v.pc.Collecting? || (v.pc.Idle? && v.am.history != []))
    ensures Do(m, s, BeginCollect) == s.(server := Some(v.(pc := Collecting)))
  {}

  lemma CollectPersists(m: Machine, s: State, v: Server)
    requires s.server == Some(v) && v.pc.Collecting? && v.am.history == []
    ensures Do(m, s, PersistCollected(true)) ==
      s.(manifest := Some(Lines(v.am)), server := Some(v.(pc := Idle, am := v.am.(dirty := false))))
  {
    hide Lines;
  }

  // Whether the collection follows a rewrite or is begun later.
  lemma CollectEmpties(m: Machine, s: State)
    requires Works(m) && Inv(m, s) && s.server.Some?
    requires var v := s.server.value; v.pc.Collecting? || (v.pc.Idle? && v.am.history != [])
    ensures Emptied(m, s, Collected(m, Do(m, s, BeginCollect), |s.server.value.am.history|))
  {
    hide Works, Recover, Durable, Load, Lines, Sound, Unlinked, Do, Inv, Names;
    var v := s.server.value;
    var n := |v.am.history|;
    CollectBegins(m, s, v);
    var s1 := Do(m, s, BeginCollect);
    var v1 := v.(pc := Collecting);
    Unlinks(m, s1, v1, n);
    assert v.am.history[..n] == v.am.history && v.am.history[n..] == [];
    var s2 := Unlinked(m, s1, n);
    var v2 := v1.(am := v.am.(history := [], dirty := n > 0 || v.am.dirty));
    assert s2.server == Some(v2);
    CollectPersists(m, s2, v2);
    StepKeeps(m, s, BeginCollect);
    UnlinkedKeeps(m, s1, n);
    StepKeeps(m, s2, PersistCollected(true));
    SoundOf(m, s2, v2);
    var s3 := Do(m, s2, PersistCollected(true));
    ListsLines(s3, v2.am);
    InvRecovers(m, s);
    InvRecovers(m, s3);
  }

  // ---------------------------------------------------------------------------------------------
  // From the child to the end
  // ---------------------------------------------------------------------------------------------

  lemma ChildEnds(m: Machine, s: State, server: AofRewrite.Server, rdb: bool)
    requires Works(m) && Inv(m, s) && s.server.Some?
    requires var v := s.server.value;
      v.pc.Idle? && v.child.Some? && !v.child.value.finished && Iterates(m, v.child.value.snapshot, server)
    ensures var v := s.server.value; var temp := TempRewrite(v.child.value.pid);
      var s' := Do(m, Do(m, s, ChildFinishes(server)), RenameBase(true, rdb));
      && Inv(m, s') && s'.manifest == s.manifest && s'.history == s.history
      && s'.disk == (s.disk - {temp})[BaseFile(v.am.baseSeq + 1, rdb) := Rewritten(m, server)]
      && s'.server.Some? && s'.server.value.pc.PersistingRewrite?
      && s'.server == Some(v.(child := Some(v.child.value.(finished := true)), pc := s'.server.value.pc))
      && IsBase(s'.server.value.pc.next.base) && s'.server.value.pc.next.base.value.name == BaseFile(v.am.baseSeq + 1, rdb)
  {
    hide Works, Iterates, Rewritten, Inv;
    var s1 := Do(m, s, ChildFinishes(server));
    StepKeeps(m, s, ChildFinishes(server));
    StepKeeps(m, s1, RenameBase(true, rdb));
    var temp := TempRewrite(s.server.value.child.value.pid);
    assert s1.disk - {temp} == s.disk - {temp};
  }

  // One file is there with a new content, some are gone, and the others are as they were.
  ghost predicate OnlyReplaced(before: Disk, after: Disk, base: FileName, gone: set<FileName>) {
    && (forall f :: f in after <==> f == base || (f in before && f !in gone))
    && (forall f :: f in after && f != base ==> after[f] == before[f])
  }

  // The child finishes, its file becomes the new BASE file, and the manifest is persisted.
  ghost function Switched(m: Machine, s: State, server: AofRewrite.Server, rdb: bool): State {
    Do(m, Do(m, Do(m, s, ChildFinishes(server)), RenameBase(true, rdb)), PersistRewrite(true, true))
  }

  // There are the new BASE file, which rebuilds the dataset of the fork, and the INCR file that is being
  // written. The files that they replace are gone, and what can be recovered is the same.
  ghost predicate Ended(m: Machine, s: State, s': State, rdb: bool) {
    && s.server.Some? && s'.server.Some? && s.server.value.child.Some? && s.server.value.am.incr != []
    && var v, v' := s.server.value, s'.server.value;
       var base := BaseFile(v.am.baseSeq + 1, rdb);
       && v' == v.(am := v'.am, child := None, pc := Idle) && Lists(s', v'.am)
       && v'.am.base == Some(AofInfo(base, v.am.baseSeq + 1, Base)) && v'.am.incr == [Last(v.am.incr)] && v'.am.history == []
       && Rebuilds(m, s'.disk, base, v.child.value.snapshot)
       && OnlyReplaced(s.disk, s'.disk, base, Names(v.am.history) + Names(Closed(v.am)) + {TempRewrite(v.child.value.pid)})
       && Recover(m, s'.disk, s'.manifest) == Recover(m, s.disk, s.manifest)
  }

  ghost predicate Writing(m: Machine, v: Server, server: AofRewrite.Server) {
    v.pc.Idle? && v.child.Some? && !v.child.value.finished && Iterates(m, v.child.value.snapshot, server)
  }

  lemma SwitchedIs(m: Machine, s: State, v: Server, server: AofRewrite.Server, rdb: bool)
    requires Works(m) && Inv(m, s) && s.server == Some(v) && Writing(m, v, server)
    ensures var s' := Switched(m, s, server, rdb); var temp := TempRewrite(v.child.value.pid);
      && Inv(m, s') && s'.history == s.history
      && s'.disk == (s.disk - {temp})[BaseFile(v.am.baseSeq + 1, rdb) := Rewritten(m, server)]
      && s'.server.Some? && s'.server == Some(v.(am := s'.server.value.am, child := None, pc := Collecting))
      && Replaces(v.am, s'.server.value.am, rdb)
  {
    hide Works, Inv, Iterates, Rewritten, Replaces, Do, Lists, Rebuilds;
    ChildEnds(m, s, server, rdb);
    var s2 := Do(m, Do(m, s, ChildFinishes(server)), RenameBase(true, rdb));
    RewritePersisted(m, s2, s2.server.value, true);
    StepKeeps(m, s2, PersistRewrite(true, true));
  }

  // A child that finishes, and no failure after it.
  lemma RewriteEnds(m: Machine, steps: seq<Step>, server: AofRewrite.Server, rdb: bool)
    requires Works(m) && Calm(m, steps) && Run(m, steps).server.Some? && Writing(m, Run(m, steps).server.value, server)
    ensures var s := Run(m, steps);
      Ended(m, s, Collected(m, Switched(m, s, server, rdb), |s.server.value.am.history| + |s.server.value.am.incr|), rdb)
  {
    hide Works, Calm, Run, Recover, Durable, Load, Lines, Sound, Inv, Iterates, Rewritten, Replaces, Collected, Switched, LoadWhole, Names, Closed, Lists;
    var s := Run(m, steps);
    var v := s.server.value;
    RunKeeps(m, steps);
    SoundOf(m, s, v);
    SwitchedIs(m, s, v, server, rdb);
    var s1 := Switched(m, s, server, rdb);
    ReplacedNames(v.am, s1.server.value.am, rdb);
    CollectBegins(m, s1, s1.server.value);
    CollectEmpties(m, s1);
    InvRecovers(m, s);
    InvRecovers(m, s1);
    SnapshotIsFull(m, s, v);
    IteratedLoads(m, v.child.value.snapshot, server);
    BaseIsNew(v.am, rdb);
  }

  lemma SnapshotIsFull(m: Machine, s: State, v: Server)
    requires Inv(m, s) && s.server == Some(v) && v.child.Some? && !Starting(v.pc)
    ensures Full(v.child.value.snapshot) && v.am.incr != []
  {
    hide LoadFiles, Load, Sound, FileOk, Full;
  }

  lemma ReplacedNames(am: Manifest, am': Manifest, rdb: bool)
    requires Replaces(am, am', rdb)
    ensures Names(am'.history) == Names(am.history) + Names(Closed(am)) && |am'.history| == |am.history| + |am.incr|
    ensures am'.base == Some(AofInfo(BaseFile(am.baseSeq + 1, rdb), am.baseSeq + 1, Base)) && am'.incr == [Last(am.incr)]
  {
    hide Names;
    assert Closed(am) == [am.base.value] + am.incr[..|am.incr| - 1];
    NamesConcat([am.base.value], am.incr[..|am.incr| - 1]);
    NamesOne(am.base.value);
  }

  lemma BaseIsNew(am: Manifest, rdb: bool)
    requires Sound(am)
    ensures BaseFile(am.baseSeq + 1, rdb) !in Names(am.history) + Names(Closed(am))
  {
    forall i | 0 <= i < |am.history| ensures am.history[i].name != BaseFile(am.baseSeq + 1, rdb) {
      assert Retired(am.history[i], am.baseSeq, am.incr[0].num);
    }
    FreeIsNotLive(am, BaseFile(am.baseSeq + 1, rdb));
  }

  // ---------------------------------------------------------------------------------------------
  // Servers start
  // ---------------------------------------------------------------------------------------------

  // After a crash the next server has the dataset of all units that were written as a whole.
  lemma RestartRecovers(m: Machine, steps: seq<Step>)
    requires Works(m) && Calm(m, steps)
    ensures var s := Do(m, Run(m, steps), Crash); var s' := Do(m, s, Restart);
      && s.server.None? && s.disk == Run(m, steps).disk
      && (!Torn(m, s) ==>
            && s'.server.Some? && Recover(m, s.disk, s.manifest) == Some(s'.server.value.data) && s'.server.value.buf == []
            && s'.server.value.pc == (if s.manifest.None? then StartingBase else Idle)
            && s'.manifest == s.manifest && Recover(m, s'.disk, s'.manifest) == Some(s'.server.value.data))
  {
    hide Works, Calm, Run, Recover, Durable, FileOk, LoadFiles, Load, Sound, Torn, Inv;
    RunKeeps(m, steps);
    var s := Do(m, Run(m, steps), Crash);
    StepKeeps(m, Run(m, steps), Crash);
    if !Torn(m, s) {
      RestartKeeps(m, s);
      InvRecovers(m, s);
      InvRecovers(m, DoRestart(m, s));
      if s.manifest.Some? { LiveIsSome(m, s); }
    }
  }

  lemma LiveIsSome(m: Machine, s: State)
    requires Inv(m, s) && s.manifest.Some?
    ensures Load(s.manifest.value).Ok? && Live(Load(s.manifest.value).am) != []
  {
    hide Load, LoadFiles, FileOk;
  }

  // The first server: a BASE file of an empty dataset and an empty INCR file, both with number 1.
  lemma FirstServerStarts(m: Machine, server: AofRewrite.Server, rdb: bool)
    requires Works(m) && Iterates(m, map[], server)
    ensures var s := Do(m, Do(m, Do(m, Do(m, INITIAL, Restart), StartBase(server, rdb)), StartIncr), StartManifest(true));
      && s.server.Some? && s.server.value.pc.Idle? && s.server.value.data == map[] && s.server.value.buf == []
      && Lists(s, s.server.value.am)
      && s.server.value.am == Manifest(Some(AofInfo(BaseFile(1, rdb), 1, Base)), [], [AofInfo(IncrFile(1), 1, Incr)], 1, 1, false)
      && s.disk == map[BaseFile(1, rdb) := Rewritten(m, server), IncrFile(1) := []]
      && Recover(m, s.disk, s.manifest) == Some(map[])
  {
    hide Works, Iterates, Rewritten, Load, Lines, LoadFiles, LoadWhole, Inv, Recover, Durable, DoRestart, Sound;
    FirstRestart(m);
    var s1 := Do(m, INITIAL, Restart);
    var s2 := Do(m, s1, StartBase(server, rdb));
    var s3 := Do(m, s2, StartIncr);
    var s4 := Do(m, s3, StartManifest(true));
    StepKeeps(m, s1, StartBase(server, rdb));
    StepKeeps(m, s2, StartIncr);
    StepKeeps(m, s3, StartManifest(true));
    FirstSound(rdb);
    ListsLines(s4, WithNewIncr(WithNewBase(EmptyManifest, rdb)));
    InvRecovers(m, s4);
    AllDurable(m, s4, s4.server.value);
  }

  lemma FirstRestart(m: Machine)
    ensures Do(m, INITIAL, Restart) == INITIAL.(server := Some(Server(EmptyManifest, map[], [], -1, None, StartingBase)))
    ensures Inv(m, Do(m, INITIAL, Restart))
  {}

  // What the client of a file executes.
  ghost function Done(m: Machine, disk: Disk, files: seq<AofInfo>): seq<(nat, Argv)>
    requires AllExist(disk, files)
  {
    if files == [] then []
    else Done(m, disk, files[..|files| - 1]) + AofLog.Load(m.look, disk[Last(files).name]).client.done
  }

  ghost predicate Sane(m: Machine, disk: Disk, files: seq<AofInfo>, cut: bool)
    requires AllExist(disk, files)
  {
    forall i :: 0 <= i < |files| ==>
      var status := AofLog.Load(m.look, disk[files[i].name]).status;
      !status.LoadFailed? && (status.LoadedTruncated? ==> cut && i == |files| - 1)
  }

  lemma {:induction false} FilesExactly(m: Machine, disk: Disk, files: seq<AofInfo>)
    requires AllExist(disk, files)
    ensures LoadFiles(m, disk, files) == if Sane(m, disk, files, false) then Some(Replay(m, map[], Done(m, disk, files))) else None
  {
    hide AofLog.Load, Replay;
    if files == [] {
      NoUnits(m, map[]);
    } else {
      var init := files[..|files| - 1];
      FilesExactly(m, disk, init);
      assert Sane(m, disk, files, false) <==> Sane(m, disk, init, false) && LoadWhole(m, map[], disk[Last(files).name]).Some?;
      ReplayConcat(m, map[], Done(m, disk, init), AofLog.Load(m.look, disk[Last(files).name]).client.done);
    }
  }

  // A server starts exactly if the manifest is accepted, every file that it names as BASE or INCR exists, none has
  // damage, and none but the last is cut off. Then it has executed all files in order.
  lemma StartsExactly(m: Machine, disk: Disk, lines: seq<AofInfo>)
    ensures Recover(m, disk, Some(lines)) ==
      if Load(lines).Ok? && AllExist(disk, Live(Load(lines).am)) && Sane(m, disk, Live(Load(lines).am), true)
      then Some(Replay(m, map[], Done(m, disk, Live(Load(lines).am)))) else None
  {
    hide AofLog.Load, Replay, Load, LoadFiles;
    if Load(lines).Ok? && AllExist(disk, Live(Load(lines).am)) {
      var files := Live(Load(lines).am);
      if files == [] {
        NoUnits(m, map[]);
      } else {
        var init := files[..|files| - 1];
        FilesExactly(m, disk, init);
        assert Sane(m, disk, files, true) <==>
          Sane(m, disk, init, false) && !AofLog.Load(m.look, disk[Last(files).name]).status.LoadFailed?;
        ReplayConcat(m, map[], Done(m, disk, init), AofLog.Load(m.look, disk[Last(files).name]).client.done);
      }
    }
  }
}
