// What every reachable state of the AOF protocol keeps.
module AofSafety {
  import opened Basics
  import opened Resp
  import opened AofManifest
  import opened AofUnits
  import opened AofProtocol
  import AofLog
  import AofRewrite
  import AofRebuild
  import AofSnapshot

  // ---------------------------------------------------------------------------------------------
  // The file that is open
  // ---------------------------------------------------------------------------------------------

  // The ends are where the units end.
  ghost predicate EndsOk(h: History) {
    |h.ends| == |h.units| && forall i :: 0 <= i < |h.ends| ==> h.ends[i] == |AofLog.Log(Written(h.units[..i + 1]))|
  }

  // What the history says of the log.
  ghost predicate HistoryOk(m: Machine, h: History) {
    && AofLog.Loadable(m.look, h.head) && !AofLog.Run(m.look, h.head).multi
    && AllUnits(m, h.units) && EndsOk(h) && Full(h.start)
    && h.written <= |AofLog.Log(Written(h.units))|
  }

  // The file has the log of the history, as far as it was written, and the files before it have the rest.
  ghost predicate FileOk(m: Machine, h: History, file: Bytes, d: Keys) {
    && HistoryOk(m, h)
    && file == AofLog.Log(h.head) + AofLog.Log(Written(h.units))[..h.written]
    && h.start == Replay(m, d, AofLog.Run(m.look, h.head).done)
  }

  lemma WrittenSnoc(us: seq<Unit>, u: Unit)
    ensures Written(us + [u]) == Written(us) + EmitAll(SelectedIn(us), FeedsOf(u))
    ensures SelectedIn(us + [u]) == SelectedAfter(SelectedIn(us), FeedsOf(u))
    ensures AofLog.Log(Written(us + [u])) == AofLog.Log(Written(us)) + AofLog.Log(EmitAll(SelectedIn(us), FeedsOf(u)))
  {
    hide AofLog.Log;
    assert (us + [u])[..|us|] == us;
    AofLog.LogConcat(Written(us), EmitAll(SelectedIn(us), FeedsOf(u)));
  }

  lemma {:induction false} CompleteIsWhole(h: History, k: nat, w: nat)
    requires EndsOk(h) && k <= |h.units|
    ensures Complete(h.ends[..k], w) == WholeUnits(h.units[..k], w)
  {
    hide AofLog.Log, Written;
    if k > 0 {
      CompleteIsWhole(h, k - 1, w);
      assert h.ends[..k][..k - 1] == h.ends[..k - 1] && h.units[..k][..k - 1] == h.units[..k - 1];
      assert h.ends[..k][k - 1] == h.ends[k - 1] == |AofLog.Log(Written(h.units[..k]))|;
    }
  }

  lemma DurableIs(m: Machine, h: History)
    requires EndsOk(h)
    ensures Durable(m, h) == ActUnits(m, h.start, h.units[..WholeUnits(h.units, h.written)])
  {
    hide ActUnits, WholeUnits;
    CompleteIsWhole(h, |h.units|, h.written);
    assert h.ends[..|h.units|] == h.ends && h.units[..|h.units|] == h.units;
  }

  // Loading the file gives the units that were written as a whole.
  lemma FileLoads(m: Machine, h: History, file: Bytes, d: Keys)
    requires Works(m) && FileOk(m, h, file, d)
    ensures var r := AofLog.Load(m.look, file);
      && !r.status.LoadFailed? && Replay(m, d, r.client.done) == Durable(m, h)
  {
    hide Works, Replay, AofLog.Load, AofLog.Run, AofLog.Log, Written, EndsOk, AllUnits, Durable, Full, AofLog.Loadable, AofLog.Whole, WholeUnits, ActUnits, AofLog.CutAt;
    var cs, n := h.head + Written(h.units), |AofLog.Log(h.head)| + h.written;
    FileIsPrefix(m, h, file);
    AofLog.LoadRuns(m.look, cs, n);
    CutUnits(m, d, h.head, h.units, h.written);
    DurableIs(m, h);
  }

  lemma FileIsPrefix(m: Machine, h: History, file: Bytes)
    requires Works(m) && HistoryOk(m, h)
    requires file == AofLog.Log(h.head) + AofLog.Log(Written(h.units))[..h.written]
    ensures var cs := h.head + Written(h.units); var n := |AofLog.Log(h.head)| + h.written;
      AofLog.Loadable(m.look, cs) && n <= |AofLog.Log(cs)| && file == AofLog.Log(cs)[..n]
  {
    hide Works, AofLog.Log, Written, AofLog.Run, EndsOk, Full, Resp.Fits;
    AofLog.LogConcat(h.head, Written(h.units));
    WrittenLoads(m, h.units);
  }

  // A file that was written as a whole is loaded as a whole.
  lemma WholeFileLoads(m: Machine, h: History, file: Bytes, d: Keys)
    requires FileOk(m, h, file, d) && h.units == []
    ensures LoadWhole(m, d, file) == Some(h.start)
  {
    hide Replay, AofLog.Load, AofLog.Run, AofLog.Log, AofLog.Loadable, AofLog.Whole, Full, AofLog.CutAt;
    AofLog.RunNothing(m.look);
    NothingWritten();
    var n := |AofLog.Log(h.head)|;
    assert file == AofLog.Log(h.head)[..n];
    AofLog.LoadRuns(m.look, h.head, n);
    AofLog.WholeAt(h.head, |h.head|);
    assert h.head[..|h.head|] == h.head;
  }

  lemma ExecFile(m: Machine, h: History, file: Bytes, d: Keys, u: Unit, bytes: Bytes, end: nat)
    requires FileOk(m, h, file, d) && UnitOk(m, u)
    requires bytes == AofLog.Log(EmitAll(SelectedIn(h.units), FeedsOf(u)))
    requires end == (if h.ends == [] then 0 else h.ends[|h.ends| - 1]) + |bytes|
    ensures FileOk(m, h.(units := h.units + [u], ends := h.ends + [end]), file, d)
  {
    hide Replay, AofLog.Run, AofLog.Log, AofLog.Loadable, Full, Written, EmitAll, FeedsOf, UnitOk;
    var h' := h.(units := h.units + [u], ends := h.ends + [end]);
    WrittenSnoc(h.units, u);
    assert AofLog.Log(Written(h'.units))[..h.written] == AofLog.Log(Written(h.units))[..h.written];
    AofLog.RunNothing(m.look);
    NothingWritten();
    assert h.units[..|h.units|] == h.units;
    forall i | 0 <= i < |h'.ends| ensures h'.ends[i] == |AofLog.Log(Written(h'.units[..i + 1]))| {
      if i < |h.ends| {
        assert h'.units[..i + 1] == h.units[..i + 1];
      } else {
        assert h'.units[..i + 1] == h'.units;
      }
    }
  }

  lemma WriteFile(m: Machine, h: History, file: Bytes, d: Keys, w: nat)
    requires FileOk(m, h, file, d) && w <= |AofLog.Log(Written(h.units))|
    ensures FileOk(m, h.(written := w), AofLog.Log(h.head) + AofLog.Log(Written(h.units))[..w], d)
  {}

  // A history without pending bytes can be told from now on.
  lemma SettleFile(m: Machine, h: History, file: Bytes, d: Keys)
    requires Works(m) && FileOk(m, h, file, d) && h.written == |AofLog.Log(Written(h.units))|
    ensures FileOk(m, Settled(m, h), file, d) && Durable(m, h) == ActUnits(m, h.start, h.units) == Durable(m, Settled(m, h))
  {
    hide Works, Replay, AofLog.Run, AofLog.Log, Full, Written, AofLog.Loadable, ActUnits, Resting, InDb;
    var h' := Settled(m, h);
    DurableIs(m, h);
    assert h.units[..|h.units|] == h.units;
    RunUnits(m, d, h.head, h.units);
    RestingMulti(AofLog.Run(m.look, h'.head));
    FileIsPrefix(m, h, file);
    ActUnitsFull(m, h.start, h.units);
    AofLog.RunNothing(m.look);
    NothingWritten();
    AofLog.LogConcat(h.head, Written(h.units));
    DurableIs(m, h');
    NoUnits(m, h'.start);
  }

  lemma RestingMulti(c: AofLog.Client)
    requires Resting(c)
    ensures !c.multi
  {}

  lemma NoUnits(m: Machine, d: Keys)
    ensures ActUnits(m, d, []) == d && Replay(m, d, []) == d
  {}

  // What is left of the file after it was loaded and truncated, unless it ends inside of a transaction.
  lemma ResumeFile(m: Machine, h: History, file: Bytes, d: Keys)
    requires Works(m) && FileOk(m, h, file, d) && !EndsOpen(m.look, file)
    ensures var h' := Resumed(m, h, |Cut(m, file)|);
      FileOk(m, h', Cut(m, file), d) && Durable(m, h') == h'.start == Durable(m, h)
  {
    hide Works, Replay, AofLog.Load, AofLog.Run, AofLog.Log, Written, AllUnits, Durable, Full, AofLog.Whole, AofLog.CutAt, EndsOpen, ActUnits, WholeUnits;
    var cs, n := h.head + Written(h.units), |AofLog.Log(h.head)| + h.written;
    FileIsPrefix(m, h, file);
    FileLoads(m, h, file, d);
    AofLog.LoadRuns(m.look, cs, n);
    LeftOf(m.look, cs, n);
    var j := AofLog.CutAt(m.look, cs, n);
    AofLog.WholeAt(cs, j);
    var h' := Resumed(m, h, |Cut(m, file)|);
    assert h'.head == cs[..j];
    DurableFull(m, h);
    AofLog.RunNothing(m.look);
    NothingWritten();
    NoHistoryUnits(m);
    DurableIs(m, h');
    NoUnits(m, h'.start);
  }

  lemma NoHistoryUnits(m: Machine)
    ensures AllUnits(m, [])
  {}

  lemma DurableFull(m: Machine, h: History)
    requires Works(m) && HistoryOk(m, h)
    ensures Full(Durable(m, h))
  {
    hide Works, Full, ActUnits, AofLog.Log, Written, AofLog.Run, AofLog.Loadable;
    DurableIs(m, h);
    ActUnitsFull(m, h.start, h.units[..WholeUnits(h.units, h.written)]);
  }

  // ---------------------------------------------------------------------------------------------
  // The invariant
  // ---------------------------------------------------------------------------------------------

  // Everything but the INCR file that is being written.
  function Closed(am: Manifest): seq<AofInfo>
    requires am.incr != []
  {
    Live(am)[..|Live(am)| - 1]
  }

  // The disk holds the live files of am, and they hold what the history says.
  ghost predicate Holds(m: Machine, disk: Disk, am: Manifest, h: History) {
    && am.incr != [] && AllExist(disk, Closed(am)) && Last(am.incr).name in disk
    && LoadFiles(m, disk, Closed(am)).Some?
    && FileOk(m, h, disk[Last(am.incr).name], LoadFiles(m, disk, Closed(am)).value)
  }

  // A file that loads as a whole to a dataset.
  ghost predicate Rebuilds(m: Machine, disk: Disk, f: FileName, d: Keys) {
    f in disk && LoadWhole(m, map[], disk[f]) == Some(d)
  }

  ghost predicate DiskInv(m: Machine, s: State) {
    match s.manifest
    case None => s.history == NO_HISTORY && (IncrFile(1) in s.disk ==> s.disk[IncrFile(1)] == [])
    case Some(lines) => Load(lines).Ok? && Sound(Load(lines).am) && Holds(m, s.disk, Load(lines).am, s.history)
  }

  // The server's manifest may have dropped HISTORY entries that the one on disk still lists.
  ghost predicate SameLive(am: Manifest, onDisk: Manifest) {
    am.base == onDisk.base && am.incr == onDisk.incr && am.baseSeq == onDisk.baseSeq && am.incrSeq == onDisk.incrSeq
  }

  predicate IsBase(info: Option<AofInfo>) { info.Some? && info.value.name.BaseFile? }

  // The manifest that a finished rewrite switches to.
  predicate RewriteOf(am: Manifest, next: Manifest) {
    IsBase(next.base) && next == WithIncrAsHistory(WithNewBase(am, next.base.value.name.rdb), true)
  }

  ghost predicate StartInv(m: Machine, s: State, v: Server) {
    && s.manifest.None? && v.am == EmptyManifest && v.data == map[] && v.buf == [] && v.selected == -1 && v.child.None?
    && match v.pc
       case StartingIncr(next) =>
         IsBase(next.base) && next == WithNewBase(EmptyManifest, next.base.value.name.rdb) &&
         Rebuilds(m, s.disk, next.base.value.name, map[])
       case StartingManifest(next) =>
         IsBase(next.base) && next == WithNewIncr(WithNewBase(EmptyManifest, next.base.value.name.rdb)) &&
         Rebuilds(m, s.disk, next.base.value.name, map[]) &&
         IncrFile(1) in s.disk && s.disk[IncrFile(1)] == []
       case _ => true
  }

  // The buffer has what was fed and not written, and what was written but may still be undone.
  ghost predicate BufferOk(m: Machine, v: Server, h: History) {
    var back := if v.pc.Undoing? then v.pc.k else 0;
    && back <= h.written <= |AofLog.Log(Written(h.units))|
    && v.buf == AofLog.Log(Written(h.units))[h.written - back..]
    && v.selected == SelectedIn(h.units)
    && v.data == ActUnits(m, h.start, h.units)
  }

  ghost predicate ChildInv(m: Machine, s: State, v: Server) {
    v.child.Some? ==>
      && v.am.incr != [] && AllExist(s.disk, Closed(v.am))
      && LoadFiles(m, s.disk, Closed(v.am)) == Some(v.child.value.snapshot) && Full(v.child.value.snapshot)
      && (v.child.value.finished && !v.pc.PersistingRewrite? ==>
            Rebuilds(m, s.disk, TempRewrite(v.child.value.pid), v.child.value.snapshot))
  }

  ghost predicate PcInv(m: Machine, s: State, v: Server) {
    match v.pc
    case OpeningIncr(next) => next == WithNewIncr(v.am) && s.history.units == [] && v.child.None?
    case PersistingIncr(next) =>
      next == WithNewIncr(v.am) && s.history.units == [] && v.child.None? &&
      Last(next.incr).name in s.disk && s.disk[Last(next.incr).name] == []
    case PersistingRewrite(next) =>
      v.child.Some? &&
      RewriteOf(v.am, next) &&
      Rebuilds(m, s.disk, next.base.value.name, v.child.value.snapshot)
    case _ => true
  }

  ghost predicate Starting(pc: Pc) { pc.StartingBase? || pc.StartingIncr? || pc.StartingManifest? }

  ghost predicate ServerInv(m: Machine, s: State, v: Server) {
    if Starting(v.pc) then StartInv(m, s, v)
    else
      && s.manifest.Some? && Load(s.manifest.value).Ok?
      && Sound(v.am) && SameLive(v.am, Load(s.manifest.value).am)
      && BufferOk(m, v, s.history)
      && ChildInv(m, s, v)
      && PcInv(m, s, v)
  }

  ghost predicate Inv(m: Machine, s: State) {
    DiskInv(m, s) && (s.server.Some? ==> ServerInv(m, s, s.server.value))
  }

  // ---------------------------------------------------------------------------------------------
  // Facts about live files
  // ---------------------------------------------------------------------------------------------

  lemma LiveNames(am: Manifest, i: nat)
    requires Sound(am) && i < |Live(am)|
    ensures i == 0 ==> Live(am)[i].name.BaseFile? && Live(am)[i].name.num == am.baseSeq
    ensures i > 0 ==> Live(am)[i] == am.incr[i - 1] && Live(am)[i].name.IncrFile? && am.incr[0].num <= Live(am)[i].name.num <= am.incrSeq
    ensures 0 < i < |Live(am)| - 1 ==> Live(am)[i].name.num < am.incrSeq
  {
    if i > 0 { assert Live(am)[i] == am.incr[i - 1]; }
  }

  lemma SameLiveFiles(am: Manifest, onDisk: Manifest)
    requires SameLive(am, onDisk)
    ensures Live(am) == Live(onDisk)
  {}

  lemma {:induction false} LoadFilesFrame(m: Machine, disk: Disk, disk': Disk, files: seq<AofInfo>)
    requires AllExist(disk, files)
    requires forall i :: 0 <= i < |files| ==> files[i].name in disk' && disk'[files[i].name] == disk[files[i].name]
    ensures AllExist(disk', files) && LoadFiles(m, disk', files) == LoadFiles(m, disk, files)
    decreases |files|
  {
    hide LoadWhole;
    if files != [] {
      LoadFilesFrame(m, disk, disk', files[..|files| - 1]);
    }
  }

  // The kinds of name that are never live.
  predicate Free(am: Manifest, f: FileName)
    requires am.incr != []
  {
    match f
    case BaseFile(n, _) => n != am.baseSeq
    case IncrFile(n) => n < am.incr[0].num || am.incrSeq < n
    case TempRewrite(_) => true
  }

  lemma LiveIsClosed(am: Manifest)
    requires Sound(am)
    ensures am.incr != [] && Live(am) == Closed(am) + [Last(am.incr)] && |Live(am)| >= 2
  {
    assert Live(am)[|Live(am)| - 1] == Last(am.incr);
  }

  lemma FreeIsNotLive(am: Manifest, f: FileName)
    requires Sound(am) && Free(am, f)
    ensures forall i :: 0 <= i < |Closed(am)| ==> Closed(am)[i].name != f
    ensures Last(am.incr).name != f
  {
    LiveIsClosed(am);
    forall i | 0 <= i < |Live(am)| ensures Live(am)[i].name != f {
      LiveNames(am, i);
    }
    assert Live(am)[|Live(am)| - 1] == Last(am.incr);
  }

  // The open file is none of those that are closed.
  lemma OpenIsNotClosed(am: Manifest)
    requires Sound(am)
    ensures forall i :: 0 <= i < |Closed(am)| ==> Closed(am)[i].name != Last(am.incr).name
  {
    forall i | 0 <= i < |Closed(am)| ensures Closed(am)[i].name != Last(am.incr).name {
      LiveNames(am, i);
    }
  }

  ghost predicate SameBut(disk: Disk, disk': Disk, f: FileName) {
    forall g :: g != f ==> (g in disk <==> g in disk') && (g in disk ==> disk'[g] == disk[g])
  }

  // A file whose name is free can be created, overwritten or removed.
  lemma TouchHolds(m: Machine, disk: Disk, disk': Disk, am: Manifest, h: History, f: FileName)
    requires Sound(am) && Holds(m, disk, am, h) && SameBut(disk, disk', f) && Free(am, f)
    ensures Holds(m, disk', am, h) && LoadFiles(m, disk', Closed(am)) == LoadFiles(m, disk, Closed(am))
  {
    hide FileOk, Sound, Live, LoadFiles, Free;
    FreeIsNotLive(am, f);
    LoadFilesFrame(m, disk, disk', Closed(am));
  }

  // The open file is written.
  lemma WriteHolds(m: Machine, disk: Disk, am: Manifest, h: History, file: Bytes, h': History)
    requires Sound(am) && Holds(m, disk, am, h)
    requires FileOk(m, h', file, LoadFiles(m, disk, Closed(am)).value)
    ensures var disk' := disk[Last(am.incr).name := file];
      Holds(m, disk', am, h') && LoadFiles(m, disk', Closed(am)) == LoadFiles(m, disk, Closed(am))
  {
    hide FileOk, Sound, Live, LoadFiles;
    OpenIsNotClosed(am);
    LoadFilesFrame(m, disk, disk[Last(am.incr).name := file], Closed(am));
  }

  // What a server knows of its disk.
  lemma Held(m: Machine, s: State, v: Server)
    requires Inv(m, s) && s.server == Some(v) && !Starting(v.pc)
    ensures Sound(v.am) && Holds(m, s.disk, v.am, s.history)
  {
    hide FileOk, LoadFiles, Load, Sound, PcInv, BufferOk;
    SameLiveFiles(v.am, Load(s.manifest.value).am);
  }

  // A step of a running server that leaves the manifest file alone.
  lemma Went(m: Machine, s: State, v: Server, s': State, v': Server)
    requires Inv(m, s) && s.server == Some(v) && !Starting(v.pc)
    requires s'.server == Some(v') && s'.manifest == s.manifest && !Starting(v'.pc) && Sound(v'.am) && SameLive(v'.am, v.am)
    requires Holds(m, s'.disk, v'.am, s'.history)
    requires BufferOk(m, v', s'.history) && ChildInv(m, s', v') && PcInv(m, s', v')
    ensures Inv(m, s')
  {
    hide FileOk, LoadFiles, Load, Sound, PcInv, BufferOk, ChildInv;
    SameLiveFiles(v'.am, Load(s.manifest.value).am);
  }

  // ---------------------------------------------------------------------------------------------
  // Steps on the open file
  // ---------------------------------------------------------------------------------------------

  lemma ExecKeeps(m: Machine, s: State, v: Server, u: Unit)
    requires Inv(m, s) && s.server == Some(v) && v.pc.Idle? && UnitOk(m, u)
    ensures Inv(m, DoExec(m, s, v, u))
  {
    hide FileOk, LoadFiles, Load, Sound, UnitOk, EmitAll, FeedsOf, AofLog.Log, ActAll, Full, Live, SameLive, BufferOk;
    var s' := DoExec(m, s, v, u);
    var h := s.history;
    Held(m, s, v);
    var bytes := AofLog.Log(EmitAll(v.selected, FeedsOf(u)));
    ExecBuffer(m, v, h, u, bytes, s'.server.value, s'.history);
    ExecFile(m, h, s.disk[Last(v.am.incr).name], LoadFiles(m, s.disk, Closed(v.am)).value, u, bytes, s'.history.ends[|h.ends|]);
    SameLiveItself(v.am);
    Went(m, s, v, s', s'.server.value);
  }

  lemma ExecBuffer(m: Machine, v: Server, h: History, u: Unit, bytes: Bytes, v': Server, h': History)
    requires BufferOk(m, v, h) && v.pc.Idle? && bytes == AofLog.Log(EmitAll(v.selected, FeedsOf(u)))
    requires v' == v.(data := ActAll(m, v.data, u), buf := v.buf + bytes, selected := SelectedAfter(v.selected, FeedsOf(u)))
    requires h' == h.(units := h.units + [u], ends := h'.ends)
    ensures BufferOk(m, v', h') && v.selected == SelectedIn(h.units)
  {
    hide Written, EmitAll, FeedsOf, AofLog.Log, ActAll, SelectedIn, SelectedAfter;
    WrittenSnoc(h.units, u);
    assert (h.units + [u])[..|h.units|] == h.units;
  }

  lemma SameLiveItself(am: Manifest)
    ensures SameLive(am, am)
  {}

  // However many bytes are written.
  lemma FlushKeeps(m: Machine, s: State, v: Server, k: nat)
    requires Inv(m, s) && s.server == Some(v) && CanFlush(s, v, k)
    ensures Inv(m, DoFlush(s, v, k))
  {
    hide LoadFiles, Load, Sound, FileOk, Full, Live, SameLive, BufferOk;
    var s' := DoFlush(s, v, k);
    var h, fd := s.history, Last(v.am.incr).name;
    Held(m, s, v);
    FlushFile(m, v, h, s.disk[fd], LoadFiles(m, s.disk, Closed(v.am)).value, k, s'.server.value);
    WriteHolds(m, s.disk, v.am, h, s'.disk[fd], s'.history);
    ChildStays(m, s, v, s', s'.server.value);
    SameLiveItself(v.am);
    Went(m, s, v, s', s'.server.value);
  }

  lemma FlushFile(m: Machine, v: Server, h: History, file: Bytes, d: Keys, k: nat, v': Server)
    requires FileOk(m, h, file, d) && BufferOk(m, v, h) && v.pc.Idle? && k <= |v.buf|
    requires v' == if k == |v.buf| then v.(buf := []) else v.(pc := Undoing(k))
    ensures var h' := h.(written := h.written + k); FileOk(m, h', file + v.buf[..k], d) && BufferOk(m, v', h')
  {
    hide Written, AofLog.Log, HistoryOk, ActUnits, Replay, AofLog.Run;
    var all := AofLog.Log(Written(h.units));
    assert file + v.buf[..k] == AofLog.Log(h.head) + all[..h.written + k];
    WriteFile(m, h, file, d, h.written + k);
  }

  // The child does not depend on the open file, nor on the buffer.
  lemma ChildStays(m: Machine, s: State, v: Server, s': State, v': Server)
    requires ChildInv(m, s, v) && v'.am == v.am && v'.child == v.child && v'.pc.PersistingRewrite? == v.pc.PersistingRewrite?
    requires Sound(v.am) && AllExist(s.disk, Closed(v.am)) && AllExist(s'.disk, Closed(v.am))
    requires LoadFiles(m, s'.disk, Closed(v.am)) == LoadFiles(m, s.disk, Closed(v.am))
    requires SameBut(s.disk, s'.disk, Last(v.am.incr).name)
    ensures ChildInv(m, s', v')
  {
    hide LoadFiles, LoadWhole, Full, Live;
  }

  lemma UndoKeeps(m: Machine, s: State, v: Server, ok: bool)
    requires Inv(m, s) && s.server == Some(v) && CanUndo(s, v)
    ensures Inv(m, DoUndo(s, v, ok))
  {
    hide LoadFiles, Load, Sound, Written, AofLog.Log, HistoryOk, Full, Live, SameLive, ActUnits;
    var s' := DoUndo(s, v, ok);
    var h, fd := s.history, Last(v.am.incr).name;
    Held(m, s, v);
    SameLiveItself(v.am);
    if ok {
      var d, all := LoadFiles(m, s.disk, Closed(v.am)).value, AofLog.Log(Written(h.units));
      var w := h.written - v.pc.k;
      assert s'.disk[fd] == AofLog.Log(h.head) + all[..w];
      WriteFile(m, h, s.disk[fd], d, w);
      WriteHolds(m, s.disk, v.am, h, s'.disk[fd], s'.history);
      ChildStays(m, s, v, s', s'.server.value);
    }
    assert BufferOk(m, s'.server.value, s'.history);
    Went(m, s, v, s', s'.server.value);
  }

  lemma BeginRewriteKeeps(m: Machine, s: State, v: Server)
    requires Works(m) && Inv(m, s) && s.server == Some(v) && v.pc.Idle? && v.child.None? && v.buf == []
    ensures Inv(m, DoBeginRewrite(m, s, v))
  {
    hide Works, LoadFiles, Load, Sound, Written, AofLog.Log, FileOk, Full, Live, SameLive, ActUnits, Durable;
    var s' := DoBeginRewrite(m, s, v);
    var h := s.history;
    Held(m, s, v);
    SettleFile(m, h, s.disk[Last(v.am.incr).name], LoadFiles(m, s.disk, Closed(v.am)).value);
    SameLiveItself(v.am);
    AofLog.RunNothing(m.look);
    NothingWritten();
    NoUnits(m, s'.history.start);
    Went(m, s, v, s', s'.server.value);
  }

  // ---------------------------------------------------------------------------------------------
  // Steps on other files
  // ---------------------------------------------------------------------------------------------

  // A running server that only changes a file with a free name.
  lemma Touched(m: Machine, s: State, v: Server, s': State, v': Server, f: FileName)
    requires Inv(m, s) && s.server == Some(v) && !Starting(v.pc) && Free(v.am, f) && SameBut(s.disk, s'.disk, f)
    requires s'.manifest == s.manifest && s'.history == s.history && s'.server == Some(v') && !Starting(v'.pc)
    requires Sound(v'.am) && SameLive(v'.am, v.am)
    requires v'.buf == v.buf && v'.selected == v.selected && v'.data == v.data && !v.pc.Undoing? && !v'.pc.Undoing?
    requires v'.child.Some? ==>
      && v.child.Some? && v'.child.value.snapshot == v.child.value.snapshot
      && (v'.child.value.finished && !v'.pc.PersistingRewrite? ==>
            Rebuilds(m, s'.disk, TempRewrite(v'.child.value.pid), v'.child.value.snapshot))
    requires PcInv(m, s', v')
    ensures Inv(m, s')
  {
    hide LoadFiles, Load, Sound, FileOk, Full, PcInv, Free, LoadWhole;
    Held(m, s, v);
    TouchHolds(m, s.disk, s'.disk, v.am, s.history, f);
    SameLiveFiles(v'.am, v.am);
    Went(m, s, v, s', v');
  }

  lemma OpenIncrKeeps(m: Machine, s: State, v: Server)
    requires Inv(m, s) && s.server == Some(v) && v.pc.OpeningIncr?
    ensures v.pc.next.incr != []
    ensures Inv(m, DoOpenIncr(s, v))
  {
    hide LoadFiles, Load, Holds, BufferOk, Rebuilds;
    SameLiveItself(v.am);
    Touched(m, s, v, DoOpenIncr(s, v), DoOpenIncr(s, v).server.value, Last(v.pc.next.incr).name);
  }

  lemma ChildKeeps(m: Machine, s: State, v: Server, bytes: Bytes, finished: bool)
    requires Inv(m, s) && s.server == Some(v) && v.pc.Idle? && v.child.Some?
    requires finished ==> LoadWhole(m, map[], bytes) == Some(v.child.value.snapshot)
    ensures Inv(m, DoChild(s, v, bytes, finished))
  {
    hide LoadFiles, Load, Holds, BufferOk, LoadWhole, Sound;
    SameLiveItself(v.am);
    Touched(m, s, v, DoChild(s, v, bytes, finished), DoChild(s, v, bytes, finished).server.value, TempRewrite(v.child.value.pid));
  }

  // The file that the child leaves rebuilds the dataset of the fork.
  lemma ChildFinishesKeeps(m: Machine, s: State, v: Server, server: AofRewrite.Server)
    requires Works(m) && Inv(m, s) && s.server == Some(v) && v.pc.Idle? && v.child.Some? && Iterates(m, v.child.value.snapshot, server)
    ensures Inv(m, DoChild(s, v, Rewritten(m, server), true))
  {
    hide Works, LoadFiles, Load, Holds, BufferOk, Sound, AofRebuild.Dataset, AofRebuild.ServerOk, AofRebuild.ServerFits, Rewritten, Full;
    IteratedLoads(m, v.child.value.snapshot, server);
    ChildKeeps(m, s, v, Rewritten(m, server), true);
  }

  lemma IteratedLoads(m: Machine, d: Keys, server: AofRewrite.Server)
    requires Works(m) && Full(d) && Iterates(m, d, server)
    ensures LoadWhole(m, map[], Rewritten(m, server)) == Some(d)
  {
    hide Works, Full, AofRebuild.ServerOk, AofRebuild.ServerFits, AofLog.Load, Replay, AofLog.Log, AofRewrite.ServerCommands;
    AofSnapshot.RewriteRebuilds(m, server);
  }

  lemma ChildGoneKeeps(m: Machine, s: State, v: Server)
    requires Inv(m, s) && s.server == Some(v) && v.pc.Idle? && v.child.Some?
    ensures Inv(m, DoChildGone(s, v))
  {
    hide LoadFiles, Load, Holds, BufferOk, LoadWhole, Sound;
    SameLiveItself(v.am);
    Touched(m, s, v, DoChildGone(s, v), DoChildGone(s, v).server.value, TempRewrite(v.child.value.pid));
  }

  lemma RenameBaseKeeps(m: Machine, s: State, v: Server, rdb: bool)
    requires Inv(m, s) && s.server == Some(v) && v.pc.Idle? && v.child.Some? && v.child.value.finished
    ensures TempRewrite(v.child.value.pid) in s.disk
    ensures Inv(m, DoRenameBase(s, v, rdb))
  {
    hide LoadFiles, Load, FileOk, BufferOk, LoadWhole, Sound, Full;
    var temp := TempRewrite(v.child.value.pid);
    var s' := DoRenameBase(s, v, rdb);
    var mid := s.disk - {temp};
    Held(m, s, v);
    TouchHolds(m, s.disk, mid, v.am, s.history, temp);
    TouchHolds(m, mid, s'.disk, v.am, s.history, BaseFile(v.am.baseSeq + 1, rdb));
    SameLiveItself(v.am);
    BufferIdle(m, v, s'.server.value, s.history);
    Went(m, s, v, s', s'.server.value);
  }

  lemma BufferIdle(m: Machine, v: Server, v': Server, h: History)
    requires BufferOk(m, v, h) && !v.pc.Undoing? && !v'.pc.Undoing?
    requires v'.buf == v.buf && v'.selected == v.selected && v'.data == v.data
    ensures BufferOk(m, v', h)
  {}

  lemma RewriteShape(am: Manifest, next: Manifest)
    requires Sound(am) && RewriteOf(am, next)
    ensures Sound(next) && next.incr == [Last(am.incr)] && Live(next) == [next.base.value, Last(am.incr)]
    ensures next.base.Some? && Free(am, next.base.value.name)
  {
    RewriteSound(am, next.base.value.name.rdb);
  }

  lemma RewriteFailedKeeps(m: Machine, s: State, v: Server, collect: bool)
    requires Inv(m, s) && s.server == Some(v) && v.pc.PersistingRewrite?
    ensures v.pc.next.base.Some?
    ensures Inv(m, DoPersistRewrite(s, v, false, collect))
  {
    hide LoadFiles, Load, Holds, BufferOk, LoadWhole, Sound, RewriteOf;
    RewriteShape(v.am, v.pc.next);
    SameLiveItself(v.am);
    var s' := DoPersistRewrite(s, v, false, collect);
    Touched(m, s, v, s', s'.server.value, v.pc.next.base.value.name);
  }

  lemma UnlinkKeeps(m: Machine, s: State, v: Server)
    requires Inv(m, s) && s.server == Some(v) && v.pc.Collecting? && v.am.history != []
    ensures Inv(m, DoUnlink(s, v))
  {
    hide LoadFiles, Load, Holds, BufferOk, LoadWhole;
    var s' := DoUnlink(s, v);
    var f := v.am.history[0].name;
    assert Retired(v.am.history[0], v.am.baseSeq, v.am.incr[0].num);
    TempStays(m, s, v, s', f);
    Touched(m, s, v, s', s'.server.value, f);
  }

  lemma TempStays(m: Machine, s: State, v: Server, s': State, f: FileName)
    requires ChildInv(m, s, v) && SameBut(s.disk, s'.disk, f) && !f.TempRewrite? && !v.pc.PersistingRewrite?
    ensures v.child.Some? && v.child.value.finished ==>
      Rebuilds(m, s'.disk, TempRewrite(v.child.value.pid), v.child.value.snapshot)
  {
    hide LoadFiles, LoadWhole, Full;
  }

  // ---------------------------------------------------------------------------------------------
  // Steps that persist a manifest
  // ---------------------------------------------------------------------------------------------

  lemma Persisted(m: Machine, s: State, next: Manifest, v: Server)
    requires Sound(next) && s.manifest == Some(Lines(next)) && Holds(m, s.disk, next, s.history)
    requires s.server == Some(v) && v.am == next.(dirty := false) && !Starting(v.pc)
    requires BufferOk(m, v, s.history) && ChildInv(m, s, v) && PcInv(m, s, v)
    ensures Inv(m, s)
  {
    hide LoadFiles, FileOk, BufferOk, ChildInv, PcInv, Lines, Load;
    LoadOfLines(next);
    SameLiveItself(v.am);
    CleanHolds(m, s.disk, next, s.history);
  }

  lemma CleanHolds(m: Machine, disk: Disk, am: Manifest, h: History)
    requires Sound(am) && Holds(m, disk, am, h)
    ensures var clean := am.(dirty := false);
      Sound(clean) && Closed(clean) == Closed(am) && Holds(m, disk, clean, h)
  {
    hide LoadFiles, FileOk;
    assert Live(am.(dirty := false)) == Live(am);
  }

  // A new INCR file, still empty, goes on where the files before it end.
  lemma NewIncrHolds(m: Machine, disk: Disk, am: Manifest, h: History)
    requires Works(m) && Sound(am) && Holds(m, disk, am, h) && h.units == []
    requires Last(WithNewIncr(am).incr).name in disk && disk[Last(WithNewIncr(am).incr).name] == []
    ensures var next := WithNewIncr(am);
      && Holds(m, disk, next, h.(head := []))
      && LoadFiles(m, disk, Closed(next)) == Some(h.start)
  {
    hide Works, LoadFiles, LoadWhole, FileOk, Full, AofLog.Log, AofLog.Run, Replay, AofLog.Loadable, Written;
    var next, d := WithNewIncr(am), LoadFiles(m, disk, Closed(am)).value;
    var file := disk[Last(am.incr).name];
    LiveIsClosed(am);
    NewIncrSound(am);
    LiveIsClosed(next);
    assert Live(next) == Live(am) + [Last(next.incr)];
    assert Closed(next) == Closed(am) + [Last(am.incr)];
    WholeFileLoads(m, h, file, d);
    LoadFilesSnoc(m, disk, Closed(am), Last(am.incr));
    EmptyFile(m, h, file, d);
  }

  lemma LoadFilesSnoc(m: Machine, disk: Disk, files: seq<AofInfo>, info: AofInfo)
    requires AllExist(disk, files) && info.name in disk && LoadFiles(m, disk, files).Some?
    ensures AllExist(disk, files + [info])
    ensures LoadFiles(m, disk, files + [info]) == LoadWhole(m, LoadFiles(m, disk, files).value, disk[info.name])
  {
    hide LoadWhole;
    assert (files + [info])[..|files|] == files;
  }

  lemma EmptyFile(m: Machine, h: History, file: Bytes, d: Keys)
    requires FileOk(m, h, file, d) && h.units == []
    ensures FileOk(m, h.(head := []), [], h.start)
  {
    hide AofLog.Loadable, Full;
    AofLog.RunNothing(m.look);
    NothingWritten();
    NoUnits(m, h.start);
    NothingLoads(m.look);
  }

  lemma NothingLoads(look: AofLog.Lookup)
    ensures AofLog.Loadable(look, [])
  {}

  lemma PersistIncrKeeps(m: Machine, s: State, v: Server, forked: bool, pid: nat)
    requires Works(m) && Inv(m, s) && s.server == Some(v) && v.pc.PersistingIncr?
    ensures Inv(m, DoPersistIncr(s, v, forked, pid))
  {
    hide Works, LoadFiles, FileOk, Lines, Load, Sound, Live, SameLive, WithNewIncr, Full, AofLog.Log, Written;
    var next, s' := v.pc.next, DoPersistIncr(s, v, forked, pid);
    Held(m, s, v);
    NewIncrSound(v.am);
    NewIncrHolds(m, s.disk, v.am, s.history);
    CleanHolds(m, s.disk, next, s'.history);
    StartIsFull(m, s.disk, v.am, s.history);
    NoUnits(m, s.history.start);
    Persisted(m, s', next, s'.server.value);
  }

  lemma StartIsFull(m: Machine, disk: Disk, am: Manifest, h: History)
    requires Holds(m, disk, am, h)
    ensures Full(h.start)
  {}

  // The rewritten BASE file and the INCR file being written hold what the old files held.
  lemma RewriteHolds(m: Machine, disk: Disk, am: Manifest, next: Manifest, h: History)
    requires Sound(am) && RewriteOf(am, next) && Holds(m, disk, am, h)
    requires Rebuilds(m, disk, next.base.value.name, LoadFiles(m, disk, Closed(am)).value)
    ensures Sound(next) && Holds(m, disk, next, h)
  {
    hide LoadFiles, LoadWhole, FileOk, Sound, RewriteOf, Live;
    RewriteShape(am, next);
    assert Closed(next) == [] + [next.base.value];
    LoadNothing(m, disk);
    LoadFilesSnoc(m, disk, [], next.base.value);
  }

  lemma LoadNothing(m: Machine, disk: Disk)
    ensures AllExist(disk, []) && LoadFiles(m, disk, []) == Some(map[])
  {}

  lemma PersistRewriteKeeps(m: Machine, s: State, v: Server, collect: bool)
    requires Inv(m, s) && s.server == Some(v) && v.pc.PersistingRewrite?
    ensures v.pc.next.base.Some?
    ensures Inv(m, DoPersistRewrite(s, v, true, collect))
  {
    hide LoadFiles, LoadWhole, FileOk, Lines, Load, Sound, Live, SameLive, RewriteOf, Full, BufferOk;
    var next := v.pc.next;
    Held(m, s, v);
    RewriteShape(v.am, next);
    var s' := DoPersistRewrite(s, v, true, collect);
    RewriteHolds(m, s.disk, v.am, next, s.history);
    BufferIdle(m, v, s'.server.value, s.history);
    Persisted(m, s', next, s'.server.value);
  }

  lemma CollectedKeeps(m: Machine, s: State, v: Server)
    requires Inv(m, s) && s.server == Some(v) && v.pc.Collecting?
    ensures Inv(m, DoCollected(s, v))
  {
    hide LoadFiles, LoadWhole, FileOk, Lines, Load, Sound, Live, SameLive, Full, BufferOk;
    var s' := DoCollected(s, v);
    Held(m, s, v);
    BufferIdle(m, v, s'.server.value, s.history);
    CleanHolds(m, s.disk, v.am, s.history);
    Persisted(m, s', v.am, s'.server.value);
  }

  // ---------------------------------------------------------------------------------------------
  // Starting
  // ---------------------------------------------------------------------------------------------

  lemma StartBaseKeeps(m: Machine, s: State, v: Server, server: AofRewrite.Server, rdb: bool)
    requires Works(m) && Inv(m, s) && s.server == Some(v) && v.pc.StartingBase? && Iterates(m, v.data, server)
    ensures Inv(m, DoStartBase(s, v, Rewritten(m, server), rdb))
  {
    hide Works, LoadWhole, Rewritten, AofRebuild.Dataset, AofRebuild.ServerOk, AofRebuild.ServerFits;
    IteratedLoads(m, v.data, server);
  }

  lemma StartIncrKeeps(m: Machine, s: State, v: Server)
    requires Inv(m, s) && s.server == Some(v) && v.pc.StartingIncr?
    ensures Inv(m, DoStartIncr(s, v))
  {
    hide LoadWhole;
  }

  lemma FirstSound(rdb: bool)
    ensures var next := WithNewIncr(WithNewBase(EmptyManifest, rdb));
      && Sound(next) && Last(next.incr).name == IncrFile(1)
      && Closed(next) == [] + [next.base.value]
  {
    var next := WithNewIncr(WithNewBase(EmptyManifest, rdb));
    assert Live(next) == [next.base.value, next.incr[0]];
  }

  lemma StartManifestKeeps(m: Machine, s: State, v: Server)
    requires Inv(m, s) && s.server == Some(v) && v.pc.StartingManifest?
    ensures Inv(m, DoStartManifest(s, v))
  {
    hide LoadFiles, LoadWhole, Lines, Load, Sound, Live, FileOk, Closed, SameLive;
    var next, s' := v.pc.next, DoStartManifest(s, v);
    FirstSound(next.base.value.name.rdb);
    LoadNothing(m, s.disk);
    LoadFilesSnoc(m, s.disk, [], next.base.value);
    FirstFile(m);
    Persisted(m, s', next, s'.server.value);
  }

  lemma FirstFile(m: Machine)
    ensures FileOk(m, NO_HISTORY, [], map[])
    ensures forall v: Server :: !v.pc.Undoing? && v.buf == [] && v.selected == -1 && v.data == map[] ==> BufferOk(m, v, NO_HISTORY)
  {
    AofLog.RunNothing(m.look);
    NothingWritten();
    NoUnits(m, map[]);
  }

  // What a disk holds is what is recovered from it.
  lemma HoldsRecovers(m: Machine, disk: Disk, lines: seq<AofInfo>, h: History)
    requires Works(m) && Load(lines).Ok? && Sound(Load(lines).am) && Holds(m, disk, Load(lines).am, h)
    ensures Recover(m, disk, Some(lines)) == Some(Durable(m, h))
    ensures AllExist(disk, Live(Load(lines).am)) && Live(Load(lines).am) != [] && Last(Live(Load(lines).am)) == Last(Load(lines).am.incr)
  {
    hide Works, LoadFiles, Load, FileOk, Sound, AofLog.Load, Replay, Durable;
    var am := Load(lines).am;
    LiveIsClosed(am);
    FileLoads(m, h, disk[Last(am.incr).name], LoadFiles(m, disk, Closed(am)).value);
  }

  lemma RestartKeeps(m: Machine, s: State)
    requires Works(m) && Inv(m, s) && s.server.None? && !Torn(m, s)
    ensures Inv(m, DoRestart(m, s)) && DoRestart(m, s).server.Some?
    ensures DoRestart(m, s).server.value.data == Durable(m, s.history) == Durable(m, DoRestart(m, s).history)
  {
    if s.manifest.Some? {
      RestartOnFiles(m, s);
    } else {
      DurableNothing(m);
    }
  }

  lemma DurableNothing(m: Machine)
    ensures Durable(m, NO_HISTORY) == map[]
  {
    NoUnits(m, map[]);
  }

  lemma RestartOnFiles(m: Machine, s: State)
    requires Works(m) && Inv(m, s) && s.server.None? && s.manifest.Some? && !Torn(m, s)
    ensures Inv(m, DoRestart(m, s)) && DoRestart(m, s).server.Some?
    ensures DoRestart(m, s).server.value.data == Durable(m, s.history) == Durable(m, DoRestart(m, s).history)
  {
    hide Works, LoadFiles, Load, FileOk, Sound, AofLog.Log, Written, Durable, Recover, Cut, Resumed, Live, Closed, EndsOpen, ActUnits;
    var lines, h, s' := s.manifest.value, s.history, DoRestart(m, s);
    var am := Load(lines).am;
    HoldsRecovers(m, s.disk, lines, h);
    var fd := Last(am.incr).name;
    var d := LoadFiles(m, s.disk, Closed(am)).value;
    ResumeFile(m, h, s.disk[fd], d);
    var file := Cut(m, s.disk[fd]);
    var h' := Resumed(m, h, |file|);
    WriteHolds(m, s.disk, am, h, file, h');
    SameLiveItself(am);
    ResumedUnits(m, h, |file|);
    AofLog.RunNothing(m.look);
    NothingWritten();
    NoUnits(m, h'.start);
  }

  lemma ResumedUnits(m: Machine, h: History, size: nat)
    ensures Resumed(m, h, size).units == [] && Resumed(m, h, size).written == 0
  {}

  // ---------------------------------------------------------------------------------------------
  // Every step keeps the invariant
  // ---------------------------------------------------------------------------------------------

  // Going back to the event loop, or leaving it, without touching the disk.
  lemma PcKeeps(m: Machine, s: State, v: Server, pc: Pc)
    requires Inv(m, s) && s.server == Some(v) && !Starting(v.pc) && !v.pc.PersistingRewrite? && !v.pc.Undoing?
    requires pc.Idle? || pc.Collecting?
    ensures Inv(m, s.(server := Some(v.(pc := pc))))
  {
    hide LoadFiles, Load, Sound, Holds, LoadWhole, Full, BufferOk, Closed, AllExist, RewriteOf, SameLive;
    var v' := v.(pc := pc);
    var s' := s.(server := Some(v'));
    BufferIdle(m, v, v', s.history);
    Held(m, s, v);
    SameLiveItself(v.am);
    Went(m, s, v, s', v');
  }

  lemma CrashKeeps(m: Machine, s: State)
    requires Inv(m, s)
    ensures Inv(m, s.(server := None))
  {}

  lemma StepKeeps(m: Machine, s: State, step: Step)
    requires Works(m) && Inv(m, s) && (step.Restart? && s.server.None? ==> !Torn(m, s))
    ensures Inv(m, Do(m, s, step))
  {
    hide Inv, DoExec, DoFlush, DoUndo, DoBeginRewrite, DoOpenIncr, DoPersistIncr, DoChild, DoChildGone, DoRenameBase, DoPersistRewrite, DoUnlink, DoCollected, DoRestart, DoStartBase, DoStartIncr, DoStartManifest, Works, Torn;
    if s.server.None? {
      if step.Restart? { RestartKeeps(m, s); }
    } else {
      ServerKeeps(m, s, s.server.value, step);
    }
  }

  lemma ServerKeeps(m: Machine, s: State, v: Server, step: Step)
    requires Works(m) && Inv(m, s) && s.server == Some(v)
    ensures Inv(m, DoStep(m, s, v, step))
  {
    hide Inv, DoExec, DoFlush, DoUndo, DoBeginRewrite, DoOpenIncr, DoPersistIncr, DoChild, DoChildGone, DoRenameBase, DoPersistRewrite, DoUnlink, DoCollected, DoStartBase, DoStartIncr, DoStartManifest, Works, CanFlush, CanUndo, UnitOk, Iterates, Rewritten;
    match step
    case Exec(u) => if v.pc.Idle? && UnitOk(m, u) { ExecKeeps(m, s, v, u); }
    case Flush(k) => if CanFlush(s, v, k) { FlushKeeps(m, s, v, k); }
    case Undo(ok) => if CanUndo(s, v) { UndoKeeps(m, s, v, ok); }
    case BeginRewrite => if v.pc.Idle? && v.child.None? && v.buf == [] { BeginRewriteKeeps(m, s, v); }
    case OpenIncr(ok) =>
      if v.pc.OpeningIncr? {
        OpenIncrKeeps(m, s, v);
        PcKeeps(m, s, v, Idle);
      }
    case PersistIncr(ok, forked, pid) =>
      if v.pc.PersistingIncr? {
        PersistIncrKeeps(m, s, v, forked, pid);
        PcKeeps(m, s, v, Idle);
      }
    case ChildWrites(bytes) => if v.pc.Idle? && v.child.Some? { ChildKeeps(m, s, v, bytes, false); }
    case ChildFinishes(server) =>
      if v.pc.Idle? && v.child.Some? && Iterates(m, v.child.value.snapshot, server) { ChildFinishesKeeps(m, s, v, server); }
    case ChildDies => if v.pc.Idle? && v.child.Some? { ChildGoneKeeps(m, s, v); }
    case RenameBase(ok, rdb) =>
      if v.pc.Idle? && v.child.Some? && v.child.value.finished {
        RenameBaseKeeps(m, s, v, rdb);
        ChildGoneKeeps(m, s, v);
      }
    case PersistRewrite(ok, collect) =>
      if v.pc.PersistingRewrite? {
        PersistRewriteKeeps(m, s, v, collect);
        RewriteFailedKeeps(m, s, v, collect);
      }
    case BeginCollect => if v.pc.Idle? { PcKeeps(m, s, v, Collecting); }
    case Unlink => if v.pc.Collecting? && v.am.history != [] { UnlinkKeeps(m, s, v); }
    case PersistCollected(ok) =>
      if v.pc.Collecting? {
        CollectedKeeps(m, s, v);
        PcKeeps(m, s, v, Idle);
      }
    case Crash => CrashKeeps(m, s);
    case Restart =>
    case StartBase(server, rdb) =>
      if v.pc.StartingBase? && Iterates(m, v.data, server) { StartBaseKeeps(m, s, v, server, rdb); }
    case StartIncr => if v.pc.StartingIncr? { StartIncrKeeps(m, s, v); }
    case StartManifest(ok) =>
      if v.pc.StartingManifest? {
        StartManifestKeeps(m, s, v);
        CrashKeeps(m, s);
      }
  }

  lemma {:induction false} RunKeeps(m: Machine, steps: seq<Step>)
    requires Works(m) && Calm(m, steps)
    ensures Inv(m, Run(m, steps))
  {
    hide Inv, Works, Do, Torn;
    if steps == [] {
      Begins(m);
    } else {
      RunKeeps(m, steps[..|steps| - 1]);
      StepKeeps(m, Run(m, steps[..|steps| - 1]), steps[|steps| - 1]);
    }
  }

  lemma Begins(m: Machine)
    ensures Inv(m, INITIAL)
  {}

  // ---------------------------------------------------------------------------------------------
  // Recovery
  // ---------------------------------------------------------------------------------------------

  lemma InvRecovers(m: Machine, s: State)
    requires Works(m) && Inv(m, s)
    ensures Recover(m, s.disk, s.manifest) == Some(Durable(m, s.history))
  {
    hide Works, Holds, Sound, Load, Durable;
    if s.manifest.Some? {
      HoldsRecovers(m, s.disk, s.manifest.value, s.history);
    } else {
      DurableNothing(m);
    }
  }

  // While the server runs, its dataset is what can be recovered and then the units of which bytes are
  // missing, in the order in which they were executed.
  lemma BufferedSuffix(m: Machine, steps: seq<Step>)
    requires Works(m) && Calm(m, steps)
    ensures var s := Run(m, steps); var h := s.history;
      s.server.Some? ==>
        Complete(h.ends, h.written) <= |h.units| &&
        s.server.value.data == ActUnits(m, Durable(m, h), h.units[Complete(h.ends, h.written)..])
  {
    hide Works, Calm, Run, ActUnits, LoadFiles, Load, Sound, AofLog.Log, Written, Complete;
    RunKeeps(m, steps);
    var s := Run(m, steps);
    if s.server.Some? {
      var h, k := s.history, Complete(s.history.ends, s.history.written);
      if s.manifest.None? {
        NoUnits(m, map[]);
      } else {
        assert h.units[..k] + h.units[k..] == h.units;
        ActUnitsConcat(m, h.start, h.units[..k], h.units[k..]);
      }
    }
  }

  // After any run, whatever the server was doing, every file that the manifest on disk asks for
  // exists and is not listed as HISTORY, and a server started now recovers exactly the units of which
  // every byte was written to the log.
  lemma CrashSafety(m: Machine, steps: seq<Step>)
    requires Works(m) && Calm(m, steps)
    ensures var s := Run(m, steps);
      && Recover(m, s.disk, s.manifest) == Some(Durable(m, s.history))
      && (s.manifest.Some? ==>
            && Load(s.manifest.value).Ok?
            && var am := Load(s.manifest.value).am;
               && am.base.Some? && am.incr != []
               && AllExist(s.disk, Live(am))
               && forall i, j :: 0 <= i < |Live(am)| && 0 <= j < |am.history| ==> Live(am)[i].name != am.history[j].name)
  {
    hide Works, Calm, Run, Recover, Durable, FileOk, LoadFiles, Load;
    RunKeeps(m, steps);
    var s := Run(m, steps);
    InvRecovers(m, s);
    if s.manifest.Some? {
      var am := Load(s.manifest.value).am;
      HoldsRecovers(m, s.disk, s.manifest.value, s.history);
      forall i, j | 0 <= i < |Live(am)| && 0 <= j < |am.history| ensures Live(am)[i].name != am.history[j].name {
        LiveNames(am, i);
        assert Retired(am.history[j], am.baseSeq, am.incr[0].num);
      }
    }
  }
}
