// The AOF as a crash-recovery protocol: a server that logs commands, rewrites its log in the
// background and deletes what the rewrite replaced, over a disk that outlives it. Files are bytes, and
// a write may end anywhere. A step is one action on the disk or one action of the event loop; the server
// may crash between any two.
module AofProtocol {
  import opened Basics
  import opened Resp
  import opened AofManifest
  import opened AofUnits
  import AofLog
  import AofRewrite
  import AofRebuild

  type Keys = AofRewrite.Keys

  type Disk = map<FileName, Bytes>

  // ---------------------------------------------------------------------------------------------
  // Loading
  // ---------------------------------------------------------------------------------------------

  ghost predicate AllExist(disk: Disk, files: seq<AofInfo>) {
    forall i :: 0 <= i < |files| ==> files[i].name in disk
  }

  // The files that a manifest asks the server to load, in order.
  function Live(am: Manifest): seq<AofInfo> {
    (if am.base.Some? then [am.base.value] else []) + am.incr
  }

  function Last(infos: seq<AofInfo>): AofInfo
    requires infos != []
  {
    infos[|infos| - 1]
  }

  // A file that is followed by others: it must not be truncated.
  ghost function LoadWhole(m: Machine, d: Keys, file: Bytes): Option<Keys> {
    var r := AofLog.Load(m.look, file);
    if r.status.LoadFailed? || r.status.LoadedTruncated? then None else Some(Replay(m, d, r.client.done))
  }

  ghost function LoadFiles(m: Machine, disk: Disk, files: seq<AofInfo>): Option<Keys>
    requires AllExist(disk, files)
  {
    if files == [] then Some(map[])
    else
      var d := LoadFiles(m, disk, files[..|files| - 1]);
      if d.None? then None else LoadWhole(m, d.value, disk[Last(files).name])
  }

  // loadAppendOnlyFiles on what a crash leaves. Each file has a client of its own, and only the last one may
  // be truncated. None stands for a server that cannot start.
  ghost function Recover(m: Machine, disk: Disk, manifest: Option<seq<AofInfo>>): Option<Keys> {
    if manifest.None? then Some(map[])
    else
      var r := Load(manifest.value);
      if r.Abort? || !AllExist(disk, Live(r.am)) then None
      else if Live(r.am) == [] then Some(map[])
      else
        var files := Live(r.am);
        var d := LoadFiles(m, disk, files[..|files| - 1]);
        var last := AofLog.Load(m.look, disk[Last(files).name]);
        if d.None? || last.status.LoadFailed? then None else Some(Replay(m, d.value, last.client.done))
  }

  // ---------------------------------------------------------------------------------------------
  // States
  // ---------------------------------------------------------------------------------------------

  // A child writes a log that rebuilds the dataset of the moment it was forked.
  datatype Child = Child(pid: nat, snapshot: Keys, finished: bool)

  // Where the event loop stands: between events, or inside one of the functions that touch the disk.
  datatype Pc =
    | Idle
    | Undoing(k: nat)
    | StartingBase
    | StartingIncr(next: Manifest)
    | StartingManifest(next: Manifest)
    | OpeningIncr(next: Manifest)
    | PersistingIncr(next: Manifest)
    | PersistingRewrite(next: Manifest)
    | Collecting

  // buf and selected are aof_buf and aof_selected_db.
  datatype Server = Server(am: Manifest, data: Keys, buf: Bytes, selected: int, child: Option<Child>, pc: Pc)

  // What happened since the server began to write to the file that is open: the commands that the file had
  // and the dataset at that time, the units that were executed since, at which byte each of them ends, and
  // how many bytes were written. No step reads it.
  datatype History = History(head: seq<Argv>, start: Keys, units: seq<Unit>, ends: seq<nat>, written: nat)

  const NO_HISTORY := History([], map[], [], [], 0)

  // manifest is the content of the manifest file.
  datatype State = State(disk: Disk, manifest: Option<seq<AofInfo>>, server: Option<Server>, history: History)

  // How many ends are within the first w bytes.
  function Complete(ends: seq<nat>, w: nat): (k: nat)
    ensures k <= |ends|
  {
    if ends == [] || ends[|ends| - 1] <= w then |ends| else Complete(ends[..|ends| - 1], w)
  }

  // The dataset of all units of which every byte was written.
  ghost function Durable(m: Machine, h: History): Keys {
    var k := Complete(h.ends, h.written);
    ActUnits(m, h.start, if k <= |h.units| then h.units[..k] else h.units)
  }

  datatype Step =
    | Exec(u: Unit)
    | Flush(k: nat)
    | Undo(ok: bool)
    | BeginRewrite
    | OpenIncr(ok: bool)
    | PersistIncr(ok: bool, forked: bool, pid: nat)
    | ChildWrites(bytes: Bytes)
    | ChildFinishes(server: AofRewrite.Server)
    | ChildDies
    | RenameBase(ok: bool, rdb: bool)
    | PersistRewrite(ok: bool, collect: bool)
    | BeginCollect
    | Unlink
    | PersistCollected(ok: bool)
    | Crash
    | Restart
    | StartBase(server: AofRewrite.Server, rdb: bool)
    | StartIncr
    | StartManifest(ok: bool)

  // ---------------------------------------------------------------------------------------------
  // Steps of a running server. A step that is not enabled leaves the state as it is.
  // ---------------------------------------------------------------------------------------------

  // A unit is executed and fed to the buffer.
  ghost function DoExec(m: Machine, s: State, v: Server, u: Unit): State {
    var bytes := AofLog.Log(EmitAll(v.selected, FeedsOf(u)));
    var h := s.history;
    var end := (if h.ends == [] then 0 else h.ends[|h.ends| - 1]) + |bytes|;
    s.(server := Some(v.(data := ActAll(m, v.data, u), buf := v.buf + bytes, selected := SelectedAfter(v.selected, FeedsOf(u)))),
       history := h.(units := h.units + [u], ends := h.ends + [end]))
  }

  // flushAppendOnlyFile up to the return of write, which may have written only a part of the buffer.
  ghost function DoFlush(s: State, v: Server, k: nat): State
    requires v.am.incr != [] && Last(v.am.incr).name in s.disk && k <= |v.buf|
  {
    var fd := Last(v.am.incr).name;
    s.(disk := s.disk[fd := s.disk[fd] + v.buf[..k]],
       server := Some(if k == |v.buf| then v.(buf := []) else v.(pc := Undoing(k))),
       history := s.history.(written := s.history.written + k))
  }

  // After a short write the file is cut back with ftruncate; if that fails, what was written is taken off
  // the buffer.
  ghost function DoUndo(s: State, v: Server, ok: bool): State
    requires v.pc.Undoing? && v.am.incr != [] && Last(v.am.incr).name in s.disk
    requires v.pc.k <= |s.disk[Last(v.am.incr).name]| && v.pc.k <= |v.buf|
  {
    var fd, k := Last(v.am.incr).name, v.pc.k;
    if ok then
      s.(disk := s.disk[fd := s.disk[fd][..|s.disk[fd]| - k]],
         server := Some(v.(pc := Idle)),
         history := s.history.(written := if k <= s.history.written then s.history.written - k else 0))
    else s.(server := Some(v.(buf := v.buf[k..], pc := Idle)))
  }

  // The same history, told from now on.
  ghost function Settled(m: Machine, h: History): History {
    History(h.head + Written(h.units), Durable(m, h), [], [], 0)
  }

  // rewriteAppendOnlyFileBackground, once the forced flush has emptied the buffer: the next command will
  // select its database again, in whichever file it is written.
  ghost function DoBeginRewrite(m: Machine, s: State, v: Server): State {
    s.(server := Some(v.(selected := -1, pc := OpeningIncr(WithNewIncr(v.am)))), history := Settled(m, s.history))
  }

  ghost function DoOpenIncr(s: State, v: Server): State
    requires v.pc.OpeningIncr? && v.pc.next.incr != []
  {
    s.(disk := s.disk[Last(v.pc.next.incr).name := []], server := Some(v.(pc := PersistingIncr(v.pc.next))))
  }

  // openNewIncrAofForAppend, once the new file is open: the manifest that lists it is persisted,
  // the server switches to the new file, and a child is forked.
  ghost function DoPersistIncr(s: State, v: Server, forked: bool, pid: nat): State
    requires v.pc.PersistingIncr?
  {
    s.(manifest := Some(Lines(v.pc.next)),
       server := Some(v.(am := v.pc.next.(dirty := false), pc := Idle,
                         child := if forked then Some(Child(pid, v.data, false)) else None)),
       history := s.history.(head := []))
  }

  // The child iterates over its dataset in some order, and all of it can be written.
  ghost predicate Iterates(m: Machine, d: Keys, server: AofRewrite.Server) {
    AofRebuild.ServerOk(server) && AofRebuild.ServerFits(m.cx, server) && AofRebuild.Dataset(server) == d
  }

  // rewriteAppendOnlyFileRio
  ghost function Rewritten(m: Machine, server: AofRewrite.Server): Bytes {
    AofLog.Log(AofRewrite.ServerCommands(m.cx, server))
  }

  ghost function DoChild(s: State, v: Server, bytes: Bytes, finished: bool): State
    requires v.child.Some?
  {
    s.(disk := s.disk[TempRewrite(v.child.value.pid) := bytes],
       server := Some(v.(child := Some(v.child.value.(finished := finished)))))
  }

  ghost function DoChildGone(s: State, v: Server): State
    requires v.child.Some?
  {
    s.(disk := s.disk - {TempRewrite(v.child.value.pid)}, server := Some(v.(child := None)))
  }

  // backgroundRewriteDoneHandler up to the rename of the child's file.
  ghost function DoRenameBase(s: State, v: Server, rdb: bool): State
    requires v.child.Some? && TempRewrite(v.child.value.pid) in s.disk
  {
    var temp := TempRewrite(v.child.value.pid);
    var next := WithNewBase(v.am, rdb);
    s.(disk := (s.disk - {temp})[next.base.value.name := s.disk[temp]],
       server := Some(v.(pc := PersistingRewrite(WithIncrAsHistory(next, true)))))
  }

  ghost function DoPersistRewrite(s: State, v: Server, ok: bool, collect: bool): State
    requires v.pc.PersistingRewrite? && v.pc.next.base.Some?
  {
    if ok then
      s.(manifest := Some(Lines(v.pc.next)),
         server := Some(v.(am := v.pc.next.(dirty := false), child := None,
                           pc := if collect && v.pc.next.history != [] then Collecting else Idle)))
    else
      s.(disk := s.disk - {v.pc.next.base.value.name}, server := Some(v.(child := None, pc := Idle)))
  }

  // One turn of aofDelHistoryFiles.
  ghost function DoUnlink(s: State, v: Server): State
    requires v.am.history != []
  {
    s.(disk := s.disk - {v.am.history[0].name},
       server := Some(v.(am := v.am.(history := v.am.history[1..], dirty := true))))
  }

  ghost function DoCollected(s: State, v: Server): State {
    s.(manifest := Some(Lines(v.am)), server := Some(v.(pc := Idle, am := v.am.(dirty := false))))
  }

  // aofOpenIfNeededOnServerStart, when there is no AOF yet.
  ghost function DoStartBase(s: State, v: Server, bytes: Bytes, rdb: bool): State {
    var next := WithNewBase(v.am, rdb);
    s.(disk := s.disk[next.base.value.name := bytes], server := Some(v.(pc := StartingIncr(next))))
  }

  // The first INCR file is opened for appending, so what it holds stays.
  ghost function DoStartIncr(s: State, v: Server): State
    requires v.pc.StartingIncr?
  {
    var next := WithNewIncr(v.pc.next);
    var fd := Last(next.incr).name;
    s.(disk := if fd in s.disk then s.disk else s.disk[fd := []],
       server := Some(v.(pc := StartingManifest(next))))
  }

  ghost function DoStartManifest(s: State, v: Server): State
    requires v.pc.StartingManifest?
  {
    s.(manifest := Some(Lines(v.pc.next)), server := Some(v.(am := v.pc.next.(dirty := false), pc := Idle)))
  }

  // The open file is there, and long enough to be cut back.
  ghost predicate CanUndo(s: State, v: Server) {
    && v.pc.Undoing? && v.am.incr != [] && Last(v.am.incr).name in s.disk
    && v.pc.k <= |s.disk[Last(v.am.incr).name]| && v.pc.k <= |v.buf|
  }

  ghost predicate CanFlush(s: State, v: Server, k: nat) {
    v.pc.Idle? && v.am.incr != [] && Last(v.am.incr).name in s.disk && k <= |v.buf|
  }

  ghost function DoStep(m: Machine, s: State, v: Server, step: Step): State {
    match step
    case Exec(u) => if v.pc.Idle? && UnitOk(m, u) then DoExec(m, s, v, u) else s
    case Flush(k) => if CanFlush(s, v, k) then DoFlush(s, v, k) else s
    case Undo(ok) => if CanUndo(s, v) then DoUndo(s, v, ok) else s
    case BeginRewrite => if v.pc.Idle? && v.child.None? && v.buf == [] then DoBeginRewrite(m, s, v) else s
    case OpenIncr(ok) =>
      if !v.pc.OpeningIncr? || v.pc.next.incr == [] then s
      else if ok then DoOpenIncr(s, v)
      else s.(server := Some(v.(pc := Idle)))
    case PersistIncr(ok, forked, pid) =>
      if !v.pc.PersistingIncr? then s
      else if ok then DoPersistIncr(s, v, forked, pid)
      else s.(server := Some(v.(pc := Idle)))
    case ChildWrites(bytes) =>
      if v.pc.Idle? && v.child.Some? && !v.child.value.finished then DoChild(s, v, bytes, false) else s
    case ChildFinishes(server) =>
      if v.pc.Idle? && v.child.Some? && !v.child.value.finished && Iterates(m, v.child.value.snapshot, server)
      then DoChild(s, v, Rewritten(m, server), true) else s
    case ChildDies => if v.pc.Idle? && v.child.Some? then DoChildGone(s, v) else s
    case RenameBase(ok, rdb) =>
      if !v.pc.Idle? || v.child.None? || !v.child.value.finished || TempRewrite(v.child.value.pid) !in s.disk then s
      else if ok then DoRenameBase(s, v, rdb)
      else DoChildGone(s, v)
    case PersistRewrite(ok, collect) =>
      if v.pc.PersistingRewrite? && v.pc.next.base.Some? then DoPersistRewrite(s, v, ok, collect) else s
    case BeginCollect =>
      if v.pc.Idle? && v.am.history != [] then s.(server := Some(v.(pc := Collecting))) else s
    case Unlink =>
      if v.pc.Collecting? && v.am.history != [] then DoUnlink(s, v) else s
    case PersistCollected(ok) =>
      if !v.pc.Collecting? || v.am.history != [] then s
      else if ok then DoCollected(s, v)
      else s.(server := Some(v.(pc := Idle)))
    case Crash => s.(server := None)
    case Restart => s
    case StartBase(server, rdb) =>
      if v.pc.StartingBase? && Iterates(m, v.data, server) then DoStartBase(s, v, Rewritten(m, server), rdb) else s
    case StartIncr => if v.pc.StartingIncr? then DoStartIncr(s, v) else s
    case StartManifest(ok) =>
      if !v.pc.StartingManifest? then s
      else if ok then DoStartManifest(s, v)
      else s.(server := None)
  }

  // ---------------------------------------------------------------------------------------------
  // Starting
  // ---------------------------------------------------------------------------------------------

  // What loading leaves of the last file.
  ghost function Cut(m: Machine, file: Bytes): Bytes {
    var size := AofLog.Load(m.look, file).size;
    if size <= |file| then file[..size] else file
  }

  // The commands that are left in a file of some size, and the dataset that was recovered.
  ghost function Resumed(m: Machine, h: History, size: nat): History {
    var cs := h.head + Written(h.units);
    History(cs[..AofLog.Whole(cs, size)], Durable(m, h), [], [], 0)
  }

  // A server that starts loads what the manifest names and truncates the last file; one that cannot exits
  // again. No database is selected.
  ghost function DoRestart(m: Machine, s: State): State {
    var data := Recover(m, s.disk, s.manifest);
    if data.None? then s
    else if s.manifest.None? || Live(Load(s.manifest.value).am) == [] then
      s.(server := Some(Server(EmptyManifest, data.value, [], -1, None, StartingBase)))
    else
      var am := Load(s.manifest.value).am;
      var fd := Last(Live(am)).name;
      var file := Cut(m, s.disk[fd]);
      s.(disk := s.disk[fd := file],
         server := Some(Server(am, data.value, [], -1, None, Idle)),
         history := Resumed(m, s.history, |file|))
  }

  ghost function Do(m: Machine, s: State, step: Step): State {
    if s.server.Some? then DoStep(m, s, s.server.value, step)
    else if step.Restart? then DoRestart(m, s)
    else s
  }

  const INITIAL := State(map[], None, None, NO_HISTORY)

  ghost function Run(m: Machine, steps: seq<Step>): State {
    if steps == [] then INITIAL else Do(m, Run(m, steps[..|steps| - 1]), steps[|steps| - 1])
  }

  // The file that a server would go on writing ends, once it is loaded and truncated, inside of a transaction.
  ghost predicate Torn(m: Machine, s: State) {
    && s.manifest.Some? && Load(s.manifest.value).Ok?
    && var files := Live(Load(s.manifest.value).am);
       files != [] && Last(files).name in s.disk && EndsOpen(m.look, s.disk[Last(files).name])
  }

  // No server goes on from such a file.
  ghost predicate Calm(m: Machine, steps: seq<Step>) {
    steps == [] ||
    var init, last := steps[..|steps| - 1], steps[|steps| - 1];
    Calm(m, init) && (last.Restart? && Run(m, init).server.None? ==> !Torn(m, Run(m, init)))
  }
}
