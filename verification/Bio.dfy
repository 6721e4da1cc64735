// The background worker of the append only file, step by step (bio.c, aof.c).
module Bio {
  import opened Basics

  // ---------------------------------------------------------------------------------------------
  // Jobs
  // ---------------------------------------------------------------------------------------------

  datatype JobType = CLOSE_FILE | AOF_FSYNC | CLOSE_AOF | LAZY_FREE

  // A job of the worker: fsync a file, and close it if it is of the type that closes. The replication
  // offset is the one at the submission; so is the number of bytes that each file had.
  datatype Job = Job(jtype: JobType, fd: nat, offset: int, sizes: map<nat, nat>)

  datatype File = File(written: nat, synced: nat)

  // ---------------------------------------------------------------------------------------------
  // Threads
  // ---------------------------------------------------------------------------------------------

  // What the main thread goes on with after a submission.
  datatype Goal = Return | Switch(fd: nat)

  // Where the main thread is: in bioSubmitJob, in bioDrainWorker, or elsewhere. A drain remembers how
  // many jobs had been submitted when it was called.
  datatype MainPc =
    | Idle
    | SubmitLock(job: Job, next: Goal)
    | SubmitAppend(job: Job, next: Goal)
    | SubmitCount(job: Job, next: Goal)
    | SubmitUnlock(next: Goal)
    | DrainLock(since: nat)
    | DrainTest(since: nat)
    | DrainWait(since: nat)
    | DrainUnlock(since: nat)
    | Drained(since: nat)
    | PendingLock(jtype: JobType)
    | PendingRead(jtype: JobType)
    | PendingUnlock(value: int, truth: int)

  // Where the worker is in its loop.
  datatype WorkerPc =
    | AtHead
    | Waiting
    | Took(job: Job)
    | Running(job: Job)
    | Synced(job: Job, ok: bool)
    | Recorded(job: Job)
    | DeleteJob(job: Job)
    | CountJob(job: Job)

  datatype Owner = Free | Main | Worker

  datatype State = State(
    owner: Owner, main: MainPc, worker: WorkerPc,
    // bio_jobs and bio_jobs_counter
    queue: seq<Job>, counter: map<JobType, int>,
    // The append only file: aof_fd, the files, master_repl_offset, fsynced_reploff_pending
    cur: nat, files: map<nat, File>, offset: int, fsynced: Option<Job>,
    // What was submitted and completed so far, and whether an fsync failed.
    submitted: seq<Job>, completed: seq<Job>, failed: bool)

  const NO_JOBS: map<JobType, int> := map[CLOSE_FILE := 0, AOF_FSYNC := 0, CLOSE_AOF := 0, LAZY_FREE := 0]

  // The worker starts with the lock; the server has opened its first file.
  function Init(fd: nat): State {
    State(Worker, Idle, AtHead, [], NO_JOBS, fd, map[fd := File(0, 0)], 0, None, [], [], false)
  }

  function Sizes(files: map<nat, File>): map<nat, nat> { map f | f in files :: files[f].written }

  // ---------------------------------------------------------------------------------------------
  // Steps
  // ---------------------------------------------------------------------------------------------

  datatype Step =
    // The main thread: write to the file, submit an fsync, switch to a new file, drain, ask for the
    // number of jobs, go on.
    | Write(bytes: nat, offset: int)
    | SubmitFsync
    | SubmitSwitch(fd: nat)
    | CallDrain
    | CallPending(jtype: JobType)
    | MainGoesOn
    // The worker goes on; fsync may fail.
    | WorkerGoesOn
    | FsyncFails

  function MainStep(s: State): Option<State> {
    match s.main
    case Idle => None
    case SubmitLock(job, next) => if s.owner.Free? then Some(s.(owner := Main, main := SubmitAppend(job, next))) else None
    case SubmitAppend(job, next) =>
      Some(s.(queue := s.queue + [job], submitted := s.submitted + [job], main := SubmitCount(job, next)))
    case SubmitCount(job, next) =>
      if job.jtype in s.counter then
        Some(s.(counter := s.counter[job.jtype := s.counter[job.jtype] + 1], main := SubmitUnlock(next)))
      else None
    case SubmitUnlock(Return) => Some(s.(owner := Free, main := Idle))
    case SubmitUnlock(Switch(fd)) => Some(s.(owner := Free, main := Idle, cur := fd, files := s.files[fd := File(0, 0)]))
    case DrainLock(n) => if s.owner.Free? then Some(s.(owner := Main, main := DrainTest(n))) else None
    // pthread_cond_wait gives the lock back, and takes it again.
    case DrainTest(n) => Some(if s.queue == [] then s.(main := DrainUnlock(n)) else s.(owner := Free, main := DrainWait(n)))
    case DrainWait(n) => if s.owner.Free? then Some(s.(owner := Main, main := DrainTest(n))) else None
    case DrainUnlock(n) => Some(s.(owner := Free, main := Drained(n)))
    case Drained(_) => Some(s.(main := Idle))
    case PendingLock(t) => if s.owner.Free? then Some(s.(owner := Main, main := PendingRead(t))) else None
    case PendingRead(t) =>
      if t in s.counter then Some(s.(main := PendingUnlock(s.counter[t], CountOf(s.queue, t)))) else None
    case PendingUnlock(_, _) => Some(s.(owner := Free, main := Idle))
  }

  function WorkerStep(s: State, ok: bool): Option<State> {
    match s.worker
    case AtHead =>
      Some(if s.queue == [] then s.(owner := Free, worker := Waiting) else s.(worker := Took(s.queue[0])))
    case Waiting => if s.owner.Free? then Some(s.(owner := Worker, worker := AtHead)) else None
    case Took(job) => Some(s.(owner := Free, worker := Running(job)))
    case Running(job) =>
      if !ok then Some(s.(worker := Synced(job, false), failed := true))
      else if job.fd in s.files then
        var f := s.files[job.fd];
        Some(s.(worker := Synced(job, true), files := s.files[job.fd := f.(synced := f.written)]))
      else None
    case Synced(job, true) => Some(s.(fsynced := Some(job), worker := Recorded(job)))
    case Synced(job, false) => Some(s.(worker := Recorded(job)))
    case Recorded(job) => if s.owner.Free? then Some(s.(owner := Worker, worker := DeleteJob(job))) else None
    case DeleteJob(job) =>
      if s.queue != [] then Some(s.(queue := s.queue[1..], completed := s.completed + [job], worker := CountJob(job))) else None
    case CountJob(job) =>
      if job.jtype in s.counter then Some(s.(counter := s.counter[job.jtype := s.counter[job.jtype] - 1], worker := AtHead)) else None
  }

  // The state after a step, if it can be made.
  function Next(s: State, step: Step): Option<State> {
    match step
    case Write(n, offset) =>
      if s.main.Idle? && s.cur in s.files then
        var f := s.files[s.cur];
        Some(s.(files := s.files[s.cur := f.(written := f.written + n)], offset := offset))
      else None
    case SubmitFsync =>
      if s.main.Idle? then Some(s.(main := SubmitLock(Job(AOF_FSYNC, s.cur, s.offset, Sizes(s.files)), Return))) else None
    case SubmitSwitch(fd) =>
      if s.main.Idle? && fd !in s.files then Some(s.(main := SubmitLock(Job(CLOSE_AOF, s.cur, s.offset, Sizes(s.files)), Switch(fd)))) else None
    case CallDrain => if s.main.Idle? then Some(s.(main := DrainLock(|s.submitted|))) else None
    case CallPending(t) => if s.main.Idle? then Some(s.(main := PendingLock(t))) else None
    case MainGoesOn => MainStep(s)
    case WorkerGoesOn => WorkerStep(s, true)
    case FsyncFails => if s.worker.Running? then WorkerStep(s, false) else None
  }

  ghost predicate IsRun(fd: nat, states: seq<State>) {
    && states != [] && states[0] == Init(fd)
    && forall i :: 0 < i < |states| ==> Follows(states[i - 1], states[i])
  }

  ghost predicate Follows(s: State, t: State) { exists step :: Next(s, step) == Some(t) }

  function CountOf(jobs: seq<Job>, t: JobType): nat {
    if jobs == [] then 0 else CountOf(jobs[..|jobs| - 1], t) + if jobs[|jobs| - 1].jtype == t then 1 else 0
  }

  // ---------------------------------------------------------------------------------------------
  // The queue, the counters and the lock
  // ---------------------------------------------------------------------------------------------

  predicate MainHolds(pc: MainPc) {
    pc.SubmitAppend? || pc.SubmitCount? || pc.SubmitUnlock? || pc.DrainTest? || pc.DrainUnlock? || pc.PendingRead? || pc.PendingUnlock?
  }

  predicate WorkerHolds(pc: WorkerPc) { pc.AtHead? || pc.Took? || pc.DeleteJob? || pc.CountJob? }

  // The job that the worker has in hand, which is still in the queue.
  function InHand(pc: WorkerPc): Option<Job> {
    match pc
    case Took(job) => Some(job)
    case Running(job) => Some(job)
    case Synced(job, _) => Some(job)
    case Recorded(job) => Some(job)
    case DeleteJob(job) => Some(job)
    case _ => None
  }

  // How far the counter of a type is from the jobs in the queue, while somebody holds the lock.
  function Drift(s: State, t: JobType): int {
    (if s.worker.CountJob? && s.worker.job.jtype == t then 1 else 0) - (if s.main.SubmitCount? && s.main.job.jtype == t then 1 else 0)
  }

  ghost predicate Locked(s: State) {
    && (s.owner.Main? <==> MainHolds(s.main))
    && (s.owner.Worker? <==> WorkerHolds(s.worker))
  }

  // Jobs are completed in the order in which they were submitted.
  ghost predicate InOrder(s: State) { s.submitted == s.completed + s.queue }

  ghost predicate Held(s: State) { InHand(s.worker).Some? ==> s.queue != [] && s.queue[0] == InHand(s.worker).value }

  // A drain has seen the queue empty.
  ghost predicate Draining(s: State) {
    && (s.main.DrainUnlock? ==> s.queue == [])
    && (s.main.DrainLock? || s.main.DrainTest? || s.main.DrainWait? || s.main.DrainUnlock? ==> s.main.since <= |s.submitted|)
    && (s.main.Drained? ==> s.main.since <= |s.completed|)
  }

  ghost predicate Queued(s: State) { InOrder(s) && Held(s) && Draining(s) }

  ghost predicate Counted(s: State) {
    && (forall t :: t in s.counter && s.counter[t] == CountOf(s.queue, t) + Drift(s, t))
    && (s.main.PendingUnlock? ==> s.main.value == s.main.truth)
  }

  lemma CountSnoc(jobs: seq<Job>, job: Job, t: JobType)
    ensures CountOf(jobs + [job], t) == CountOf(jobs, t) + if job.jtype == t then 1 else 0
  {
    assert (jobs + [job])[..|jobs|] == jobs;
  }

  lemma {:induction false} CountRest(jobs: seq<Job>, t: JobType)
    requires jobs != []
    ensures CountOf(jobs, t) == CountOf(jobs[1..], t) + if jobs[0].jtype == t then 1 else 0
  {
    if |jobs| > 1 {
      var init := jobs[..|jobs| - 1];
      CountRest(init, t);
      assert jobs[1..][..|jobs[1..]| - 1] == init[1..];
    } else {
      assert jobs[1..] == [];
      assert jobs[..0] == [];
    }
  }

  lemma LockedMain(s: State)
    requires Locked(s) && MainStep(s).Some?
    ensures Locked(MainStep(s).value)
  {
    hide CountOf;
  }

  lemma LockedWorker(s: State, ok: bool)
    requires Locked(s) && WorkerStep(s, ok).Some?
    ensures Locked(WorkerStep(s, ok).value)
  {}

  lemma QueuedMain(s: State)
    requires Locked(s) && Queued(s) && MainStep(s).Some?
    ensures Queued(MainStep(s).value)
  {
    hide CountOf;
    OrderMain(s);
    HeldMain(s);
    DrainingMain(s);
  }

  lemma OrderMain(s: State)
    requires InOrder(s) && MainStep(s).Some?
    ensures InOrder(MainStep(s).value)
  {
    hide CountOf;
    if s.main.SubmitAppend? {
      assert s.completed + s.queue + [s.main.job] == s.completed + (s.queue + [s.main.job]);
    }
  }

  lemma HeldMain(s: State)
    requires Held(s) && MainStep(s).Some?
    ensures Held(MainStep(s).value)
  {
    hide CountOf, InHand;
  }

  lemma DrainingMain(s: State)
    requires InOrder(s) && Draining(s) && MainStep(s).Some?
    ensures Draining(MainStep(s).value)
  {
    hide CountOf;
  }

  lemma QueuedWorker(s: State, ok: bool)
    requires Locked(s) && Queued(s) && WorkerStep(s, ok).Some?
    ensures Queued(WorkerStep(s, ok).value)
  {
    OrderWorker(s, ok);
    HeldWorker(s, ok);
    DrainingWorker(s, ok);
  }

  lemma OrderWorker(s: State, ok: bool)
    requires InOrder(s) && Held(s) && WorkerStep(s, ok).Some?
    ensures InOrder(WorkerStep(s, ok).value)
  {
    if s.worker.DeleteJob? {
      assert s.queue == [s.queue[0]] + s.queue[1..];
      assert s.completed + [s.queue[0]] + s.queue[1..] == s.completed + ([s.queue[0]] + s.queue[1..]);
    }
  }

  lemma HeldWorker(s: State, ok: bool)
    requires Held(s) && WorkerStep(s, ok).Some?
    ensures Held(WorkerStep(s, ok).value)
  {}

  lemma DrainingWorker(s: State, ok: bool)
    requires Locked(s) && Draining(s) && WorkerStep(s, ok).Some?
    ensures Draining(WorkerStep(s, ok).value)
  {}

  lemma CountedMain(s: State)
    requires Locked(s) && Queued(s) && Counted(s) && MainStep(s).Some?
    ensures Counted(MainStep(s).value)
  {
    hide CountOf, Queued;
    var u := MainStep(s).value;
    forall t ensures t in u.counter && u.counter[t] == CountOf(u.queue, t) + Drift(u, t) {
      assert t in s.counter && s.counter[t] == CountOf(s.queue, t) + Drift(s, t);
      if s.main.SubmitAppend? { CountSnoc(s.queue, s.main.job, t); }
    }
  }

  lemma CountedWorker(s: State, ok: bool)
    requires Locked(s) && Queued(s) && Counted(s) && WorkerStep(s, ok).Some?
    ensures Counted(WorkerStep(s, ok).value)
  {
    hide CountOf;
    var u := WorkerStep(s, ok).value;
    forall t ensures t in u.counter && u.counter[t] == CountOf(u.queue, t) + Drift(u, t) {
      assert t in s.counter && s.counter[t] == CountOf(s.queue, t) + Drift(s, t);
      if s.worker.DeleteJob? { CountRest(s.queue, t); }
    }
  }

  ghost predicate Orderly(s: State) { Locked(s) && Queued(s) && Counted(s) }

  lemma OrderlyKept(s: State, step: Step)
    requires Orderly(s) && Next(s, step).Some?
    ensures Orderly(Next(s, step).value)
  {
    hide MainStep, WorkerStep, CountOf;
    match step {
      case MainGoesOn =>
        LockedMain(s);
        QueuedMain(s);
        CountedMain(s);
      case WorkerGoesOn =>
        LockedWorker(s, true);
        QueuedWorker(s, true);
        CountedWorker(s, true);
      case FsyncFails =>
        LockedWorker(s, false);
        QueuedWorker(s, false);
        CountedWorker(s, false);
      case _ => MainBegins(s, step);
    }
  }

  // The steps of the main thread outside of the worker's functions.
  lemma MainBegins(s: State, step: Step)
    requires Orderly(s) && Next(s, step).Some? && !step.MainGoesOn? && !step.WorkerGoesOn? && !step.FsyncFails?
    ensures Orderly(Next(s, step).value)
  {
    hide CountOf;
    var u := Next(s, step).value;
    forall t ensures Drift(u, t) == Drift(s, t) {}
  }
}
