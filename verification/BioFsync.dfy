// A stored fsync offset vouches for everything that was written before it was asked for (bio.c, aof.c).
module BioFsync {
  import opened Basics
  import opened Bio

  // ---------------------------------------------------------------------------------------------
  // Files and jobs
  // ---------------------------------------------------------------------------------------------

  // The sizes of a job are those of existing files, and among them is its own.
  ghost predicate SizesOk(files: map<nat, File>, job: Job) {
    && job.fd in job.sizes
    && forall f :: f in job.sizes ==> f in files && job.sizes[f] <= files[f].written
  }

  ghost predicate FilesOk(s: State) {
    && s.cur in s.files
    && forall i :: 0 <= i < |s.submitted| ==> SizesOk(s.files, s.submitted[i])
  }

  // One of the jobs fsyncs at least n bytes of the file.
  ghost predicate Covers(jobs: seq<Job>, f: nat, n: nat) {
    exists i :: 0 <= i < |jobs| && jobs[i].fd == f && f in jobs[i].sizes && jobs[i].sizes[f] >= n
  }

  // A job takes care of its own file, and earlier ones take care of the others.
  ghost predicate CoveredBefore(jobs: seq<Job>, k: nat)
    requires k < |jobs|
  {
    forall f :: f in jobs[k].sizes && f != jobs[k].fd ==> Covers(jobs[..k], f, jobs[k].sizes[f])
  }

  // Files that are not written any more are taken care of.
  ghost predicate Closed(s: State) {
    && (forall f :: f in s.files && f != s.cur ==> Covers(s.submitted, f, s.files[f].written))
    && (forall k :: 0 <= k < |s.submitted| ==> CoveredBefore(s.submitted, k))
  }

  // What the main thread is about to submit, or has just submitted before it switches to a new file.
  ghost predicate Submitting(s: State) {
    && (s.main.SubmitLock? || s.main.SubmitAppend? ==> s.main.job.fd == s.cur && s.main.job.sizes == Sizes(s.files))
    && ((s.main.SubmitCount? || s.main.SubmitUnlock?) && s.main.next.Switch? && s.cur in s.files ==> Covers(s.submitted, s.cur, s.files[s.cur].written))
    && ((s.main.SubmitLock? || s.main.SubmitAppend? || s.main.SubmitCount? || s.main.SubmitUnlock?) && s.main.next.Switch? ==> s.main.next.fd !in s.files)
  }

  ghost predicate JobSynced(files: map<nat, File>, job: Job) {
    job.fd in files && job.fd in job.sizes && files[job.fd].synced >= job.sizes[job.fd]
  }

  predicate AfterSync(pc: WorkerPc) { pc.Synced? || pc.Recorded? || pc.DeleteJob? }

  ghost predicate SyncedOk(s: State) {
    !s.failed ==>
      && (forall k :: 0 <= k < |s.completed| ==> JobSynced(s.files, s.completed[k]))
      && (AfterSync(s.worker) ==> JobSynced(s.files, s.worker.job))
      && (s.worker.Synced? ==> s.worker.ok)
  }

  // The job whose offset is stored was completed, or is about to be.
  ghost predicate StoredOk(s: State) {
    s.fsynced.Some? ==>
      s.fsynced.value in s.completed || ((s.worker.Recorded? || s.worker.DeleteJob?) && s.worker.job == s.fsynced.value)
  }

  ghost predicate Durable(s: State) { FilesOk(s) && Closed(s) && Submitting(s) && SyncedOk(s) && StoredOk(s) }

  // ---------------------------------------------------------------------------------------------
  // Files only grow
  // ---------------------------------------------------------------------------------------------

  ghost predicate Grow(a: map<nat, File>, b: map<nat, File>) {
    forall f :: f in a ==> f in b && a[f].written <= b[f].written && a[f].synced <= b[f].synced
  }

  lemma SizesGrow(a: map<nat, File>, b: map<nat, File>, job: Job)
    requires Grow(a, b)
    ensures SizesOk(a, job) ==> SizesOk(b, job)
    ensures JobSynced(a, job) ==> JobSynced(b, job)
  {}

  lemma CoversMore(jobs: seq<Job>, job: Job, f: nat, n: nat)
    requires Covers(jobs, f, n)
    ensures Covers(jobs + [job], f, n)
  {
    var i :| 0 <= i < |jobs| && jobs[i].fd == f && f in jobs[i].sizes && jobs[i].sizes[f] >= n;
    assert (jobs + [job])[i] == jobs[i];
  }

  lemma CoveredKept(jobs: seq<Job>, job: Job, k: nat)
    requires k < |jobs| && CoveredBefore(jobs, k)
    ensures CoveredBefore(jobs + [job], k)
  {
    hide Covers;
    assert (jobs + [job])[..k] == jobs[..k] && (jobs + [job])[k] == jobs[k];
  }

  // ---------------------------------------------------------------------------------------------
  // Every step keeps this
  // ---------------------------------------------------------------------------------------------

  lemma WorkerFiles(s: State, ok: bool)
    requires WorkerStep(s, ok).Some?
    ensures var t := WorkerStep(s, ok).value;
      && t.cur == s.cur && t.submitted == s.submitted && t.main == s.main && t.files.Keys == s.files.Keys
      && (forall f :: f in s.files ==> t.files[f].written == s.files[f].written)
      && Sizes(t.files) == Sizes(s.files)
      && ((forall f :: f in s.files ==> s.files[f].synced <= s.files[f].written) ==> Grow(s.files, t.files))
  {}

  ghost predicate Bounded(s: State) { forall f :: f in s.files ==> s.files[f].synced <= s.files[f].written }

  lemma DurableWorker(s: State, ok: bool)
    requires Orderly(s) && Bounded(s) && Durable(s) && WorkerStep(s, ok).Some?
    ensures Bounded(WorkerStep(s, ok).value)
    ensures var t := WorkerStep(s, ok).value; FilesOk(t) && Closed(t) && Submitting(t)
  {
    hide Covers, CoveredBefore, Orderly, Sizes, SyncedOk, StoredOk, WorkerStep;
    var t := WorkerStep(s, ok).value;
    WorkerFiles(s, ok);
    WorkerBounded(s, ok);
    forall i | 0 <= i < |t.submitted| ensures SizesOk(t.files, t.submitted[i]) { SizesGrow(s.files, t.files, s.submitted[i]); }
  }

  lemma WorkerBounded(s: State, ok: bool)
    requires Bounded(s) && WorkerStep(s, ok).Some?
    ensures Bounded(WorkerStep(s, ok).value)
  {}

  lemma SyncedWorker(s: State, ok: bool)
    requires Orderly(s) && Bounded(s) && FilesOk(s) && SyncedOk(s) && WorkerStep(s, ok).Some?
    ensures SyncedOk(WorkerStep(s, ok).value)
  {
    hide Counted, Locked, Draining, Sizes;
    var t := WorkerStep(s, ok).value;
    WorkerFiles(s, ok);
    if !t.failed {
      forall k | 0 <= k < |s.completed| ensures JobSynced(t.files, s.completed[k]) { SizesGrow(s.files, t.files, s.completed[k]); }
      if s.worker.Running? {
        assert s.submitted[|s.completed|] == s.queue[0] == s.worker.job;
        assert SizesOk(s.files, s.worker.job);
      }
    }
  }

  lemma StoredWorker(s: State, ok: bool)
    requires StoredOk(s) && WorkerStep(s, ok).Some?
    ensures StoredOk(WorkerStep(s, ok).value)
  {}

  // The main thread in the functions of the worker.
  lemma MainFiles(s: State)
    requires Bounded(s) && Submitting(s) && s.cur in s.files && MainStep(s).Some?
    ensures var t := MainStep(s).value;
      && Bounded(t) && Grow(s.files, t.files) && t.cur in t.files
      && t.completed == s.completed && t.worker == s.worker && t.failed == s.failed && t.fsynced == s.fsynced
      && t.submitted == s.submitted + if s.main.SubmitAppend? then [s.main.job] else []
  {
    hide CountOf, Covers, Sizes;
    var t := MainStep(s).value;
    if !s.main.SubmitAppend? { assert s.submitted + [] == s.submitted; }
  }

  lemma DurableMain(s: State)
    requires Bounded(s) && Durable(s) && MainStep(s).Some?
    ensures var t := MainStep(s).value; Bounded(t) && FilesOk(t) && SyncedOk(t) && StoredOk(t)
  {
    hide MainStep, Covers, CoveredBefore, Bounded, Grow, SizesOk, JobSynced;
    var t := MainStep(s).value;
    MainFiles(s);
    if s.main.SubmitAppend? {
      SizesAreOk(s.files, s.main.job, s.cur);
    }
    forall job: Job ensures (SizesOk(s.files, job) ==> SizesOk(t.files, job)) && (JobSynced(s.files, job) ==> JobSynced(t.files, job)) {
      SizesGrow(s.files, t.files, job);
    }
  }

  lemma SizesAreOk(files: map<nat, File>, job: Job, cur: nat)
    requires cur in files && job.fd == cur && job.sizes == Sizes(files)
    ensures SizesOk(files, job)
  {}

  lemma ClosedMain(s: State)
    requires Durable(s) && MainStep(s).Some?
    ensures var t := MainStep(s).value; Closed(t) && Submitting(t)
  {
    hide CountOf, Covers, CoveredBefore, SyncedOk, StoredOk, SizesOk, Sizes;
    if s.main.SubmitAppend? {
      ClosedAppend(s);
    } else {
      var t := MainStep(s).value;
      assert t.submitted == s.submitted;
    }
  }

  lemma ClosedAppend(s: State)
    requires Durable(s) && s.main.SubmitAppend?
    ensures var t := MainStep(s).value; Closed(t) && Submitting(t)
  {
    hide CountOf, Covers, SyncedOk, StoredOk, SizesOk;
    var t := MainStep(s).value;
    var job := s.main.job;
    forall f | f in s.files && f != s.cur ensures Covers(t.submitted, f, s.files[f].written) {
      CoversMore(s.submitted, job, f, s.files[f].written);
    }
    forall k | 0 <= k < |t.submitted| ensures CoveredBefore(t.submitted, k) {
      if k < |s.submitted| {
        CoveredKept(s.submitted, job, k);
      } else {
        assert t.submitted[..k] == s.submitted && t.submitted[k] == job;
      }
    }
    CoversItself(s.submitted, job, s.cur, s.files[s.cur].written);
  }

  lemma CoversItself(jobs: seq<Job>, job: Job, f: nat, n: nat)
    requires job.fd == f && f in job.sizes && job.sizes[f] >= n
    ensures Covers(jobs + [job], f, n)
  {
    assert (jobs + [job])[|jobs|] == job;
  }

  // The main thread elsewhere.
  lemma DurableBegins(s: State, step: Step)
    requires Bounded(s) && Durable(s) && Next(s, step).Some? && !step.MainGoesOn? && !step.WorkerGoesOn? && !step.FsyncFails?
    ensures var t := Next(s, step).value; Bounded(t) && Durable(t)
  {
    hide CountOf, Covers, CoveredBefore;
    var t := Next(s, step).value;
    assert Grow(s.files, t.files);
    forall job: Job ensures (SizesOk(s.files, job) ==> SizesOk(t.files, job)) && (JobSynced(s.files, job) ==> JobSynced(t.files, job)) {
      SizesGrow(s.files, t.files, job);
    }
  }

  lemma DurableKept(s: State, step: Step)
    requires Orderly(s) && Bounded(s) && Durable(s) && Next(s, step).Some?
    ensures Bounded(Next(s, step).value) && Durable(Next(s, step).value)
  {
    hide MainStep, WorkerStep, Orderly, Bounded, FilesOk, Closed, Submitting, SyncedOk, StoredOk;
    match step {
      case MainGoesOn =>
        DurableMain(s);
        ClosedMain(s);
      case WorkerGoesOn =>
        DurableWorker(s, true);
        SyncedWorker(s, true);
        StoredWorker(s, true);
      case FsyncFails =>
        DurableWorker(s, false);
        SyncedWorker(s, false);
        StoredWorker(s, false);
      case _ => DurableBegins(s, step);
    }
  }

  // ---------------------------------------------------------------------------------------------
  // Every run
  // ---------------------------------------------------------------------------------------------

  ghost predicate Good(s: State) { Orderly(s) && Bounded(s) && Durable(s) }

  lemma InitIsGood(fd: nat)
    ensures Good(Init(fd))
  {
    assert CountOf([], CLOSE_FILE) == 0;
    forall t ensures t in NO_JOBS && NO_JOBS[t] == 0 { match t { case CLOSE_FILE => case _ => } }
  }

  lemma {:induction false} RunIsGood(fd: nat, states: seq<State>, i: nat)
    requires IsRun(fd, states) && i < |states|
    ensures Good(states[i])
  {
    hide Good, Next, Init;
    if i == 0 {
      InitIsGood(fd);
    } else {
      RunIsGood(fd, states, i - 1);
      assert Follows(states[i - 1], states[i]);
      var step :| Next(states[i - 1], step) == Some(states[i]);
      GoodKept(states[i - 1], step);
    }
  }

  lemma GoodKept(s: State, step: Step)
    requires Good(s) && Next(s, step).Some?
    ensures Good(Next(s, step).value)
  {
    hide Next, Orderly, Bounded, Durable;
    OrderlyKept(s, step);
    DurableKept(s, step);
  }

  // Jobs are completed in the order of their submission; while the lock is free the counters say what is
  // in the queue; what is read of them is right; and a drain that returned has seen everything completed
  // that was submitted before it.
  lemma WorkerIsOrderly(fd: nat, states: seq<State>, i: nat)
    requires IsRun(fd, states) && i < |states|
    ensures var s := states[i];
      && s.completed <= s.submitted && s.submitted == s.completed + s.queue
      && (s.owner.Free? ==> forall t :: t in s.counter && s.counter[t] == CountOf(s.queue, t))
      && (s.main.PendingUnlock? ==> s.main.value == s.main.truth)
      && (s.main.Drained? ==> s.main.since <= |s.completed|)
  {
    hide Durable, Bounded, CountOf, Init;
    RunIsGood(fd, states, i);
  }

  // As long as no fsync failed, a stored offset means that all bytes that any file had when its job was
  // made have been fsynced.
  lemma StoredMeansSynced(fd: nat, states: seq<State>, i: nat)
    requires IsRun(fd, states) && i < |states| && !states[i].failed && states[i].fsynced.Some?
    ensures var s := states[i]; var job := s.fsynced.value;
      forall f :: f in job.sizes ==> f in s.files && s.files[f].synced >= job.sizes[f]
  {
    hide Init, IsRun;
    RunIsGood(fd, states, i);
    var s := states[i];
    var job := s.fsynced.value;
    var k := StoredAt(s);
    forall f | f in job.sizes ensures f in s.files && s.files[f].synced >= job.sizes[f] {
      if f != job.fd {
        OthersSynced(s, k, f);
      }
    }
  }

  // Where the stored job is among those submitted.
  lemma StoredAt(s: State) returns (k: nat)
    requires Good(s) && !s.failed && s.fsynced.Some?
    ensures k < |s.submitted| && k <= |s.completed| && s.submitted[k] == s.fsynced.value && JobSynced(s.files, s.fsynced.value)
  {
    hide Counted, Locked, Draining, Closed, Submitting, FilesOk, Bounded;
    var job := s.fsynced.value;
    if job in s.completed {
      k :| 0 <= k < |s.completed| && s.completed[k] == job;
    } else {
      k := |s.completed|;
    }
  }

  lemma OthersSynced(s: State, k: nat, f: nat)
    requires Good(s) && !s.failed && k < |s.submitted| && k <= |s.completed| && f in s.submitted[k].sizes && f != s.submitted[k].fd
    ensures f in s.files && s.files[f].synced >= s.submitted[k].sizes[f]
  {
    hide Counted, Locked, Draining, Submitting, FilesOk, Bounded;
    assert CoveredBefore(s.submitted, k);
    assert Covers(s.submitted[..k], f, s.submitted[k].sizes[f]);
    var i :| 0 <= i < k && s.submitted[i].fd == f && f in s.submitted[i].sizes && s.submitted[i].sizes[f] >= s.submitted[k].sizes[f];
    assert s.submitted[i] == s.completed[i];
    assert JobSynced(s.files, s.completed[i]);
  }

  // ---------------------------------------------------------------------------------------------
  // What a stored offset says
  // ---------------------------------------------------------------------------------------------

  // The job was made in a state: its offset, its file and the sizes are those of this state.
  ghost predicate MadeIn(s: State, job: Job) {
    job.offset == s.offset && job.fd == s.cur && job.sizes == Sizes(s.files)
  }

  ghost predicate MadeBy(states: seq<State>, i: nat, job: Job) {
    exists j :: 0 <= j <= i && j < |states| && MadeIn(states[j], job)
  }

  // Every job that is being submitted, or was, was made before.
  ghost predicate AllMade(states: seq<State>, i: nat)
    requires i < |states|
  {
    && (states[i].main.SubmitLock? || states[i].main.SubmitAppend? ==> MadeBy(states, i, states[i].main.job))
    && (forall k :: 0 <= k < |states[i].submitted| ==> MadeBy(states, i, states[i].submitted[k]))
  }

  lemma MadeLater(states: seq<State>, i: nat, job: Job)
    requires MadeBy(states, i, job)
    ensures MadeBy(states, i + 1, job)
  {
    var j :| 0 <= j <= i && j < |states| && MadeIn(states[j], job);
    assert 0 <= j <= i + 1 && MadeIn(states[j], job);
  }

  // A step submits what the main thread has in hand, or makes a job of the state.
  lemma JobsOfStep(s: State, step: Step)
    requires Next(s, step).Some?
    ensures var t := Next(s, step).value;
      && (t.submitted == s.submitted || (s.main.SubmitAppend? && t.submitted == s.submitted + [s.main.job]))
      && (t.main.SubmitLock? || t.main.SubmitAppend? ==>
            MadeIn(s, t.main.job) || ((s.main.SubmitLock? || s.main.SubmitAppend?) && t.main.job == s.main.job))
  {
    hide CountOf, Sizes;
  }

  lemma {:induction false} RunMakes(fd: nat, states: seq<State>, i: nat)
    requires IsRun(fd, states) && i < |states|
    ensures AllMade(states, i)
  {
    hide MadeBy, MadeIn, Next;
    if i > 0 {
      RunMakes(fd, states, i - 1);
      var s, t := states[i - 1], states[i];
      assert Follows(s, t);
      var step :| Next(s, step) == Some(t);
      JobsOfStep(s, step);
      forall job | MadeBy(states, i - 1, job) ensures MadeBy(states, i, job) { MadeLater(states, i - 1, job); }
      if t.main.SubmitLock? || t.main.SubmitAppend? {
        if MadeIn(s, t.main.job) { MadeJustNow(states, i, t.main.job); }
      }
    }
  }

  lemma MadeJustNow(states: seq<State>, i: nat, job: Job)
    requires 0 < i < |states| && MadeIn(states[i - 1], job)
    ensures MadeBy(states, i, job)
  {}

  // As long as no fsync failed, a stored offset was the replication offset at some time of the run, and every byte
  // that any file had at that time has been fsynced.
  lemma StoredOffset(fd: nat, states: seq<State>, i: nat) returns (j: nat)
    requires IsRun(fd, states) && i < |states| && !states[i].failed && states[i].fsynced.Some?
    ensures j <= i && states[j].offset == states[i].fsynced.value.offset
    ensures forall f :: f in states[j].files ==> f in states[i].files && states[i].files[f].synced >= states[j].files[f].written
  {
    hide IsRun;
    RunIsGood(fd, states, i);
    RunMakes(fd, states, i);
    StoredMeansSynced(fd, states, i);
    var k := StoredAt(states[i]);
    var job := states[i].fsynced.value;
    assert MadeBy(states, i, states[i].submitted[k]);
    j :| 0 <= j <= i && MadeIn(states[j], job);
    forall f | f in states[j].files ensures f in states[i].files && states[i].files[f].synced >= states[j].files[f].written {
      assert f in job.sizes && job.sizes[f] == states[j].files[f].written;
    }
  }

  // ---------------------------------------------------------------------------------------------
  // Jobs are done
  // ---------------------------------------------------------------------------------------------

  // The stored offset is that of the last job that was done.
  ghost predicate Latest(s: State) {
    !s.failed ==>
      s.fsynced == if s.worker.Recorded? || s.worker.DeleteJob? then Some(s.worker.job)
                   else if s.completed == [] then None else Some(s.completed[|s.completed| - 1])
  }

  lemma LatestKept(s: State, step: Step)
    requires Latest(s) && SyncedOk(s) && Next(s, step).Some?
    ensures Latest(Next(s, step).value)
  {
    hide CountOf, Sizes, JobSynced;
  }

  lemma {:induction false} LatestIsStored(fd: nat, states: seq<State>, i: nat)
    requires IsRun(fd, states) && i < |states|
    ensures Latest(states[i])
  {
    hide Next, Good, Latest;
    if i == 0 {
      NothingStored(fd);
    } else {
      LatestIsStored(fd, states, i - 1);
      RunIsGood(fd, states, i - 1);
      assert Follows(states[i - 1], states[i]);
      var step :| Next(states[i - 1], step) == Some(states[i]);
      GoodSynced(states[i - 1]);
      LatestKept(states[i - 1], step);
    }
  }

  lemma NothingStored(fd: nat)
    ensures Latest(Init(fd))
  {}

  lemma GoodSynced(s: State)
    requires Good(s)
    ensures SyncedOk(s)
  {}

  // While there is a job, or the main thread is inside of one of the functions, one of the two can go on.
  lemma NobodyIsStuck(fd: nat, states: seq<State>, i: nat)
    requires IsRun(fd, states) && i < |states| && (states[i].queue != [] || !states[i].main.Idle?)
    ensures Next(states[i], MainGoesOn).Some? || Next(states[i], WorkerGoesOn).Some?
  {
    hide IsRun, CountOf, Sizes, Covers;
    RunIsGood(fd, states, i);
    var s := states[i];
    if s.worker.Running? {
      assert s.submitted[|s.completed|] == s.queue[0] == s.worker.job;
      assert SizesOk(s.files, s.worker.job);
    }
    forall t ensures t in s.counter { assert s.counter[t] == CountOf(s.queue, t) + Drift(s, t); }
  }

  // A call of bioSubmitJob that finds the lock free, step after step: the job is last in the queue, its type counts
  // one more, and the lock is free again.
  lemma SubmissionCompletes(s: State, switch: bool, fd: nat)
    requires s.main.Idle? && s.owner.Free? && (forall t :: t in s.counter) && fd !in s.files && s.cur in s.files
    ensures var begin := Next(s, if switch then SubmitSwitch(fd) else SubmitFsync);
      && begin.Some?
      && var t := Goes(begin.value, 4);
         var job := Job(if switch then CLOSE_AOF else AOF_FSYNC, s.cur, s.offset, Sizes(s.files));
         && t.Some? && t.value.main.Idle? && t.value.owner.Free? && t.value.worker == s.worker
         && t.value.queue == s.queue + [job] && t.value.submitted == s.submitted + [job]
         && t.value.counter == s.counter[job.jtype := s.counter[job.jtype] + 1]
         && t.value.cur == (if switch then fd else s.cur)
         && t.value.files == if switch then s.files[fd := File(0, 0)] else s.files
  {
    hide CountOf, Sizes;
    var s1 := Next(s, if switch then SubmitSwitch(fd) else SubmitFsync).value;
    var s2 := MainStep(s1).value;
    var s3 := MainStep(s2).value;
    var s4 := MainStep(s3).value;
    assert Goes(s1, 1) == Some(s2);
    assert Goes(s1, 2) == Some(s3);
    assert Goes(s1, 3) == Some(s4);
  }

  // Some turns of the main thread.
  function Goes(s: State, n: nat): Option<State> {
    if n == 0 then Some(s)
    else
      var t := Goes(s, n - 1);
      if t.None? then None else MainStep(t.value)
  }

  function Works(s: State, n: nat): Option<State> {
    if n == 0 then Some(s)
    else
      var t := Works(s, n - 1);
      if t.None? then None else WorkerStep(t.value, true)
  }

  // A turn of the worker's loop while the main thread does not take the lock: the first job is done, all bytes of
  // its file are fsynced, its offset is stored, and its type counts one less.
  lemma TurnCompletes(s: State)
    requires s.worker.AtHead? && s.owner.Worker? && s.queue != [] && s.queue[0].fd in s.files && (forall t :: t in s.counter)
    ensures var t := Works(s, 7); var job := s.queue[0];
      && t.Some? && t.value.worker.AtHead? && t.value.owner.Worker? && t.value.main == s.main
      && t.value.queue == s.queue[1..] && t.value.completed == s.completed + [job] && t.value.fsynced == Some(job)
      && t.value.files == s.files[job.fd := File(s.files[job.fd].written, s.files[job.fd].written)]
      && t.value.counter == s.counter[job.jtype := s.counter[job.jtype] - 1] && t.value.failed == s.failed
  {
    hide Works, WorkerStep;
    var s3 := Synced3(s);
    Done4(s3);
    WorksOn(s, 3, 4);
  }

  // The first three steps: the job is taken, the lock given back, and the file fsynced.
  lemma Synced3(s: State) returns (t: State)
    requires s.worker.AtHead? && s.owner.Worker? && s.queue != [] && s.queue[0].fd in s.files
    ensures Works(s, 3) == Some(t)
    ensures var job := s.queue[0];
      t == s.(owner := Free, worker := Synced(job, true), files := s.files[job.fd := File(s.files[job.fd].written, s.files[job.fd].written)])
  {
    var s1 := WorkerStep(s, true).value;
    var s2 := WorkerStep(s1, true).value;
    t := WorkerStep(s2, true).value;
    assert Works(s, 1) == Some(s1);
    assert Works(s, 2) == Some(s2);
  }

  // The other four: the offset is stored, the lock taken, the job removed and counted.
  lemma Done4(s: State)
    requires s.owner.Free? && s.queue != [] && s.worker == Synced(s.queue[0], true) && (forall t :: t in s.counter)
    ensures var job := s.queue[0];
      Works(s, 4) == Some(s.(owner := Worker, worker := AtHead, queue := s.queue[1..], completed := s.completed + [job],
                             fsynced := Some(job), counter := s.counter[job.jtype := s.counter[job.jtype] - 1]))
  {
    var s1 := WorkerStep(s, true).value;
    var s2 := WorkerStep(s1, true).value;
    var s3 := WorkerStep(s2, true).value;
    assert Works(s, 1) == Some(s1);
    assert Works(s, 2) == Some(s2);
    assert Works(s, 3) == Some(s3);
  }

  lemma {:induction false} WorksOn(s: State, a: nat, b: nat)
    ensures Works(s, a + b) == if Works(s, a).None? then None else Works(Works(s, a).value, b)
  {
    hide WorkerStep;
    if b > 0 { WorksOn(s, a, b - 1); }
  }
}
