/** The jobs of one scheduler and the disk they share, step by step: what Ready says about that disk. */
module SharedDisk {
  import opened Options
  import opened Config
  import opened Health
  import opened JobProtocol
  import F = FileStore
  import Paths
  import Syncer

  datatype Shared = Shared(jobs: World, disk: F.World)

  /** A step of the scheduler, or one of a writer or of the sweep. */
  datatype Step = Job(job: Action) | Disk(disk: F.Action)

  /** The write of the path reported success. */
  ghost predicate Wrote(d: F.World, path: string) {
    exists id :: F.At(d, id) && d.writers[id].pc == F.Returned(true) && d.writers[id].call.path == path
  }

  /** A sync succeeds only after the write of each of its files has. */
  ghost predicate MayDo(s: Shared, step: Step)
    requires Valid(s.jobs)
  {
    match step
    case Job(a) =>
      && Enabled(s.jobs, a)
      && (a.SyncReturns? && a.err.None? ==>
            forall f :: f in s.jobs.ctl.jobs[a.i].secret.files ==> Wrote(s.disk, f.path))
    case Disk(a) => F.Enabled(s.disk, a) && !a.Crash?
  }

  ghost function Do(s: Shared, step: Step): Shared
    requires Valid(s.jobs) && MayDo(s, step)
  {
    match step
    case Job(a) => s.(jobs := Apply(s.jobs, a))
    case Disk(a) => s.(disk := F.Apply(s.disk, a))
  }

  ghost predicate Runs(s: Shared, steps: seq<Step>, end: Shared)
    decreases |steps|
  {
    && Valid(s.jobs)
    && if steps == [] then end == s else MayDo(s, steps[0]) && Runs(Do(s, steps[0]), steps[1..], end)
  }

  // ----- The invariant -----

  /** The path holds the whole content of some write issued for it. */
  ghost predicate Holds(d: F.World, path: string) {
    exists call :: call in d.calls && call.path == path && d.fs.Content(path) == Some(call.content)
  }

  ghost predicate WritersHold(d: F.World) {
    forall id :: F.At(d, id) && d.writers[id].pc == F.Returned(true) ==> Holds(d, d.writers[id].call.path)
  }

  lemma StepKeepsHeld(original: F.Fs, d: F.World, a: F.Action, path: string)
    requires F.Inv(original, d) && F.Enabled(d, a) && Holds(d, path) && !Paths.IsTemp(path)
    ensures Holds(F.Apply(d, a), path)
  {
    hide Paths.IsTemp, F.Inv;
    if F.RenamesOnto(d, a, path) {
      F.RenamePublishes(original, d, a.id);
      assert d.writers[a.id].call in F.Apply(d, a).calls;
    } else {
      F.OtherStepsSpare(original, d, a, path);
      var call :| call in d.calls && call.path == path && d.fs.Content(path) == Some(call.content);
      assert call in F.Apply(d, a).calls;
    }
  }

  lemma StepKeepsWritersHold(original: F.Fs, d: F.World, a: F.Action)
    requires F.Inv(original, d) && F.Enabled(d, a) && WritersHold(d)
    ensures WritersHold(F.Apply(d, a))
  {
    hide Paths.IsTemp;
    var d' := F.Apply(d, a);
    forall id | F.At(d', id) && d'.writers[id].pc == F.Returned(true) ensures Holds(d', d'.writers[id].call.path) {
      if a.Rename? && a.id == id {
        F.RenamePublishes(original, d, id);
        assert d.writers[id].call in d'.calls;
      } else {
        assert F.WriterOk(d, id) && d'.writers[id] == d.writers[id];
        StepKeepsHeld(original, d, a, d.writers[id].call.path);
      }
    }
  }

  /** The result is held by a job, queued or received. */
  ghost predicate Carries(w: World, r: SyncResult) {
    || r in w.queue || r in w.consumed
    || exists i :: 0 <= i < |w.procs| && w.procs[i].pc == Reporting(r)
  }

  lemma StepCarries(w: World, a: Action, r: SyncResult)
    requires Valid(w) && Enabled(w, a) && Carries(Apply(w, a), r)
    ensures Carries(w, r) || (a.SyncReturns? && r.err == a.err && r.secret == w.ctl.jobs[a.i].secret)
  {
    if a.Offer? {
      assert w.procs[a.i].pc == Reporting(w.procs[a.i].pc.result);
    } else if a.Consume? {
      assert w.queue[0] in w.queue;
    }
  }

  ghost predicate FilesHeld(d: F.World, r: SyncResult) {
    forall f :: f in r.secret.files ==> Holds(d, f.path) && !Paths.IsTemp(f.path)
  }

  ghost predicate SuccessesHeld(s: Shared) {
    forall r :: Carries(s.jobs, r) && r.Success() ==> FilesHeld(s.disk, r)
  }

  ghost predicate SharedOk(original: F.Fs, s: Shared) {
    Inv(s.jobs) && F.Inv(original, s.disk) && WritersHold(s.disk) && SuccessesHeld(s)
  }

  lemma WroteIsHeld(original: F.Fs, d: F.World, path: string)
    requires F.Inv(original, d) && WritersHold(d) && Wrote(d, path)
    ensures Holds(d, path) && !Paths.IsTemp(path)
  {
    var id :| F.At(d, id) && d.writers[id].pc == F.Returned(true) && d.writers[id].call.path == path;
    assert F.WriterOk(d, id);
  }

  lemma StepKeepsOk(original: F.Fs, s: Shared, step: Step)
    requires SharedOk(original, s) && MayDo(s, step)
    ensures SharedOk(original, Do(s, step))
  {
    hide Conserved, AllHonest, StatusOk, F.Inv, WritersHold, Apply, Enabled, F.Apply, F.Enabled, Holds, Carries, Paths.IsTemp, Wrote;
    match step
    case Job(a) =>
      StepKeepsInv(s.jobs, a);
      forall r | Carries(Apply(s.jobs, a), r) && r.Success() ensures FilesHeld(s.disk, r) {
        StepCarries(s.jobs, a, r);
        if !Carries(s.jobs, r) {
          forall f | f in r.secret.files ensures Holds(s.disk, f.path) && !Paths.IsTemp(f.path) {
            WroteIsHeld(original, s.disk, f.path);
          }
        }
      }
    case Disk(a) =>
      F.StepKeepsInv(original, s.disk, a);
      StepKeepsWritersHold(original, s.disk, a);
      forall r | Carries(s.jobs, r) && r.Success() ensures FilesHeld(F.Apply(s.disk, a), r) {
        forall f | f in r.secret.files ensures Holds(F.Apply(s.disk, a), f.path) && !Paths.IsTemp(f.path) {
          StepKeepsHeld(original, s.disk, a, f.path);
        }
      }
  }

  lemma {:induction false} RunKeepsOk(original: F.Fs, s: Shared, steps: seq<Step>, end: Shared)
    requires SharedOk(original, s) && Runs(s, steps, end)
    ensures SharedOk(original, end)
    decreases |steps|
  {
    hide SharedOk, MayDo, Do;
    if steps != [] {
      StepKeepsOk(original, s, steps[0]);
      RunKeepsOk(original, Do(s, steps[0]), steps[1..], end);
    }
  }

  lemma StartIsOk(engine: Syncer.Engine, stale: bool, disk: F.World)
    requires F.Initial(disk)
    ensures SharedOk(disk.fs, Shared(New(engine, stale), disk))
  {
    hide F.Apply, F.Enabled, Apply, Enabled;
  }

  lemma ReceivedIsCarried(w: World, k: nat)
    requires k < |w.consumed|
    ensures Carries(w, w.consumed[k])
  {
  }

  lemma ReadyIsReceived(w: World) returns (k: nat)
    requires Inv(w) && w.status.ready
    ensures k < |w.consumed| && w.consumed[k].Success()
  {
    hide Conserved, AllHonest;
    SuccessesPositive(w.consumed);
    k :| k < |w.consumed| && w.consumed[k].Success();
  }

  /** While Ready holds, every file of some secret is on the shared disk with the whole content of a write, in every
      interleaving of jobs, table changes, monitor, writers and sweep, whatever the disk held at first. */
  lemma ReadyMeansOnDisk(engine: Syncer.Engine, stale: bool, disk: F.World, steps: seq<Step>, end: Shared)
    requires F.Initial(disk) && Runs(Shared(New(engine, stale), disk), steps, end) && end.jobs.status.ready
    ensures exists k :: 0 <= k < |end.jobs.consumed| && end.jobs.consumed[k].Success() && FilesHeld(end.disk, end.jobs.consumed[k])
  {
    hide Inv, F.Inv, F.Initial, WritersHold, FilesHeld, Carries, Runs;
    StartIsOk(engine, stale, disk);
    RunKeepsOk(disk.fs, Shared(New(engine, stale), disk), steps, end);
    var k := ReadyIsReceived(end.jobs);
    ReceivedIsCarried(end.jobs, k);
  }
}
