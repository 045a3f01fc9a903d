/** One scheduler as interleaved steps: job goroutines, table operations, the bounded result channel, the monitor. */
module JobProtocol {
  import opened Options
  import opened Config
  import opened Scheduling
  import opened Health
  import FileStore
  import Syncer

  const CAPACITY := 100

  /** Where a job goroutine is. Reporting holds a finished sync whose result has not been offered yet. */
  datatype Pc = Unstarted | Syncing | Reporting(result: SyncResult) | Waiting | Exited

  /** tick says that the job's ticker channel holds a tick. */
  datatype Proc = Proc(pc: Pc, tick: bool, lastSync: Option<int>)

  /** completed lists every finished sync in order, dropped the results a full channel refused; fileOk says that
      the last status file operation succeeded (never, when no status file is configured). engine stays the same. */
  datatype World = World(engine: Syncer.Engine, ctl: Ctl, procs: seq<Proc>, stopping: bool,
                         queue: seq<SyncResult>, consumed: seq<SyncResult>,
                         completed: seq<SyncResult>, dropped: seq<SyncResult>,
                         status: Readiness, fileOk: bool)

  datatype Action =
    | AddSecret(secret: Secret)
    | RemoveSecret(name: string)
    | StopCloses
    | StopFinishes
    | FirstSync(i: nat)
    | SyncReturns(i: nat, err: Option<Syncer.SyncError>, written: nat, disk: FileStore.Fs, timestamp: int)
    | Offer(i: nat)
    | Tick(i: nat)
    | TakeTick(i: nat)
    | TakeStop(i: nat)
    | Consume(secretCount: nat, fileOk: bool)
  {
    predicate OfSomeJob() { FirstSync? || SyncReturns? || Offer? || TakeTick? || TakeStop? }
    predicate OfJob(j: nat) { OfSomeJob() && i == j }
    predicate OfDaemon() { OfSomeJob() || Tick? || Consume? }
    predicate OfTable() { AddSecret? || RemoveSecret? || StopCloses? || StopFinishes? }
  }

  predicate Valid(w: World) {
    |w.procs| == |w.ctl.jobs|
  }

  /** What each step needs; a panic ends the process. Select may pick any ready case. */
  ghost predicate Enabled(w: World, a: Action)
    requires Valid(w)
  {
    && !w.ctl.panicked
    && match a
       case AddSecret(_) => true
       case RemoveSecret(_) => true
       case StopCloses => true
       case StopFinishes => w.stopping
       case FirstSync(i) => i < |w.procs| && w.procs[i].pc.Unstarted?
       case SyncReturns(i, err, written, disk, _) =>
         i < |w.procs| && w.procs[i].pc.Syncing? && Syncer.SyncReport(w.engine, w.ctl.jobs[i].secret, err, written, disk)
       case Offer(i) => i < |w.procs| && w.procs[i].pc.Reporting?
       case Tick(i) => i < |w.procs| && w.ctl.jobs[i].ticking
       case TakeTick(i) => i < |w.procs| && w.procs[i].pc.Waiting? && w.procs[i].tick
       case TakeStop(i) => i < |w.procs| && w.procs[i].pc.Waiting? && (w.ctl.jobs[i].stopped || w.ctl.stopped)
       case Consume(_, _) => w.queue != []
  }

  /** A stopped ticker delivers nothing any more. */
  function Drain(procs: seq<Proc>, ctl: Ctl): seq<Proc>
    requires |procs| == |ctl.jobs|
  {
    seq(|procs|, i requires 0 <= i < |procs| => procs[i].(tick := procs[i].tick && ctl.jobs[i].ticking))
  }

  function SetPc(w: World, i: nat, pc: Pc): World
    requires i < |w.procs|
  {
    w.(procs := w.procs[i := w.procs[i].(pc := pc)])
  }

  ghost function Apply(w: World, a: Action): World
    requires Valid(w) && Enabled(w, a)
  {
    match a
    case AddSecret(secret) =>
      var ctl := Add(w.ctl, secret);
      w.(ctl := ctl, procs := Drain(w.procs + [Proc(Unstarted, false, None)], ctl))
    case RemoveSecret(name) =>
      var ctl := Remove(w.ctl, name);
      w.(ctl := ctl, procs := Drain(w.procs, ctl))
    case StopCloses => w.(ctl := StopBegin(w.ctl), stopping := true)
    case StopFinishes =>
      var ctl := StopFinish(w.ctl);
      w.(ctl := ctl, procs := Drain(w.procs, ctl), stopping := false)
    case FirstSync(i) => SetPc(w, i, Syncing)
    case SyncReturns(i, err, written, disk, timestamp) =>
      var result := SyncResult(w.ctl.jobs[i].secret, err, written, disk, timestamp);
      var last := if err.None? then Some(timestamp) else w.procs[i].lastSync;
      w.(procs := w.procs[i := Proc(Reporting(result), w.procs[i].tick, last)], completed := w.completed + [result])
    case Offer(i) =>
      var result := w.procs[i].pc.result;
      if |w.queue| < CAPACITY then SetPc(w, i, Waiting).(queue := w.queue + [result])
      else SetPc(w, i, Waiting).(dropped := w.dropped + [result])
    case Tick(i) => w.(procs := w.procs[i := w.procs[i].(tick := true)])
    case TakeTick(i) => w.(procs := w.procs[i := w.procs[i].(tick := false, pc := Syncing)])
    case TakeStop(i) => SetPc(w, i, Exited)
    case Consume(secretCount, fileOk) =>
      var consumed := w.consumed + [w.queue[0]];
      w.(queue := w.queue[1..], consumed := consumed,
         status := Update(w.status, true, secretCount, Successes(consumed), fileOk), fileOk := fileOk)
  }

  /** A scheduler just created; a status file of an earlier process may exist. */
  function New(engine: Syncer.Engine, stale: bool): World {
    World(engine, EMPTY, [], false, [], [], [], [], Readiness(false, 0, 0, stale), true)
  }

  ghost predicate Reaches(w: World, steps: seq<Action>, end: World)
    requires Valid(w)
    decreases |steps|
  {
    if steps == [] then end == w
    else Enabled(w, steps[0]) && Valid(Apply(w, steps[0])) && Reaches(Apply(w, steps[0]), steps[1..], end)
  }

  // ----- Invariant -----

  /** Selects one result, or every result. */
  type Which = Option<SyncResult>

  function Is(x: SyncResult, r: Which): nat {
    if r.None? || r.value == x then 1 else 0
  }

  function Count(s: seq<SyncResult>, r: Which): nat {
    if r.None? then |s| else multiset(s)[r.value]
  }

  function Own(p: Proc, r: Which): nat {
    if p.pc.Reporting? then Is(p.pc.result, r) else 0
  }

  /** How often a result is held by a job that has not offered it yet. */
  function Outstanding(procs: seq<Proc>, r: Which): nat {
    if procs == [] then 0 else Outstanding(procs[..|procs| - 1], r) + Own(procs[|procs| - 1], r)
  }

  lemma CountOfMore(s: seq<SyncResult>, x: SyncResult)
    ensures forall r :: Count(s + [x], r) == Count(s, r) + Is(x, r)
  {
  }

  lemma {:induction false} OutstandingAfter(procs: seq<Proc>, i: nat, p: Proc, r: Which)
    requires i < |procs|
    ensures Outstanding(procs[i := p], r) + Own(procs[i], r) == Outstanding(procs, r) + Own(p, r)
  {
    var n := |procs| - 1;
    var after := procs[i := p];
    if i < n {
      assert after[..n] == procs[..n][i := p] && after[n] == procs[n];
      OutstandingAfter(procs[..n], i, p, r);
    } else {
      assert after[..n] == procs[..n];
    }
  }

  lemma {:induction false} OutstandingOfSamePcs(p: seq<Proc>, q: seq<Proc>, r: Which)
    requires |p| == |q| && forall i :: 0 <= i < |p| ==> p[i].pc == q[i].pc
    ensures Outstanding(p, r) == Outstanding(q, r)
  {
    if p != [] { OutstandingOfSamePcs(p[..|p| - 1], q[..|q| - 1], r); }
  }

  ghost predicate Honest(engine: Syncer.Engine, r: SyncResult) {
    Syncer.SyncReport(engine, r.secret, r.err, r.written, r.disk)
  }

  /** No finished sync is lost or duplicated: in number, and result by result. */
  ghost predicate Conserved(w: World) {
    forall r: Which {:trigger Count(w.completed, r)} ::
      Count(w.completed, r) == Count(w.consumed, r) + Count(w.queue, r) + Count(w.dropped, r) + Outstanding(w.procs, r)
  }

  ghost predicate AllHonest(w: World) {
    && (forall i :: 0 <= i < |w.procs| && w.procs[i].pc.Reporting? ==> Honest(w.engine, w.procs[i].pc.result))
    && (forall r :: r in w.queue || r in w.consumed ==> Honest(w.engine, r))
  }

  ghost predicate StatusOk(w: World) {
    && (w.consumed == [] ==> !w.status.ready && w.status.syncedCount == 0)
    && (w.consumed != [] ==>
          && w.status.syncedCount == Successes(w.consumed) && (w.status.ready <==> w.status.syncedCount > 0)
          && (w.fileOk ==> w.status.fileExists == w.status.ready))
  }

  ghost predicate Inv(w: World) {
    && Valid(w) && CtlOk(w.ctl)
    && (forall i :: 0 <= i < |w.procs| && w.procs[i].tick ==> w.ctl.jobs[i].ticking)
    && |w.queue| <= CAPACITY
    && Conserved(w) && AllHonest(w) && StatusOk(w)
  }

  lemma TableChangeKeepsInv(w: World, ctl: Ctl, procs: seq<Proc>, stopping: bool)
    requires Inv(w) && CtlOk(ctl) && |procs| == |ctl.jobs|
    requires procs == w.procs || procs == w.procs + [Proc(Unstarted, false, None)]
    ensures Inv(w.(ctl := ctl, procs := Drain(procs, ctl), stopping := stopping))
  {
    var w' := w.(ctl := ctl, procs := Drain(procs, ctl), stopping := stopping);
    forall r: Which ensures Outstanding(w'.procs, r) == Outstanding(w.procs, r) {
      OutstandingOfSamePcs(procs, w'.procs, r);
      if procs != w.procs { assert procs[..|w.procs|] == w.procs; }
    }
    assert Conserved(w') by {
      forall r: Which ensures Count(w'.completed, r) ==
        Count(w'.consumed, r) + Count(w'.queue, r) + Count(w'.dropped, r) + Outstanding(w'.procs, r)
      {
        assert Count(w.completed, r) == Count(w'.completed, r);
      }
    }
  }

  lemma TableStepKeepsInv(w: World, a: Action)
    requires Inv(w) && Enabled(w, a) && a.OfTable()
    ensures Inv(Apply(w, a))
    ensures Apply(w, a).ctl.panicked <==> a.StopCloses? && w.ctl.stopped
    ensures Apply(w, a).ctl.stopped <==> a.StopCloses? || w.ctl.stopped
  {
    match a
    case AddSecret(secret) =>
      AddKeepsOk(w.ctl, secret);
      TableChangeKeepsInv(w, Add(w.ctl, secret), w.procs + [Proc(Unstarted, false, None)], w.stopping);
    case RemoveSecret(name) =>
      RemoveKeepsOk(w.ctl, name);
      TableChangeKeepsInv(w, Remove(w.ctl, name), w.procs, w.stopping);
    case StopCloses =>
      StopKeepsOk(w.ctl);
    case StopFinishes =>
      StopKeepsOk(w.ctl);
      TableChangeKeepsInv(w, StopFinish(w.ctl), w.procs, false);
  }

  /** One proc changes; whatever it no longer holds is in the queue, dropped, or newly completed. */
  ghost predicate Balanced(w: World, i: nat, p: Proc, w': World)
    requires i < |w.procs|
  {
    && w' == w.(procs := w.procs[i := p], queue := w'.queue, completed := w'.completed, dropped := w'.dropped)
    && forall r: Which {:trigger Count(w'.completed, r)} ::
         Count(w'.completed, r) + Count(w.queue, r) + Count(w.dropped, r) + Own(w.procs[i], r)
         == Count(w.completed, r) + Count(w'.queue, r) + Count(w'.dropped, r) + Own(p, r)
  }

  lemma BalancedConserves(w: World, i: nat, p: Proc, w': World)
    requires Conserved(w) && i < |w.procs| && Balanced(w, i, p, w')
    ensures Conserved(w')
  {
    forall r: Which ensures Count(w'.completed, r) ==
      Count(w'.consumed, r) + Count(w'.queue, r) + Count(w'.dropped, r) + Outstanding(w'.procs, r)
    {
      OutstandingAfter(w.procs, i, p, r);
      assert Count(w.completed, r) == Count(w.consumed, r) + Count(w.queue, r) + Count(w.dropped, r) + Outstanding(w.procs, r);
    }
  }

  lemma JobStepIsBalanced(w: World, a: Action)
    requires Inv(w) && Enabled(w, a) && (a.Tick? || a.OfSomeJob())
    ensures a.i < |w.procs| && Balanced(w, a.i, Apply(w, a).procs[a.i], Apply(w, a))
  {
    hide Conserved, AllHonest, StatusOk, CtlOk, Syncer.SyncReport;
    var p := w.procs[a.i];
    if a.Offer? {
      CountOfMore(w.queue, p.pc.result);
      CountOfMore(w.dropped, p.pc.result);
    } else if a.SyncReturns? {
      CountOfMore(w.completed, Apply(w, a).procs[a.i].pc.result);
    }
  }

  lemma JobStepKeepsInv(w: World, a: Action)
    requires Inv(w) && Enabled(w, a) && (a.Tick? || a.OfSomeJob())
    ensures Inv(Apply(w, a)) && Apply(w, a).ctl == w.ctl
  {
    JobStepIsBalanced(w, a);
    BalancedConserves(w, a.i, Apply(w, a).procs[a.i], Apply(w, a));
  }

  lemma ConsumeConserves(w: World, head: SyncResult, w': World)
    requires Conserved(w) && w.queue != [] && head == w.queue[0]
    requires w'.queue == w.queue[1..] && w'.consumed == w.consumed + [head]
    requires w'.completed == w.completed && w'.dropped == w.dropped && w'.procs == w.procs
    ensures Conserved(w')
  {
    assert w.queue == [head] + w.queue[1..];
    CountOfMore(w.consumed, head);
    forall r: Which ensures Count(w'.completed, r) ==
      Count(w'.consumed, r) + Count(w'.queue, r) + Count(w'.dropped, r) + Outstanding(w'.procs, r)
    {
      assert Count(w.completed, r) == Count(w.consumed, r) + Count(w.queue, r) + Count(w.dropped, r) + Outstanding(w.procs, r);
      assert Count(w.queue, r) == Is(head, r) + Count(w.queue[1..], r);
    }
  }

  lemma ConsumeKeepsInv(w: World, a: Action)
    requires Inv(w) && Enabled(w, a) && a.Consume?
    ensures Inv(Apply(w, a)) && Apply(w, a).ctl == w.ctl
  {
    ConsumeConserves(w, w.queue[0], Apply(w, a));
  }

  lemma StepKeepsInv(w: World, a: Action)
    requires Inv(w) && Enabled(w, a)
    ensures Inv(Apply(w, a)) && Apply(w, a).engine == w.engine
    ensures Apply(w, a).ctl.panicked <==> a.StopCloses? && w.ctl.stopped
    ensures Apply(w, a).ctl.stopped <==> a.StopCloses? || w.ctl.stopped
  {
    if a.OfTable() {
      TableStepKeepsInv(w, a);
    } else if a.Consume? {
      ConsumeKeepsInv(w, a);
    } else {
      JobStepKeepsInv(w, a);
    }
  }

  function Stops(steps: seq<Action>): nat {
    if steps == [] then 0 else (if steps[0].StopCloses? then 1 else 0) + Stops(steps[1..])
  }

  lemma PanicEndsTheRun(w: World, steps: seq<Action>, end: World)
    requires Valid(w) && w.ctl.panicked && Reaches(w, steps, end)
    ensures steps == [] && end == w
  {
  }

  lemma {:induction false} RunKeepsInv(w: World, steps: seq<Action>, end: World)
    requires Inv(w) && Reaches(w, steps, end) && !w.ctl.panicked
    ensures Inv(end) && end.engine == w.engine
    ensures end.ctl.panicked <==> Stops(steps) + (if w.ctl.stopped then 1 else 0) >= 2
    decreases |steps|
  {
    if steps != [] {
      StepKeepsInv(w, steps[0]);
      var next := Apply(w, steps[0]);
      if next.ctl.panicked {
        PanicEndsTheRun(next, steps[1..], end);
      } else {
        RunKeepsInv(next, steps[1..], end);
      }
    }
  }

  // ----- Theorems over every run -----

  /** In every run a stop channel is open exactly while the table maps the name to the job, so at most one job of a
      name is open; and a channel is closed twice exactly when Stop is called twice. */
  lemma StopChannels(engine: Syncer.Engine, stale: bool, steps: seq<Action>, end: World)
    requires Reaches(New(engine, stale), steps, end)
    ensures CtlOk(end.ctl)
    ensures forall i, j :: 0 <= i < j < |end.ctl.jobs| && !end.ctl.jobs[i].stopped && !end.ctl.jobs[j].stopped ==>
      end.ctl.jobs[i].secret.name != end.ctl.jobs[j].secret.name
    ensures end.ctl.panicked <==> Stops(steps) >= 2
  {
    RunKeepsInv(New(engine, stale), steps, end);
    assert forall i :: 0 <= i < |end.ctl.jobs| && !end.ctl.jobs[i].stopped ==> Tabled(end.ctl, i);
  }

  /** The results that the run offers while the channel is full, in order. */
  ghost function OfferedAtFull(w: World, steps: seq<Action>, end: World): seq<SyncResult>
    requires Valid(w) && Reaches(w, steps, end)
    decreases |steps|
  {
    if steps == [] then [] else OfferedNow(w, steps[0]) + OfferedAtFull(Apply(w, steps[0]), steps[1..], end)
  }

  ghost function OfferedNow(w: World, a: Action): seq<SyncResult>
    requires Valid(w) && Enabled(w, a)
  {
    if a.Offer? && |w.queue| == CAPACITY then [w.procs[a.i].pc.result] else []
  }

  lemma DropsOnlyWhenFull(w: World, a: Action)
    requires Valid(w) && Enabled(w, a) && |w.queue| <= CAPACITY
    ensures Apply(w, a).dropped == w.dropped + OfferedNow(w, a) && |Apply(w, a).queue| <= CAPACITY
  {
  }

  lemma {:induction false} DropsAreOffersAtFull(w: World, steps: seq<Action>, end: World)
    requires Valid(w) && Reaches(w, steps, end) && |w.queue| <= CAPACITY
    ensures end.dropped == w.dropped + OfferedAtFull(w, steps, end)
    ensures OfferedAtFull(w, steps, end) != [] ==> |end.consumed| + |end.queue| >= 100
    decreases |steps|
  {
    hide Apply, Enabled;
    if steps != [] {
      DropsOnlyWhenFull(w, steps[0]);
      StepIsFifo(w, steps[0]);
      ChannelIsFifo(Apply(w, steps[0]), steps[1..], end);
      DropsAreOffersAtFull(Apply(w, steps[0]), steps[1..], end);
    }
  }

  /** Every finished sync is consumed, queued, dropped or still to be offered, and in only one of these places; dropped
      are exactly the results offered while the channel was full. */
  lemma ResultsAreConserved(engine: Syncer.Engine, stale: bool, steps: seq<Action>, end: World, r: SyncResult)
    requires Reaches(New(engine, stale), steps, end)
    ensures |end.queue| <= 100 && (end.dropped != [] ==> |end.consumed| + |end.queue| >= 100)
    ensures |end.completed| == |end.consumed| + |end.queue| + |end.dropped| + Outstanding(end.procs, None)
    ensures multiset(end.completed)[r] ==
      multiset(end.consumed)[r] + multiset(end.queue)[r] + multiset(end.dropped)[r] + Outstanding(end.procs, Some(r))
    ensures end.dropped == OfferedAtFull(New(engine, stale), steps, end)
  {
    hide Enabled, Apply, Reaches, OfferedAtFull, AllHonest, StatusOk, CtlOk;
    RunKeepsInv(New(engine, stale), steps, end);
    DropsAreOffersAtFull(New(engine, stale), steps, end);
    assert Count(end.completed, None) == |end.completed|;
    assert Count(end.completed, Some(r)) == multiset(end.completed)[r];
  }

  /** Results reach the monitor in the order they entered the channel; no step reorders or removes an earlier one. */
  lemma {:induction false} ChannelIsFifo(w: World, steps: seq<Action>, end: World)
    requires Valid(w) && Reaches(w, steps, end)
    ensures w.consumed + w.queue <= end.consumed + end.queue
    ensures w.consumed <= end.consumed
    decreases |steps|
  {
    if steps != [] {
      StepIsFifo(w, steps[0]);
      ChannelIsFifo(Apply(w, steps[0]), steps[1..], end);
    }
  }

  lemma StepIsFifo(w: World, a: Action)
    requires Valid(w) && Enabled(w, a)
    ensures var w' := Apply(w, a);
      w.consumed + w.queue <= w'.consumed + w'.queue && w.consumed <= w'.consumed
  {
    if a.Consume? {
      assert w.consumed + w.queue == w.consumed + [w.queue[0]] + w.queue[1..];
    } else if a.Offer? {
      assert w.consumed + (w.queue + [w.procs[a.i].pc.result]) == w.consumed + w.queue + [w.procs[a.i].pc.result];
    }
  }

  predicate Succeeds(a: Action, i: nat) {
    a.SyncReturns? && a.i == i && a.err.None?
  }

  ghost predicate LatestSuccess(steps: seq<Action>, i: nat, k: int) {
    && 0 <= k < |steps| && Succeeds(steps[k], i)
    && forall j :: k < j < |steps| ==> !Succeeds(steps[j], i)
  }

  function LastSync(w: World, i: nat): Option<int> {
    if i < |w.procs| then w.procs[i].lastSync else None
  }

  lemma StepRecordsSuccess(w: World, a: Action, i: nat)
    requires Valid(w) && Enabled(w, a)
    ensures LastSync(Apply(w, a), i) == if Succeeds(a, i) then Some(a.timestamp) else LastSync(w, i)
  {
  }

  /** A job's last sync time is that of its latest successful sync: failed syncs, other jobs and table changes leave it. */
  lemma {:induction false} LastSyncIsLatestSuccess(w: World, steps: seq<Action>, end: World, i: nat)
    requires Valid(w) && Reaches(w, steps, end)
    ensures (forall k :: 0 <= k < |steps| ==> !Succeeds(steps[k], i)) ==> LastSync(end, i) == LastSync(w, i)
    ensures forall k :: LatestSuccess(steps, i, k) ==> LastSync(end, i) == Some(steps[k].timestamp)
    decreases |steps|
  {
    hide Enabled, Apply, LastSync;
    if steps != [] {
      var rest := steps[1..];
      StepRecordsSuccess(w, steps[0], i);
      LastSyncIsLatestSuccess(Apply(w, steps[0]), rest, end, i);
      assert forall j :: 0 <= j < |rest| ==> rest[j] == steps[j + 1];
      forall k | LatestSuccess(steps, i, k) ensures LastSync(end, i) == Some(steps[k].timestamp) {
        if k > 0 {
          assert LatestSuccess(rest, i, k - 1);
        }
      }
    }
  }

  ghost predicate PlainTargets(files: seq<File>) {
    Distinct(PathsOf(files)) && Syncer.NoTempTargets(files)
  }

  /** On the disk the sync left, every file of its secret holds what the engine renders from the template of the file's
      base name and the data of one fetch. */
  ghost predicate AllFilesHold(engine: Syncer.Engine, r: SyncResult) {
    r.written == |r.secret.files| && exists data :: Syncer.AllHold(r.disk, r.secret, data, engine)
  }

  /** Ready says that some consumed sync succeeded; if the paths of its secret are distinct and none looks like a temp
      file, the disk it left has every file of the secret holding its rendering. */
  lemma ReadyMeansDelivered(engine: Syncer.Engine, stale: bool, steps: seq<Action>, end: World)
    requires Reaches(New(engine, stale), steps, end)
    ensures end.status.ready <==> exists k :: 0 <= k < |end.consumed| && end.consumed[k].Success()
    ensures forall r :: r in end.consumed && r.Success() && PlainTargets(r.secret.files) ==> AllFilesHold(engine, r)
    ensures end.consumed != [] && end.fileOk ==> end.status.fileExists == end.status.ready
  {
    RunKeepsInv(New(engine, stale), steps, end);
    SuccessesPositive(end.consumed);
    forall r | r in end.consumed && r.Success() && PlainTargets(r.secret.files)
      ensures AllFilesHold(engine, r)
    {
      assert Honest(engine, r);
      Syncer.SuccessMeansAllHold(engine, r.secret, r.written, r.disk);
    }
  }

  lemma UnmonitoredStep(w: World, a: Action)
    requires Inv(w) && Enabled(w, a) && !a.Consume? && (w.dropped != [] ==> |w.queue| == CAPACITY)
    ensures var w' := Apply(w, a);
      w'.status == w.status && w'.consumed == w.consumed && (w'.dropped != [] ==> |w'.queue| == CAPACITY)
  {
  }

  // ----- The last sync time looked up by name -----

  /** The steps that take the present job of a name out of the table. */
  predicate Ends(a: Action, name: string) {
    (a.AddSecret? && a.secret.name == name) || a == RemoveSecret(name) || a.StopFinishes?
  }

  function Adds(steps: seq<Action>): nat {
    if steps == [] then 0 else (if steps[0].AddSecret? then 1 else 0) + Adds(steps[1..])
  }

  /** Step k adds the job that is in the table under the name after the run. */
  ghost predicate AddedAt(steps: seq<Action>, name: string, k: int) {
    && 0 <= k < |steps| && steps[k].AddSecret? && steps[k].secret.name == name
    && forall j :: k < j < |steps| ==> !Ends(steps[j], name)
  }

  ghost predicate NoneEnds(steps: seq<Action>, name: string) {
    forall j :: 0 <= j < |steps| ==> !Ends(steps[j], name)
  }

  lemma StepAndTable(w: World, a: Action, name: string)
    requires Valid(w) && Enabled(w, a) && Valid(Apply(w, a))
    ensures var w' := Apply(w, a);
      && |w'.procs| == |w.procs| + (if a.AddSecret? then 1 else 0)
      && (name in w'.ctl.table <==> if Ends(a, name) then a.AddSecret? else name in w.ctl.table)
      && (name in w'.ctl.table ==> w'.ctl.table[name] == if Ends(a, name) then |w.procs| else w.ctl.table[name])
  {
  }

  /** The table entry of a name after a run, from the trace alone. */
  lemma {:induction false} RunAndTable(w: World, steps: seq<Action>, end: World, name: string)
    requires Valid(w) && Reaches(w, steps, end)
    ensures name in end.ctl.table <==> (exists k :: AddedAt(steps, name, k)) || (NoneEnds(steps, name) && name in w.ctl.table)
    ensures forall k :: AddedAt(steps, name, k) ==>
      name in end.ctl.table && end.ctl.table[name] == |w.procs| + Adds(steps[..k])
    ensures NoneEnds(steps, name) && name in w.ctl.table ==> end.ctl.table[name] == w.ctl.table[name]
    decreases |steps|
  {
    hide Enabled, Apply, Ends;
    if steps != [] {
      var rest := steps[1..];
      StepAndTable(w, steps[0], name);
      RunAndTable(Apply(w, steps[0]), rest, end, name);
      LaterAdds(steps, name);
      assert NoneEnds(steps, name) <==> !Ends(steps[0], name) && NoneEnds(rest, name) by {
        assert forall j :: 0 <= j < |rest| ==> rest[j] == steps[j + 1];
        assert forall j :: 0 < j < |steps| ==> steps[j] == rest[j - 1];
      }
    }
  }

  lemma LaterAdds(steps: seq<Action>, name: string)
    requires steps != []
    ensures forall k :: k > 0 ==> (AddedAt(steps, name, k) <==> AddedAt(steps[1..], name, k - 1))
    ensures forall k :: 0 < k <= |steps| ==> Adds(steps[..k]) == (if steps[0].AddSecret? then 1 else 0) + Adds(steps[1..][..k - 1])
    ensures AddedAt(steps, name, 0) <==> steps[0].AddSecret? && Ends(steps[0], name) && NoneEnds(steps[1..], name)
    ensures forall k :: AddedAt(steps[1..], name, k) ==> AddedAt(steps, name, k + 1)
  {
    var rest := steps[1..];
    assert forall j :: 0 <= j < |rest| ==> rest[j] == steps[j + 1];
    assert forall j :: 0 < j < |steps| ==> steps[j] == rest[j - 1];
    forall k | 0 < k <= |steps|
      ensures Adds(steps[..k]) == (if steps[0].AddSecret? then 1 else 0) + Adds(rest[..k - 1])
    {
      assert steps[..k][1..] == rest[..k - 1];
    }
    forall k | 0 < k ensures AddedAt(steps, name, k) <==> AddedAt(rest, name, k - 1) {
      if AddedAt(steps, name, k) {
        forall j | k - 1 < j < |rest| ensures !Ends(rest[j], name) { assert !Ends(steps[j + 1], name); }
      }
      if AddedAt(rest, name, k - 1) {
        forall j | k < j < |steps| ensures !Ends(steps[j], name) { assert !Ends(rest[j - 1], name); }
      }
    }
  }

  lemma {:induction false} SuccessAfterAdd(w: World, steps: seq<Action>, end: World, i: nat, j: nat)
    requires Valid(w) && Reaches(w, steps, end) && j < |steps| && Succeeds(steps[j], i)
    ensures i < |w.procs| + Adds(steps[..j])
    decreases |steps|
  {
    hide Apply;
    if j > 0 {
      StepAndTable(w, steps[0], "");
      SuccessAfterAdd(Apply(w, steps[0]), steps[1..], end, i, j - 1);
      assert steps[..j][1..] == steps[1..][..j - 1];
    }
  }

  lemma {:induction false} AddsGrow(steps: seq<Action>, j: nat, k: nat)
    requires j <= k <= |steps|
    ensures Adds(steps[..j]) <= Adds(steps[..k])
  {
    if j > 0 {
      assert steps[..j][1..] == steps[1..][..j - 1] && steps[..k][1..] == steps[1..][..k - 1];
      AddsGrow(steps[1..], j - 1, k - 1);
    }
  }

  /** GetLastSyncTime: what the table yields for a name. */
  function LastSyncTime(w: World, name: string): Option<Option<int>> {
    if name in w.ctl.table then Some(LastSync(w, w.ctl.table[name])) else None
  }

  /** Over any run, a name has a last sync time exactly while a job of that name is in the table. It is the timestamp of
      the latest successful sync of that very job, all of which come after the job was added; a job that replaces
      another starts again at none. */
  lemma LookedUpTimeIsLatestSuccess(engine: Syncer.Engine, stale: bool, steps: seq<Action>, end: World, name: string)
    requires Reaches(New(engine, stale), steps, end)
    ensures LastSyncTime(end, name).Some? <==> exists k :: AddedAt(steps, name, k)
    ensures forall k :: AddedAt(steps, name, k) ==>
      var i := Adds(steps[..k]);
      && (forall j :: 0 <= j < |steps| && Succeeds(steps[j], i) ==> k < j)
      && (forall j :: LatestSuccess(steps, i, j) ==> LastSyncTime(end, name) == Some(Some(steps[j].timestamp)))
      && ((forall j :: k < j < |steps| ==> !Succeeds(steps[j], i)) ==> LastSyncTime(end, name) == Some(None))
  {
    var w := New(engine, stale);
    RunAndTable(w, steps, end, name);
    forall k | AddedAt(steps, name, k)
      ensures var i := Adds(steps[..k]);
        && (forall j :: 0 <= j < |steps| && Succeeds(steps[j], i) ==> k < j)
        && (forall j :: LatestSuccess(steps, i, j) ==> LastSyncTime(end, name) == Some(Some(steps[j].timestamp)))
        && ((forall j :: k < j < |steps| ==> !Succeeds(steps[j], i)) ==> LastSyncTime(end, name) == Some(None))
    {
      var i := Adds(steps[..k]);
      LastSyncIsLatestSuccess(w, steps, end, i);
      forall j | 0 <= j < |steps| && Succeeds(steps[j], i) ensures k < j {
        SuccessAfterAdd(w, steps, end, i, j);
        if j <= k { AddsGrow(steps, j, k); }
      }
    }
  }

  // ----- When a scheduler can still make the daemon ready -----

  /** The job can still complete a successful sync and offer it. */
  ghost predicate JobMaySucceed(w: World, i: nat)
    requires Valid(w) && i < |w.procs|
  {
    match w.procs[i].pc
    case Unstarted => Syncer.CanSucceed(w.engine, w.ctl.jobs[i].secret)
    case Syncing => Syncer.CanSucceed(w.engine, w.ctl.jobs[i].secret)
    case Reporting(result) => result.Success() || (!w.ctl.jobs[i].stopped && Syncer.CanSucceed(w.engine, w.ctl.jobs[i].secret))
    case Waiting => !w.ctl.jobs[i].stopped && Syncer.CanSucceed(w.engine, w.ctl.jobs[i].secret)
    case Exited => false
  }

  ghost predicate MayBecomeReady(w: World)
    requires Valid(w)
  {
    || w.status.ready
    || (exists k :: 0 <= k < |w.queue| && w.queue[k].Success())
    || exists i :: 0 <= i < |w.procs| && JobMaySucceed(w, i)
  }

  lemma SameEngine(w: World, a: Action)
    requires Valid(w) && Enabled(w, a)
    ensures Apply(w, a).engine == w.engine
  {
  }

  lemma SuccessNeedsIt(w: World, a: Action)
    requires Valid(w) && Enabled(w, a) && a.SyncReturns?
    ensures a.err.None? ==> Syncer.CanSucceed(w.engine, w.ctl.jobs[a.i].secret)
  {
  }

  /** A table step starts no job again: it only closes channels, and takes pending ticks from the jobs it stops. */
  lemma TableStepAndJob(w: World, a: Action, i: nat)
    requires Inv(w) && Enabled(w, a) && a.OfTable() && i < |w.procs|
    ensures var w' := Apply(w, a);
      && i < |w'.procs| && i < |w'.ctl.jobs| && w'.procs[i].pc == w.procs[i].pc
      && w'.ctl.jobs[i].secret == w.ctl.jobs[i].secret && (w.ctl.jobs[i].stopped ==> w'.ctl.jobs[i].stopped)
      && (w'.procs[i].tick <==> w.procs[i].tick && !w'.ctl.jobs[i].stopped)
  {
    hide Conserved, AllHonest, StatusOk;
  }

  lemma HopelessWork(w: World, a: Action, i: nat)
    requires Inv(w) && Enabled(w, a) && !a.OfTable() && i < |w.procs| && !JobMaySucceed(w, i)
    ensures i < |Apply(w, a).procs| && Apply(w, a).ctl == w.ctl && !JobMaySucceed(Apply(w, a), i)
  {
    hide Conserved, AllHonest, StatusOk, Syncer.SyncReport, Syncer.CanSucceed;
    if a.SyncReturns? { SuccessNeedsIt(w, a); }
  }

  lemma HopelessJob(w: World, a: Action, i: nat)
    requires Inv(w) && Enabled(w, a) && Inv(Apply(w, a)) && i < |w.procs| && !JobMaySucceed(w, i)
    ensures i < |Apply(w, a).procs| && !JobMaySucceed(Apply(w, a), i)
  {
    hide Enabled, Apply, Conserved, AllHonest, StatusOk, CtlOk, Syncer.CanSucceed;
    SameEngine(w, a);
    if a.OfTable() {
      TableStepAndJob(w, a, i);
    } else {
      HopelessWork(w, a, i);
    }
  }

  lemma HopelessQueue(w: World, a: Action)
    requires Inv(w) && Enabled(w, a) && !MayBecomeReady(w)
    ensures !Apply(w, a).status.ready
    ensures forall k :: 0 <= k < |Apply(w, a).queue| ==> !Apply(w, a).queue[k].Success()
  {
    hide Conserved, AllHonest, CtlOk;
    if a.Consume? {
      SuccessesPositive(w.consumed);
      SuccessesPositive(w.consumed + [w.queue[0]]);
    } else if a.Offer? {
      assert !JobMaySucceed(w, a.i);
    }
  }

  /** Once hopeless, always hopeless, unless a secret that can be delivered is added. */
  lemma HopelessStep(w: World, a: Action)
    requires Inv(w) && Enabled(w, a) && !MayBecomeReady(w) && (a.AddSecret? ==> !Syncer.CanSucceed(w.engine, a.secret))
    ensures Inv(Apply(w, a)) && !MayBecomeReady(Apply(w, a))
  {
    StepKeepsInv(w, a);
    var w' := Apply(w, a);
    HopelessQueue(w, a);
    forall i | 0 <= i < |w'.procs| ensures !JobMaySucceed(w', i) {
      if i < |w.procs| {
        HopelessJob(w, a, i);
      } else {
        NewJob(w, a);
      }
    }
  }

  lemma NewJob(w: World, a: Action)
    requires Valid(w) && Enabled(w, a) && Valid(Apply(w, a)) && |Apply(w, a).procs| > |w.procs|
    ensures a.AddSecret? && |Apply(w, a).procs| == |w.procs| + 1
    ensures Apply(w, a).procs[|w.procs|].pc == Unstarted && Apply(w, a).ctl.jobs[|w.procs|].secret == a.secret
  {
  }

  /** A run of jobs, tickers and the monitor. */
  ghost predicate Works(w: World, steps: seq<Action>, end: World)
    requires Valid(w)
  {
    Reaches(w, steps, end) && forall a :: a in steps ==> a.OfDaemon()
  }

  lemma WorksFirst(w: World, a: Action, steps: seq<Action>, end: World)
    requires Valid(w) && Enabled(w, a) && a.OfDaemon() && Valid(Apply(w, a)) && Works(Apply(w, a), steps, end)
    ensures Works(w, [a] + steps, end)
  {
    assert ([a] + steps)[1..] == steps;
  }

  /** The monitor receives all that is queued. */
  lemma {:induction false} Drains(w: World) returns (steps: seq<Action>, end: World)
    requires Inv(w) && !w.ctl.panicked
    ensures Works(w, steps, end) && Inv(end) && !end.ctl.panicked && end.queue == [] && end.procs == w.procs && end.ctl == w.ctl
    ensures end.consumed == w.consumed + w.queue
    decreases |w.queue|
  {
    if w.queue == [] {
      steps, end := [], w;
      assert w.consumed + w.queue == w.consumed;
    } else {
      var a := Consume(0, true);
      ConsumeKeepsInv(w, a);
      var next := Apply(w, a);
      steps, end := Drains(next);
      WorksFirst(w, a, steps, end);
      steps := [a] + steps;
      assert w.consumed + [w.queue[0]] + w.queue[1..] == w.consumed + w.queue;
    }
  }

  lemma QueuedSuccessShows(w: World, k: nat) returns (steps: seq<Action>, end: World)
    requires Inv(w) && !w.ctl.panicked && k < |w.queue| && w.queue[k].Success()
    ensures Works(w, steps, end) && end.status.ready
  {
    steps, end := Drains(w);
    assert end.consumed[|w.consumed| + k] == w.queue[k];
    SuccessesPositive(end.consumed);
  }

  lemma {:induction false} WorksTrans(w: World, s: seq<Action>, mid: World, t: seq<Action>, end: World)
    requires Valid(w) && Valid(mid) && Works(w, s, mid) && Works(mid, t, end)
    ensures Works(w, s + t, end)
  {
    ReachesTrans(w, s, mid, t, end, 0);
  }

  lemma ReportedSuccessShows(w: World, i: nat) returns (steps: seq<Action>, end: World)
    requires Inv(w) && !w.ctl.panicked && i < |w.procs| && w.procs[i].pc.Reporting? && w.procs[i].pc.result.Success()
    ensures Works(w, steps, end) && end.status.ready
  {
    var first, mid := Drains(w);
    var a := Offer(i);
    JobStepKeepsInv(mid, a);
    var more;
    more, end := QueuedSuccessShows(Apply(mid, a), 0);
    WorksFirst(mid, a, more, end);
    WorksTrans(w, first, mid, [a] + more, end);
    steps := first + ([a] + more);
  }

  /** What a job that may still succeed does next. */
  lemma HopefulStep(w: World, i: nat) returns (a: Action)
    requires Inv(w) && !w.ctl.panicked && i < |w.procs| && JobMaySucceed(w, i)
    requires !(w.procs[i].pc.Reporting? && w.procs[i].pc.result.Success())
    ensures Enabled(w, a) && (a.OfSomeJob() || a.Tick?) && Apply(w, a).ctl == w.ctl
    ensures |Apply(w, a).procs| == |w.procs| && JobMaySucceed(Apply(w, a), i)
    ensures Remaining(Apply(w, a).procs[i]) < Remaining(w.procs[i])
  {
    hide Conserved, AllHonest, StatusOk, Syncer.SyncReport;
    match w.procs[i].pc
    case Unstarted => a := FirstSync(i);
    case Syncing =>
      var written, after :| Syncer.SyncReport(w.engine, w.ctl.jobs[i].secret, None, written, after);
      a := SyncReturns(i, None, written, after, 0);
    case Reporting(_) => a := Offer(i);
    case Waiting => a := if w.procs[i].tick then TakeTick(i) else Tick(i);
  }

  function Remaining(p: Proc): nat {
    match p.pc
    case Reporting(result) => if result.Success() then 0 else 5
    case Waiting => if p.tick then 3 else 4
    case Unstarted => 2
    case Syncing => 1
    case Exited => 0
  }

  lemma {:induction false} HopefulJobSucceeds(w: World, i: nat) returns (steps: seq<Action>, end: World)
    requires Inv(w) && !w.ctl.panicked && i < |w.procs| && JobMaySucceed(w, i)
    ensures Works(w, steps, end) && end.status.ready
    decreases Remaining(w.procs[i])
  {
    if w.procs[i].pc.Reporting? && w.procs[i].pc.result.Success() {
      steps, end := ReportedSuccessShows(w, i);
    } else {
      var a := HopefulStep(w, i);
      JobStepKeepsInv(w, a);
      var rest;
      rest, end := HopefulJobSucceeds(Apply(w, a), i);
      WorksFirst(w, a, rest, end);
      steps := [a] + rest;
    }
  }

  /** Where the condition holds, jobs, tickers and the monitor alone can make the status ready. */
  lemma HopeIsReal(w: World) returns (steps: seq<Action>, end: World)
    requires Inv(w) && !w.ctl.panicked && MayBecomeReady(w)
    ensures Works(w, steps, end) && end.status.ready
  {
    if w.status.ready {
      steps, end := [], w;
    } else if k :| 0 <= k < |w.queue| && w.queue[k].Success() {
      steps, end := QueuedSuccessShows(w, k);
    } else {
      var i :| 0 <= i < |w.procs| && JobMaySucceed(w, i);
      steps, end := HopefulJobSucceeds(w, i);
    }
  }

  // ----- What a stopped job may still do -----

  /** Own steps a stopped job has left. */
  function Rank(pc: Pc): nat {
    match pc
    case Unstarted => 4
    case Syncing => 3
    case Reporting(_) => 2
    case Waiting => 1
    case Exited => 0
  }

  function OwnSteps(steps: seq<Action>, i: nat): nat {
    if steps == [] then 0 else (if steps[0].OfJob(i) then 1 else 0) + OwnSteps(steps[1..], i)
  }

  function Syncs(steps: seq<Action>, i: nat): nat {
    if steps == [] then 0
    else (if steps[0].SyncReturns? && steps[0].i == i then 1 else 0) + Syncs(steps[1..], i)
  }

  function Ticks(steps: seq<Action>, i: nat): nat {
    if steps == [] then 0 else (if steps[0] == Tick(i) then 1 else 0) + Ticks(steps[1..], i)
  }

  /** Syncs a job may complete before the next tick: its first one or the one in flight, and one for a pending tick. */
  function Credit(w: World, i: nat): nat {
    if i >= |w.procs| then 1
    else
      (if w.procs[i].pc.Unstarted? || w.procs[i].pc.Syncing? then 1 else 0) + if w.procs[i].tick then 1 else 0
  }

  lemma StepSpendsCredit(w: World, a: Action, i: nat)
    requires Inv(w) && Enabled(w, a)
    ensures Credit(Apply(w, a), i) + (if a.SyncReturns? && a.i == i then 1 else 0)
      <= Credit(w, i) + if a == Tick(i) then 1 else 0
  {
    hide Conserved, AllHonest, StatusOk;
    if a.OfTable() && i < |w.procs| {
      TableStepAndJob(w, a, i);
    } else if a.AddSecret? {
      StepAndTable(w, a, a.secret.name);
    }
  }

  /** A job syncs once on its own and then at most once for each tick, however long its syncs take. */
  lemma {:induction false} SyncsAreTicked(w: World, steps: seq<Action>, end: World, i: nat)
    requires Inv(w) && Reaches(w, steps, end)
    ensures Syncs(steps, i) + Credit(end, i) <= Ticks(steps, i) + Credit(w, i)
    ensures i >= |w.procs| ==> Syncs(steps, i) <= Ticks(steps, i) + 1
    decreases |steps|
  {
    hide Conserved, AllHonest, StatusOk, Apply, Enabled, CtlOk, Credit;
    if steps != [] {
      StepKeepsInv(w, steps[0]);
      StepSpendsCredit(w, steps[0], i);
      SyncsAreTicked(Apply(w, steps[0]), steps[1..], end, i);
    }
    assert i >= |w.procs| ==> Credit(w, i) == 1 by { NoJobYet(w, i); }
  }

  lemma NoJobYet(w: World, i: nat)
    ensures i >= |w.procs| ==> Credit(w, i) == 1
  {
  }

  ghost predicate StoppedJob(w: World, i: nat) {
    Inv(w) && i < |w.procs| && w.ctl.jobs[i].stopped
  }

  lemma TableStepSparesStopped(w: World, a: Action, i: nat)
    requires StoppedJob(w, i) && Enabled(w, a) && a.OfTable()
    ensures var w' := Apply(w, a);
      i < |w'.procs| && i < |w'.ctl.jobs| && w'.ctl.jobs[i] == w.ctl.jobs[i] && w'.procs[i].pc == w.procs[i].pc
  {
  }

  lemma StoppedStaysStopped(w: World, a: Action, i: nat)
    requires StoppedJob(w, i) && Enabled(w, a)
    ensures StoppedJob(Apply(w, a), i)
    ensures if a.OfJob(i) then Rank(Apply(w, a).procs[i].pc) == Rank(w.procs[i].pc) - 1
            else Apply(w, a).procs[i].pc == w.procs[i].pc
  {
    hide Conserved, AllHonest, StatusOk;
    StepKeepsInv(w, a);
    if a.OfTable() {
      TableStepSparesStopped(w, a, i);
    }
  }

  /** A job whose stop channel is closed completes at most one more sync, in at most four own steps. */
  lemma {:induction false} StoppedJobFinishes(w: World, steps: seq<Action>, end: World, i: nat)
    requires StoppedJob(w, i) && Reaches(w, steps, end)
    ensures StoppedJob(end, i)
    ensures OwnSteps(steps, i) + Rank(end.procs[i].pc) == Rank(w.procs[i].pc)
    ensures Syncs(steps, i) <= if w.procs[i].pc.Unstarted? || w.procs[i].pc.Syncing? then 1 else 0
    decreases |steps|
  {
    if steps != [] {
      StoppedStaysStopped(w, steps[0], i);
      StoppedJobFinishes(Apply(w, steps[0]), steps[1..], end, i);
    }
  }

  /** A sync whose fetch failed, as an example of how a sync may end. */
  function FailedSync(i: nat): Action {
    SyncReturns(i, Some(Syncer.FetchFailed), 0, FileStore.Fs(map[], map[], 0), 0)
  }

  /** A job exits only when told to, by its own channel or by the scheduler-wide one, and may do so whenever it waits. */
  lemma {:induction false} ExitsOnlyWhenTold(w: World, steps: seq<Action>, end: World, i: nat)
    requires Inv(w) && Reaches(w, steps, end) && i < |end.procs|
    requires i < |w.procs| && w.procs[i].pc.Exited? ==> w.ctl.jobs[i].stopped || w.ctl.stopped
    ensures Valid(end) && (end.procs[i].pc.Exited? ==> end.ctl.jobs[i].stopped || end.ctl.stopped)
    ensures end.procs[i].pc.Waiting? && !end.ctl.panicked ==>
      (Enabled(end, TakeStop(i)) <==> end.ctl.jobs[i].stopped || end.ctl.stopped)
    decreases |steps|
  {
    hide Conserved, AllHonest, StatusOk, Apply, Enabled, CtlOk;
    if steps != [] {
      StepKeepsInv(w, steps[0]);
      if i < |Apply(w, steps[0]).procs| { ExitStep(w, steps[0], i); }
      ExitsOnlyWhenTold(Apply(w, steps[0]), steps[1..], end, i);
    } else if w.procs[i].pc.Waiting? && !w.ctl.panicked {
      MayTakeStop(w, i);
    }
  }

  lemma MayTakeStop(w: World, i: nat)
    requires Valid(w) && i < |w.procs| && w.procs[i].pc.Waiting? && !w.ctl.panicked
    ensures Enabled(w, TakeStop(i)) <==> w.ctl.jobs[i].stopped || w.ctl.stopped
  {
  }

  lemma ExitStep(w: World, a: Action, i: nat)
    requires Inv(w) && Enabled(w, a) && Inv(Apply(w, a)) && i < |Apply(w, a).procs|
    requires i < |w.procs| && w.procs[i].pc.Exited? ==> w.ctl.jobs[i].stopped || w.ctl.stopped
    ensures var w' := Apply(w, a);
      w'.procs[i].pc.Exited? ==> w'.ctl.jobs[i].stopped || w'.ctl.stopped
  {
    hide Conserved, AllHonest, StatusOk, CtlOk, Syncer.SyncReport;
    if i >= |w.procs| {
      NewJob(w, a);
    } else if a.OfTable() {
      TableStepAndJob(w, a, i);
    }
  }

  /** Unless it has exited, a stopped job always has a next step of its own, given that each sync returns. */
  lemma StoppedJobIsNeverStuck(w: World, i: nat)
    requires StoppedJob(w, i) && !w.ctl.panicked && !w.procs[i].pc.Exited?
    ensures exists a :: Enabled(w, a) && a.OfJob(i)
  {
    match w.procs[i].pc
    case Unstarted => assert Enabled(w, FirstSync(i)) && FirstSync(i).OfJob(i);
    case Syncing =>
      var a := FailedSync(i);
      assert Enabled(w, a) && a.OfJob(i);
    case Reporting(_) => assert Enabled(w, Offer(i)) && Offer(i).OfJob(i);
    case Waiting => assert Enabled(w, TakeStop(i)) && TakeStop(i).OfJob(i);
  }

  // ----- What a job whose own channel is open may do, even after Stop -----

  ghost predicate OpenJob(w: World, i: nat) {
    Inv(w) && !w.ctl.panicked && i < |w.procs| && !w.ctl.jobs[i].stopped && !w.procs[i].pc.Exited?
  }

  /** The next step of an open job that waits for nobody. */
  function Onward(pc: Pc, i: nat): Action {
    match pc
    case Unstarted => FirstSync(i)
    case Syncing => FailedSync(i)
    case Reporting(_) => Offer(i)
    case _ => Tick(i)
  }

  function NextPc(w: World, i: nat): Pc
    requires Valid(w) && i < |w.procs|
  {
    match w.procs[i].pc
    case Unstarted => Syncing
    case Syncing => Reporting(SyncResult(w.ctl.jobs[i].secret, Some(Syncer.FetchFailed), 0, FileStore.Fs(map[], map[], 0), 0))
    case Reporting(_) => Waiting
    case _ => Syncing
  }

  lemma OnwardKeepsOpen(w: World, i: nat, a: Action)
    requires OpenJob(w, i) && (a == Onward(w.procs[i].pc, i) || (a == TakeTick(i) && w.procs[i].pc.Waiting? && w.procs[i].tick))
    ensures Enabled(w, a) && OpenJob(Apply(w, a), i)
    ensures a.Tick? ==> Apply(w, a).procs[i] == w.procs[i].(tick := true)
    ensures !a.Tick? ==> Apply(w, a).procs[i].pc == NextPc(w, i)
  {
    hide Conserved, AllHonest, StatusOk;
    JobStepKeepsInv(w, a);
  }

  /** One round of an open job: finish what it is doing, offer it, take the next tick. */
  lemma OpenJobSyncsOnce(w: World, i: nat) returns (steps: seq<Action>, end: World)
    requires OpenJob(w, i)
    ensures Reaches(w, steps, end) && OpenJob(end, i) && end.procs[i].pc.Syncing?
    ensures w.procs[i].pc.Syncing? ==> Syncs(steps, i) >= 1
    decreases Rank(w.procs[i].pc), !(w.procs[i].pc.Waiting? && w.procs[i].tick)
  {
    hide Conserved, AllHonest, StatusOk, CtlOk;
    var pc := w.procs[i].pc;
    var a := if pc.Waiting? && w.procs[i].tick then TakeTick(i) else Onward(pc, i);
    OnwardKeepsOpen(w, i, a);
    var next := Apply(w, a);
    if next.procs[i].pc.Syncing? {
      steps, end := [a], next;
    } else {
      var rest;
      rest, end := OpenJobSyncsOnce(next, i);
      steps := [a] + rest;
      assert steps[1..] == rest;
    }
  }

  lemma {:induction false} ReachesTrans(w: World, s: seq<Action>, mid: World, t: seq<Action>, end: World, i: nat)
    requires Valid(w) && Valid(mid) && Reaches(w, s, mid) && Reaches(mid, t, end)
    ensures Reaches(w, s + t, end) && Syncs(s + t, i) == Syncs(s, i) + Syncs(t, i)
    decreases |s|
  {
    hide Apply, Enabled;
    if s == [] {
      assert s + t == t;
    } else {
      ReachesTrans(Apply(w, s[0]), s[1..], mid, t, end, i);
      assert (s + t)[1..] == s[1..] + t;
    }
  }

  /** Closing the scheduler-wide channel alone does not bound a job: one whose own channel is open, such as a job
      added after Stop, can complete any number of syncs. */
  lemma {:induction false} OpenJobIsUnbounded(w: World, i: nat, n: nat) returns (steps: seq<Action>, end: World)
    requires OpenJob(w, i)
    ensures Reaches(w, steps, end) && OpenJob(end, i) && end.procs[i].pc.Syncing? && Syncs(steps, i) >= n
  {
    if n == 0 {
      steps, end := OpenJobSyncsOnce(w, i);
    } else {
      var first, mid := OpenJobIsUnbounded(w, i, n - 1);
      var second;
      second, end := OpenJobSyncsOnce(mid, i);
      ReachesTrans(w, first, mid, second, end, i);
      steps := first + second;
    }
  }

  ghost predicate AtMostOneMoreSync(w: World, i: nat)
    requires Valid(w)
  {
    forall steps, end :: Reaches(w, steps, end) ==> Syncs(steps, i) <= 1
  }

  /** A live job completes at most one more sync, whatever happens, exactly when its own stop channel is closed. */
  lemma BoundedExactlyWhenStopped(w: World, i: nat)
    requires Inv(w) && !w.ctl.panicked && i < |w.procs| && !w.procs[i].pc.Exited?
    ensures AtMostOneMoreSync(w, i) <==> w.ctl.jobs[i].stopped
  {
    if w.ctl.jobs[i].stopped {
      forall steps, end | Reaches(w, steps, end) ensures Syncs(steps, i) <= 1 {
        StoppedJobFinishes(w, steps, end, i);
      }
    } else {
      var steps, end := OpenJobIsUnbounded(w, i, 2);
      assert Reaches(w, steps, end) && Syncs(steps, i) > 1;
    }
  }

  lemma StopsAndReturns(engine: Syncer.Engine, stale: bool) returns (w: World)
    ensures Reaches(New(engine, stale), [StopCloses, StopFinishes], w)
    ensures Inv(w) && w.ctl.stopped && !w.ctl.panicked && !w.stopping && w.procs == []
  {
    var stopping := Apply(New(engine, stale), StopCloses);
    StepKeepsInv(New(engine, stale), StopCloses);
    w := Apply(stopping, StopFinishes);
    StepKeepsInv(stopping, StopFinishes);
    assert Reaches(stopping, [StopFinishes], w);
    assert [StopCloses, StopFinishes][1..] == [StopFinishes];
  }

  lemma AddsOpenJob(w: World, secret: Secret)
    requires Inv(w) && !w.ctl.panicked && w.procs == []
    ensures var next := Apply(w, AddSecret(secret));
      Valid(next) && Reaches(w, [AddSecret(secret)], next) && OpenJob(next, 0) && next.ctl.stopped == w.ctl.stopped
  {
    StepKeepsInv(w, AddSecret(secret));
    NewJob(w, AddSecret(secret));
    StepAndTable(w, AddSecret(secret), secret.name);
  }

  /** A job added after Stop has returned, as a watcher callback may do, is such a job. */
  lemma AddedAfterStopIsUnbounded(engine: Syncer.Engine, stale: bool, secret: Secret) returns (stopped: World, end: World)
    ensures Reaches(New(engine, stale), [StopCloses, StopFinishes], stopped) && stopped.ctl.stopped && !stopped.stopping
    ensures Reaches(New(engine, stale), [StopCloses, StopFinishes] + [AddSecret(secret)], end) && end.ctl.stopped
    ensures OpenJob(end, 0) && !AtMostOneMoreSync(end, 0)
  {
    hide Enabled, Apply;
    stopped := StopsAndReturns(engine, stale);
    AddsOpenJob(stopped, secret);
    end := Apply(stopped, AddSecret(secret));
    ReachesTrans(New(engine, stale), [StopCloses, StopFinishes], stopped, [AddSecret(secret)], end, 0);
    BoundedExactlyWhenStopped(end, 0);
  }
}
