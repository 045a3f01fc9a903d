/** The whole daemon as interleaved steps: one scheduler after another, swapped on reload, and one monitor that keeps
    receiving from the first scheduler's channel. */
module Daemon {
  import opened Options
  import opened Config
  import opened Health
  import opened JobProtocol
  import Scheduling
  import Syncer

  /** What the main goroutine does: waits for signals, or waits inside Stop for a reload or for the shutdown, or runs
      the rest of the shutdown. Down is the end of the process. */
  datatype Phase = Serving | Halting(next: Next) | Leaving | Down

  datatype Next = Restart(secrets: seq<Secret>) | Exit

  /** worlds holds every scheduler ever created, the current one last; toAdd the secrets the loop that starts a
      scheduler has not added yet. */
  datatype Daemon = Daemon(worlds: seq<World>, toAdd: seq<Secret>, phase: Phase)
  {
    ghost predicate Valid() {
      worlds != [] && forall k :: 0 <= k < |worlds| ==> JobProtocol.Valid(worlds[k])
    }

    function Current(): nat
      requires worlds != []
    {
      |worlds| - 1
    }

    /** Readiness, whichever scheduler it came from. */
    ghost predicate Ready() {
      exists k :: 0 <= k < |worlds| && worlds[k].status.ready
    }
  }

  /** Work is a step of a job, of a ticker, or of the monitor, which ranges over the first channel only. Signals are
      handled after every secret has been added; Stop closes the wide channel first and the job channels later. */
  datatype Step = AddNext | Work(k: nat, action: Action) | Halt(next: Next) | Halted | Quit

  ghost predicate MayDo(d: Daemon, s: Step)
    requires d.Valid()
  {
    && !d.phase.Down?
    && match s
       case AddNext => d.toAdd != [] && d.phase.Serving? && Enabled(d.worlds[d.Current()], AddSecret(d.toAdd[0]))
       case Work(k, a) => k < |d.worlds| && a.OfDaemon() && (a.Consume? ==> k == 0) && Enabled(d.worlds[k], a)
       case Halt(_) => d.toAdd == [] && d.phase.Serving? && Enabled(d.worlds[d.Current()], StopCloses)
       case Halted => d.phase.Halting? && Enabled(d.worlds[d.Current()], StopFinishes)
       case Quit => d.phase.Leaving?
  }

  ghost function Do(d: Daemon, s: Step): Daemon
    requires d.Valid() && MayDo(d, s)
  {
    var c := d.Current();
    match s
    case AddNext =>
      d.(worlds := d.worlds[c := Apply(d.worlds[c], AddSecret(d.toAdd[0]))], toAdd := d.toAdd[1..])
    case Work(k, a) => d.(worlds := d.worlds[k := Apply(d.worlds[k], a)])
    case Halt(next) => d.(worlds := d.worlds[c := Apply(d.worlds[c], StopCloses)], phase := Halting(next))
    case Halted =>
      var stopped := d.worlds[c := Apply(d.worlds[c], StopFinishes)];
      (match d.phase.next
       case Restart(secrets) => Daemon(stopped + [New(d.worlds[c].engine, false)], secrets, Serving)
       case Exit => d.(worlds := stopped, phase := Leaving))
    case Quit => d.(phase := Down)
  }

  function Start(engine: Syncer.Engine, stale: bool, secrets: seq<Secret>): Daemon {
    Daemon([New(engine, stale)], secrets, Serving)
  }

  ghost predicate Runs(d: Daemon, steps: seq<Step>, end: Daemon)
    decreases |steps|
  {
    && d.Valid()
    && if steps == [] then end == d else MayDo(d, steps[0]) && Runs(Do(d, steps[0]), steps[1..], end)
  }

  // ----- What every run keeps -----

  /** A scheduler other than the first: its results are never received. */
  ghost predicate Unheard(w: World) {
    w.consumed == [] && w.status == Readiness(false, 0, 0, false) && (w.dropped != [] ==> |w.queue| == CAPACITY)
  }

  ghost predicate WorldOk(d: Daemon, k: nat)
    requires k < |d.worlds|
  {
    var w := d.worlds[k];
    && Inv(w) && !w.ctl.panicked
    && (k > 0 ==> Unheard(w))
    && (k < |d.worlds| - 1 || d.phase.Leaving? || d.phase.Down? ==> w.ctl.stopped && w.ctl.table == map[])
    && (k == |d.worlds| - 1 ==> (d.phase.Serving? ==> !w.ctl.stopped) && (d.phase.Halting? ==> w.ctl.stopped && w.stopping))
  }

  ghost predicate DaemonOk(d: Daemon) {
    && d.worlds != []
    && (forall k :: 0 <= k < |d.worlds| ==> WorldOk(d, k))
    && (d.toAdd != [] ==> d.phase.Serving?)
  }

  /** What one step may change in the world it concerns, given that it is no second Stop. */
  lemma ActionKeepsWorld(w: World, a: Action)
    requires Inv(w) && Enabled(w, a) && (a.StopCloses? ==> !w.ctl.stopped)
    ensures var w' := Apply(w, a);
      && Inv(w') && !w'.ctl.panicked && w'.engine == w.engine
      && (w'.ctl.stopped <==> a.StopCloses? || w.ctl.stopped)
      && (a.OfDaemon() ==> w'.ctl == w.ctl && w'.stopping == w.stopping)
      && (a.StopFinishes? ==> w'.ctl.table == map[])
      && (a.StopCloses? ==> w'.stopping)
      && (Unheard(w) && !a.Consume? ==> Unheard(w'))
  {
    hide Conserved, AllHonest, Scheduling.CtlOk, Scheduling.Halt, Scheduling.HaltNamed;
    StepKeepsInv(w, a);
    if Unheard(w) && !a.Consume? { UnmonitoredStep(w, a); }
  }

  /** The world a step changes, and how. */
  ghost function Target(d: Daemon, s: Step): (nat, Action)
    requires d.Valid() && MayDo(d, s) && !s.Quit?
    ensures Target(d, s).0 < |d.worlds| && Enabled(d.worlds[Target(d, s).0], Target(d, s).1)
  {
    match s
    case AddNext => (d.Current(), AddSecret(d.toAdd[0]))
    case Work(k, a) => (k, a)
    case Halt(_) => (d.Current(), StopCloses)
    case Halted => (d.Current(), StopFinishes)
  }

  lemma DoIsAction(d: Daemon, s: Step)
    requires d.Valid() && MayDo(d, s) && !s.Quit?
    ensures var (k, a) := Target(d, s);
      var d' := Do(d, s);
      var changed := d.worlds[k := Apply(d.worlds[k], a)];
      d'.worlds == if s.Halted? && d.phase.next.Restart? then changed + [New(d.worlds[k].engine, false)] else changed
    ensures var (k, a) := Target(d, s);
      && (a.Consume? ==> k == 0) && (s.Work? <==> a.OfDaemon()) && (!s.Work? ==> k == d.Current())
  {
  }

  lemma NewIsOk()
    ensures forall engine, stale ::
      Inv(New(engine, stale)) && !New(engine, stale).ctl.panicked && !New(engine, stale).ctl.stopped
    ensures forall engine :: Unheard(New(engine, false))
  {
  }

  lemma QuitKeepsOk(d: Daemon)
    requires DaemonOk(d) && d.Valid() && MayDo(d, Quit)
    ensures DaemonOk(Do(d, Quit)) && Do(d, Quit).Valid() && Do(d, Quit).worlds == d.worlds
  {
    hide Inv, Unheard;
    forall k | 0 <= k < |d.worlds| ensures WorldOk(Do(d, Quit), k) { assert WorldOk(d, k); }
  }

  lemma StepKeepsOk(d: Daemon, s: Step)
    requires DaemonOk(d) && d.Valid() && MayDo(d, s)
    ensures DaemonOk(Do(d, s)) && Do(d, s).Valid()
  {
    hide Inv, Apply, Enabled, Unheard, New;
    if s.Quit? {
      QuitKeepsOk(d);
      return;
    }
    DoIsAction(d, s);
    NewIsOk();
    var (c, a) := Target(d, s);
    var d' := Do(d, s);
    assert WorldOk(d, c);
    ActionKeepsWorld(d.worlds[c], a);
    forall k | 0 <= k < |d'.worlds| ensures WorldOk(d', k) {
      if k < |d.worlds| { assert WorldOk(d, k); }
    }
    AllValid(d');
  }

  lemma AllValid(d: Daemon)
    requires d.worlds != [] && forall k :: 0 <= k < |d.worlds| ==> WorldOk(d, k)
    ensures d.Valid()
  {
    forall k | 0 <= k < |d.worlds| ensures JobProtocol.Valid(d.worlds[k]) { assert WorldOk(d, k); }
  }

  lemma StartIsOk(engine: Syncer.Engine, stale: bool, secrets: seq<Secret>)
    ensures DaemonOk(Start(engine, stale, secrets)) && Start(engine, stale, secrets).Valid()
  {
    NewIsOk();
  }

  lemma {:induction false} RunKeepsOk(d: Daemon, steps: seq<Step>, end: Daemon)
    requires DaemonOk(d) && Runs(d, steps, end)
    ensures DaemonOk(end) && end.Valid()
    decreases |steps|
  {
    if steps != [] {
      StepKeepsOk(d, steps[0]);
      RunKeepsOk(Do(d, steps[0]), steps[1..], end);
    }
  }

  /** In every run of the daemon, over any reloads: no channel is ever closed twice, all schedulers but the current one
      are stopped with an empty table, readiness is that of the first scheduler's results, and what later schedulers
      report is received by nobody and, once 100 results wait, dropped. */
  lemma OnlyTheFirstSchedulerIsHeard(engine: Syncer.Engine, stale: bool, secrets: seq<Secret>, steps: seq<Step>, end: Daemon)
    requires Runs(Start(engine, stale, secrets), steps, end)
    ensures end.worlds != []
    ensures forall k :: 0 <= k < |end.worlds| ==> !end.worlds[k].ctl.panicked
    ensures forall k :: 0 <= k < |end.worlds| - 1 ==> end.worlds[k].ctl.stopped && end.worlds[k].ctl.table == map[]
    ensures forall k :: 0 < k < |end.worlds| ==>
      end.worlds[k].consumed == [] && (end.worlds[k].dropped != [] ==> |end.worlds[k].queue| == 100)
    ensures end.Ready() <==> exists i :: 0 <= i < |end.worlds[0].consumed| && end.worlds[0].consumed[i].Success()
  {
    StartIsOk(engine, stale, secrets);
    RunKeepsOk(Start(engine, stale, secrets), steps, end);
    forall k | 0 <= k < |end.worlds|
      ensures WorldOk(end, k) && (k > 0 ==> Unheard(end.worlds[k])) && (k > 0 ==> !end.worlds[k].status.ready)
    {
      assert WorldOk(end, k);
    }
    SuccessesPositive(end.worlds[0].consumed);
  }

  // ----- When Ready can still become true -----

  /** Over the first scheduler alone: it is ready, or the process still runs and a success is queued, one of its jobs can
      still complete and offer a successful sync, or it is still being started with a secret that can be delivered. */
  ghost predicate MayStillBeReady(d: Daemon)
    requires d.Valid()
  {
    || d.worlds[0].status.ready
    || (!d.phase.Down? && MayBecomeReady(d.worlds[0]))
    || (|d.worlds| == 1 && exists s :: s in d.toAdd && Syncer.CanSucceed(d.worlds[0].engine, s))
  }

  lemma NotReadyYet(w: World, d: Daemon)
    requires JobProtocol.Valid(w) && d.Valid()
    ensures !MayBecomeReady(w) ==> !w.status.ready
    ensures !MayBecomeReady(d.worlds[0]) ==> !d.worlds[0].status.ready
  {
  }

  lemma HopelessDo(d: Daemon, s: Step)
    requires DaemonOk(d) && d.Valid() && MayDo(d, s) && Do(d, s).Valid() && !MayStillBeReady(d)
    ensures !MayStillBeReady(Do(d, s))
  {
    hide Inv, Apply, Enabled, New, MayBecomeReady, Syncer.CanSucceed;
    if s.Quit? {
      QuitKeepsOk(d);
      return;
    }
    NotReadyYet(d.worlds[0], Do(d, s));
    DoIsAction(d, s);
    var (c, a) := Target(d, s);
    assert WorldOk(d, 0);
    if c == 0 {
      SameEngine(d.worlds[0], a);
      HopelessStep(d.worlds[0], a);
    }
  }

  lemma {:induction false} HopelessRun(d: Daemon, steps: seq<Step>, end: Daemon)
    requires DaemonOk(d) && Runs(d, steps, end) && !MayStillBeReady(d)
    ensures !end.Ready()
    decreases |steps|
  {
    hide Do, MayDo;
    if steps == [] {
      forall k | 0 <= k < |d.worlds| ensures !d.worlds[k].status.ready { assert WorldOk(d, k); }
    } else {
      StepKeepsOk(d, steps[0]);
      HopelessDo(d, steps[0]);
      HopelessRun(Do(d, steps[0]), steps[1..], end);
    }
  }

  /** Steps of one scheduler's jobs and tickers, and of the monitor of the first, are steps of the daemon. */
  lemma {:induction false} WorksInDaemon(d: Daemon, k: nat, actions: seq<Action>, end: World) returns (steps: seq<Step>)
    requires DaemonOk(d) && d.Valid() && !d.phase.Down? && k < |d.worlds| && Works(d.worlds[k], actions, end)
    requires k > 0 ==> forall a :: a in actions ==> !a.Consume?
    ensures Runs(d, steps, d.(worlds := d.worlds[k := end]))
    decreases |actions|
  {
    hide Apply, Enabled, Inv;
    if actions == [] {
      steps := [];
      assert d.worlds[k := end] == d.worlds;
    } else {
      var s := Work(k, actions[0]);
      assert actions[0] in actions;
      StepKeepsOk(d, s);
      var next := Do(d, s);
      var rest := WorksInDaemon(next, k, actions[1..], end);
      steps := [s] + rest;
      assert steps[1..] == rest;
      assert next.worlds[k := end] == d.worlds[k := end];
    }
  }

  lemma FirstSchedulerShows(d: Daemon) returns (steps: seq<Step>, end: Daemon)
    requires DaemonOk(d) && d.Valid() && !d.phase.Down? && MayBecomeReady(d.worlds[0])
    ensures Runs(d, steps, end) && end.Ready()
  {
    assert WorldOk(d, 0);
    var actions, w := HopeIsReal(d.worlds[0]);
    steps := WorksInDaemon(d, 0, actions, w);
    end := d.(worlds := d.worlds[0 := w]);
    assert end.worlds[0].status.ready;
  }

  lemma AddedJobMaySucceed(d: Daemon)
    requires DaemonOk(d) && d.Valid() && |d.worlds| == 1 && d.toAdd != []
    ensures MayDo(d, AddNext) && Do(d, AddNext).worlds[0].engine == d.worlds[0].engine
    ensures Syncer.CanSucceed(d.worlds[0].engine, d.toAdd[0]) && Do(d, AddNext).Valid() ==> MayBecomeReady(Do(d, AddNext).worlds[0])
  {
    assert WorldOk(d, 0);
    if Do(d, AddNext).Valid() {
      NewJob(d.worlds[0], AddSecret(d.toAdd[0]));
      assert Syncer.CanSucceed(d.worlds[0].engine, d.toAdd[0]) ==> JobMaySucceed(Do(d, AddNext).worlds[0], |d.worlds[0].procs|);
    }
  }

  lemma {:induction false} PendingSecretShows(d: Daemon, s: Secret) returns (steps: seq<Step>, end: Daemon)
    requires DaemonOk(d) && d.Valid() && |d.worlds| == 1 && s in d.toAdd && Syncer.CanSucceed(d.worlds[0].engine, s)
    ensures Runs(d, steps, end) && end.Ready()
    decreases |d.toAdd|
  {
    hide MayBecomeReady, Syncer.CanSucceed, Enabled, Apply;
    AddedJobMaySucceed(d);
    StepKeepsOk(d, AddNext);
    var next := Do(d, AddNext);
    var rest;
    if d.toAdd[0] == s {
      rest, end := FirstSchedulerShows(next);
    } else {
      rest, end := PendingSecretShows(next, s);
    }
    steps := [AddNext] + rest;
    assert steps[1..] == rest;
  }

  ghost predicate CanBecomeReady(d: Daemon) {
    exists steps, end :: Runs(d, steps, end) && end.Ready()
  }

  lemma EmptyRun(d: Daemon)
    requires d.Valid()
    ensures Runs(d, [], d)
  {
  }

  /** From any state the daemon reaches, whatever reloads follow, Ready can be true at some later time exactly when the
      first scheduler alone can still bring it about. */
  lemma ReadyIsReachableIff(engine: Syncer.Engine, stale: bool, secrets: seq<Secret>, steps: seq<Step>, d: Daemon)
    requires Runs(Start(engine, stale, secrets), steps, d)
    ensures d.Valid() && (CanBecomeReady(d) <==> MayStillBeReady(d))
  {
    hide Runs, MayBecomeReady;
    StartIsOk(engine, stale, secrets);
    RunKeepsOk(Start(engine, stale, secrets), steps, d);
    if MayStillBeReady(d) {
      var more, end;
      if d.worlds[0].status.ready {
        more, end := [], d;
        EmptyRun(d);
      } else if !d.phase.Down? && MayBecomeReady(d.worlds[0]) {
        more, end := FirstSchedulerShows(d);
      } else {
        var s :| s in d.toAdd && Syncer.CanSucceed(d.worlds[0].engine, s);
        more, end := PendingSecretShows(d, s);
      }
      assert Runs(d, more, end) && end.Ready();
    } else {
      forall more, end | Runs(d, more, end) ensures !end.Ready() { HopelessRun(d, more, end); }
    }
  }

  // ----- A run after which Ready never comes -----

  lemma {:induction false} RunsTrans(d: Daemon, s: seq<Step>, mid: Daemon, t: seq<Step>, end: Daemon)
    requires Runs(d, s, mid) && Runs(mid, t, end)
    ensures Runs(d, s + t, end)
    decreases |s|
  {
    hide Do, MayDo;
    if s == [] {
      assert s + t == t;
    } else {
      RunsTrans(Do(d, s[0]), s[1..], mid, t, end);
      assert (s + t)[1..] == s[1..] + t;
    }
  }

  lemma RunsOne(d: Daemon, s: Step)
    requires DaemonOk(d) && d.Valid() && MayDo(d, s)
    ensures Runs(d, [s], Do(d, s)) && DaemonOk(Do(d, s)) && Do(d, s).Valid()
  {
    hide Do, MayDo, DaemonOk;
    StepKeepsOk(d, s);
    assert [s][1..] == [];
  }

  predicate Delivered(r: SyncResult, secret: Secret) {
    r.secret == secret && r.Success()
  }

  /** One job, not yet started. */
  ghost predicate OneNewJob(w: World, secret: Secret) {
    && Inv(w) && !w.ctl.panicked && |w.procs| == 1 && w.procs[0].pc.Unstarted? && w.ctl.jobs[0].secret == secret
    && w.queue == [] && w.consumed == [] && !w.status.ready
  }

  lemma FirstJob(w: World, secret: Secret)
    requires Inv(w) && !w.ctl.panicked && w.procs == [] && w.queue == [] && w.consumed == [] && !w.status.ready
    ensures OneNewJob(Apply(w, AddSecret(secret)), secret) && Apply(w, AddSecret(secret)).engine == w.engine
  {
    StepKeepsInv(w, AddSecret(secret));
    NewJob(w, AddSecret(secret));
  }

  lemma SyncsAndOffers(w: World, secret: Secret, a: Action) returns (steps: seq<Action>, end: World)
    requires OneNewJob(w, secret) && a.SyncReturns? && a.i == 0 && Syncer.SyncReport(w.engine, secret, a.err, a.written, a.disk)
    ensures Works(w, steps, end) && Inv(end) && !end.ctl.panicked && forall b :: b in steps ==> !b.Consume?
    ensures |end.procs| == 1 && end.procs[0].pc.Waiting? && !end.status.ready && end.engine == w.engine
    ensures end.queue == [SyncResult(secret, a.err, a.written, a.disk, a.timestamp)]
  {
    hide Conserved, AllHonest, Scheduling.CtlOk, Syncer.SyncReport;
    var started := Apply(w, FirstSync(0));
    JobStepKeepsInv(w, FirstSync(0));
    var synced := Apply(started, a);
    JobStepKeepsInv(started, a);
    end := Apply(synced, Offer(0));
    JobStepKeepsInv(synced, Offer(0));
    assert Works(synced, [Offer(0)], end);
    WorksFirst(started, a, [Offer(0)], end);
    WorksFirst(w, FirstSync(0), [a] + [Offer(0)], end);
    steps := [FirstSync(0)] + ([a] + [Offer(0)]);
  }

  /** The first sync fails, a reload is accepted, and the new scheduler's sync delivers: Ready is false from then on,
      whatever happens. */
  lemma ReloadAfterAFailureNeverReady(engine: Syncer.Engine, stale: bool, first: Secret, second: Secret) returns (steps: seq<Step>, end: Daemon)
    requires Syncer.CanSucceed(engine, second)
    ensures Runs(Start(engine, stale, [first]), steps, end) && |end.worlds| == 2
    ensures exists k :: 0 <= k < |end.worlds[1].queue| && Delivered(end.worlds[1].queue[k], second)
    ensures forall more, later :: Runs(end, more, later) ==> !later.Ready()
  {
    hide Inv, Enabled, Apply, Runs, MayBecomeReady;
    var d, early := FailedFirstSync(engine, stale, first);
    var next, middle := Reloads(d, second);
    var late;
    late, end := SecondSyncDelivers(next, second);
    RunsTrans(Start(engine, stale, [first]), early, d, middle, next);
    RunsTrans(Start(engine, stale, [first]), early + middle, next, late, end);
    steps := early + middle + late;
    forall more, later | Runs(end, more, later) ensures !later.Ready() { HopelessRun(end, more, later); }
  }

  /** The first scheduler's only result so far is a failure, and its one job waits for the next tick. */
  ghost predicate FailedOnce(d: Daemon) {
    && DaemonOk(d) && d.Valid() && |d.worlds| == 1 && d.toAdd == [] && d.phase.Serving?
    && var w := d.worlds[0];
       |w.procs| == 1 && w.procs[0].pc.Waiting? && !w.status.ready && forall r :: r in w.queue ==> !r.Success()
  }

  lemma FailedFirstSync(engine: Syncer.Engine, stale: bool, first: Secret) returns (d: Daemon, steps: seq<Step>)
    ensures Runs(Start(engine, stale, [first]), steps, d) && FailedOnce(d) && d.worlds[0].engine == engine
  {
    hide Inv, Apply;
    var start := Start(engine, stale, [first]);
    StartIsOk(engine, stale, [first]);
    NewIsOk();
    AddedJobMaySucceed(start);
    RunsOne(start, AddNext);
    var added := Do(start, AddNext);
    FirstJob(New(engine, stale), first);
    var actions, w := SyncsAndOffers(added.worlds[0], first, FailedSync(0));
    var work := WorksInDaemon(added, 0, actions, w);
    d := added.(worlds := added.worlds[0 := w]);
    RunKeepsOk(added, work, d);
    RunsTrans(start, [AddNext], added, work, d);
    steps := [AddNext] + work;
  }

  /** The reload was accepted: the first scheduler is stopped for good, the second about to be started. */
  ghost predicate Reloaded(d: Daemon, second: Secret) {
    && DaemonOk(d) && d.Valid() && |d.worlds| == 2 && !MayBecomeReady(d.worlds[0])
    && d.worlds[1] == New(d.worlds[0].engine, false) && d.toAdd == [second] && d.phase.Serving?
  }

  lemma StopTouchesOnlyControl(w: World, a: Action)
    requires Inv(w) && Enabled(w, a) && (a.StopCloses? || a.StopFinishes?) && JobProtocol.Valid(Apply(w, a))
    ensures var w' := Apply(w, a);
      && w'.queue == w.queue && w'.status == w.status && |w'.procs| == |w.procs|
      && (a.StopFinishes? ==> forall i :: 0 <= i < |w'.ctl.jobs| ==> w'.ctl.jobs[i].stopped)
  {
    hide Conserved, AllHonest, StatusOk, Scheduling.CtlOk;
    Scheduling.StopKeepsOk(w.ctl);
  }

  lemma StoppedIsHopeless(w: World)
    requires Inv(w) && Enabled(w, StopCloses) && !w.ctl.stopped
    requires |w.procs| == 1 && w.procs[0].pc.Waiting? && !w.status.ready && forall r :: r in w.queue ==> !r.Success()
    ensures var closed := Apply(w, StopCloses);
      && JobProtocol.Valid(closed) && Enabled(closed, StopFinishes)
      && JobProtocol.Valid(Apply(closed, StopFinishes)) && !MayBecomeReady(Apply(closed, StopFinishes))
  {
    hide Apply, Conserved, AllHonest, StatusOk, Scheduling.CtlOk, Syncer.CanSucceed;
    var closed := Apply(w, StopCloses);
    ActionKeepsWorld(w, StopCloses);
    TableStepAndJob(w, StopCloses, 0);
    StopTouchesOnlyControl(w, StopCloses);
    ActionKeepsWorld(closed, StopFinishes);
    TableStepAndJob(closed, StopFinishes, 0);
    StopTouchesOnlyControl(closed, StopFinishes);
  }

  lemma Reloads(d: Daemon, second: Secret) returns (next: Daemon, steps: seq<Step>)
    requires FailedOnce(d)
    ensures Runs(d, steps, next) && Reloaded(next, second) && next.worlds[1].engine == d.worlds[0].engine
  {
    hide Inv, Apply, MayBecomeReady;
    assert WorldOk(d, 0);
    var halt := Halt(Restart([second]));
    assert Enabled(d.worlds[0], StopCloses);
    StoppedIsHopeless(d.worlds[0]);
    SameEngine(d.worlds[0], StopCloses);
    SameEngine(Apply(d.worlds[0], StopCloses), StopFinishes);
    RunsOne(d, halt);
    var halting := Do(d, halt);
    RunsOne(halting, Halted);
    next := Do(halting, Halted);
    RunsTrans(d, [halt], halting, [Halted], next);
    steps := [halt] + [Halted];
  }

  lemma SecondSyncDelivers(d: Daemon, second: Secret) returns (steps: seq<Step>, end: Daemon)
    requires Reloaded(d, second) && Syncer.CanSucceed(d.worlds[1].engine, second)
    ensures Runs(d, steps, end) && DaemonOk(end) && end.Valid() && |end.worlds| == 2 && !MayStillBeReady(end)
    ensures exists k :: 0 <= k < |end.worlds[1].queue| && Delivered(end.worlds[1].queue[k], second)
  {
    hide Inv, Apply, MayBecomeReady, Syncer.SyncReport;
    NewIsOk();
    RunsOne(d, AddNext);
    var added := Do(d, AddNext);
    FirstJob(d.worlds[1], second);
    var written, disk :| Syncer.SyncReport(d.worlds[1].engine, second, None, written, disk);
    var actions, w := SyncsAndOffers(added.worlds[1], second, SyncReturns(0, None, written, disk, 0));
    var work := WorksInDaemon(added, 1, actions, w);
    end := added.(worlds := added.worlds[1 := w]);
    RunKeepsOk(added, work, end);
    RunsTrans(d, [AddNext], added, work, end);
    steps := [AddNext] + work;
    NotReadyYet(end.worlds[0], end);
    assert Delivered(end.worlds[1].queue[0], second);
  }
}
