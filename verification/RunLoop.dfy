/** The daemon's main loop: one scheduler at a time, swapped on an accepted reload, stopped on shutdown. */
module RunLoop {
  import opened Options
  import opened Config
  import opened Scheduling
  import Validation

  /** A reload carries what loading and validating the file gave: a configuration, or nothing. */
  datatype Signal = Reload(accepted: Option<Config>) | Shutdown

  /** A reload signal as the daemon handles it; raw is nothing when the file cannot be read or parsed. */
  function ReadConfig(env: Validation.Env, raw: Option<Config>): Signal {
    Reload(if raw.None? then None else Validation.Reloaded(env, raw.value))
  }

  // ----- Specification on values -----

  /** A scheduler instance and how often it was stopped. */
  datatype Instance = Instance(ctl: Ctl, stops: nat)

  datatype Loop = Loop(instances: seq<Instance>, cfg: Config, down: bool)

  function AddAll(c: Ctl, secrets: seq<Secret>): Ctl {
    if secrets == [] then c else Add(AddAll(c, secrets[..|secrets| - 1]), secrets[|secrets| - 1])
  }

  function Started(cfg: Config): Instance {
    Instance(AddAll(EMPTY, cfg.secrets), 0)
  }

  function Stopped(i: Instance): Instance {
    Instance(StopFinish(StopBegin(i.ctl)), i.stops + 1)
  }

  function StopLast(instances: seq<Instance>): seq<Instance> {
    if instances == [] then []
    else
      instances[|instances| - 1 := Stopped(instances[|instances| - 1])]
  }

  function OnSignal(l: Loop, s: Signal): Loop {
    if l.down then l
    else if s.Shutdown? then l.(instances := StopLast(l.instances), down := true)
    else
      match s.accepted
      case None => l
      case Some(cfg) => Loop(StopLast(l.instances) + [Started(cfg)], cfg, false)
  }

  function After(cfg: Config, signals: seq<Signal>): Loop {
    if signals == [] then Loop([Started(cfg)], cfg, false)
    else OnSignal(After(cfg, signals[..|signals| - 1]), signals[|signals| - 1])
  }

  /** The last configuration accepted before a shutdown. */
  function Active(cfg: Config, signals: seq<Signal>): Config
    decreases |signals|
  {
    if signals == [] then cfg
    else if signals[0].Shutdown? then cfg
    else Active(if signals[0].accepted.Some? then signals[0].accepted.value else cfg, signals[1..])
  }

  /** The last secret of each name. */
  function ByName(secrets: seq<Secret>): map<string, Secret> {
    if secrets == [] then map[]
    else ByName(secrets[..|secrets| - 1])[secrets[|secrets| - 1].name := secrets[|secrets| - 1]]
  }

  ghost predicate IsLast(secrets: seq<Secret>, i: int, name: string) {
    0 <= i < |secrets| && secrets[i].name == name && forall j :: i < j < |secrets| ==> secrets[j].name != name
  }

  lemma {:induction false} ByNameIsLast(secrets: seq<Secret>, name: string)
    ensures name in ByName(secrets) <==> exists i :: 0 <= i < |secrets| && secrets[i].name == name
    ensures name in ByName(secrets) ==> exists i :: IsLast(secrets, i, name) && secrets[i] == ByName(secrets)[name]
  {
    if secrets != [] {
      var n := |secrets| - 1;
      var before := secrets[..n];
      ByNameIsLast(before, name);
      if secrets[n].name == name {
        assert IsLast(secrets, n, name);
      } else if name in ByName(before) {
        var i :| IsLast(before, i, name) && before[i] == ByName(before)[name];
        assert IsLast(secrets, i, name);
      }
    }
  }

  lemma OverwriteLater<K, V>(a: map<K, V>, b: map<K, V>, k: K, v: V)
    ensures (a + b)[k := v] == a + b[k := v]
  {
  }

  /** Adding secrets overwrites by name and removes nothing. */
  lemma {:induction false} AddAllOverwrites(c: Ctl, secrets: seq<Secret>)
    requires CtlOk(c)
    ensures var c' := AddAll(c, secrets);
      CtlOk(c') && Live(c') == Live(c) + ByName(secrets) && c'.stopped == c.stopped && c'.panicked == c.panicked
  {
    if secrets != [] {
      var init, last := secrets[..|secrets| - 1], secrets[|secrets| - 1];
      var before := AddAll(c, init);
      AddAllOverwrites(c, init);
      AddKeepsOk(before, last);
      AddMakesLive(before, last);
      OverwriteLater(Live(c), ByName(init), last.name, last);
    }
  }

  /** A reload by the file watcher only adds: the table is the new configuration's exactly when nothing was dropped. */
  lemma WatcherReloadIsExactIff(c: Ctl, secrets: seq<Secret>)
    requires CtlOk(c)
    ensures Live(AddAll(c, secrets)) == ByName(secrets) <==> Live(c).Keys <= ByName(secrets).Keys
  {
    AddAllOverwrites(c, secrets);
    if Live(c).Keys <= ByName(secrets).Keys {
      assert Live(c) + ByName(secrets) == ByName(secrets);
    } else {
      var name :| name in Live(c) && name !in ByName(secrets);
      assert name in Live(c) + ByName(secrets);
    }
  }

  // ----- Every run -----

  /** Stopped once, with every job halted and nothing left in the table. */
  ghost predicate Retired(i: Instance) {
    && i.stops == 1 && i.ctl.stopped && !i.ctl.panicked && i.ctl.table == map[]
    && forall k :: 0 <= k < |i.ctl.jobs| ==> i.ctl.jobs[k].stopped
  }

  ghost predicate Serving(i: Instance, cfg: Config) {
    && i.stops == 0 && !i.ctl.stopped && !i.ctl.panicked && CtlOk(i.ctl)
    && Live(i.ctl) == ByName(cfg.secrets)
  }

  ghost predicate LoopOk(l: Loop) {
    && l.instances != []
    && (forall k :: 0 <= k < |l.instances| - 1 ==> Retired(l.instances[k]))
    && var last := l.instances[|l.instances| - 1];
       if l.down then Retired(last) else Serving(last, l.cfg)
  }

  lemma StartedServes(cfg: Config)
    ensures Serving(Started(cfg), cfg)
  {
    AddAllOverwrites(EMPTY, cfg.secrets);
    assert Live(EMPTY) + ByName(cfg.secrets) == ByName(cfg.secrets);
  }

  lemma StopLastRetires(l: Loop)
    requires LoopOk(l) && !l.down
    ensures forall k :: 0 <= k < |l.instances| ==> Retired(StopLast(l.instances)[k])
  {
  }

  /** Over any reloads, valid or not, and a shutdown: one scheduler serves between signals, its table holds exactly
      the last accepted configuration, and every other instance was stopped exactly once. */
  lemma {:induction false} OneSchedulerServes(cfg: Config, signals: seq<Signal>)
    ensures LoopOk(After(cfg, signals))
  {
    if signals == [] {
      StartedServes(cfg);
    } else {
      var before := After(cfg, signals[..|signals| - 1]);
      OneSchedulerServes(cfg, signals[..|signals| - 1]);
      if !before.down {
        StopLastRetires(before);
        var s := signals[|signals| - 1];
        if s.Reload? && s.accepted.Some? { StartedServes(s.accepted.value); }
      }
    }
  }

  lemma {:induction false} AfterFrom(cfg: Config, signals: seq<Signal>)
    requires signals != []
    ensures var first := signals[0];
      && (first.Shutdown? ==> After(cfg, signals) == OnSignal(After(cfg, []), first))
      && (!first.Shutdown? ==>
            var next := if first.accepted.Some? then first.accepted.value else cfg;
            After(cfg, signals).cfg == After(next, signals[1..]).cfg && After(cfg, signals).down == After(next, signals[1..]).down)
  {
    var n := |signals| - 1;
    if n == 0 {
      assert signals[..0] == [] && signals[1..] == [];
    } else {
      AfterFrom(cfg, signals[..n]);
      assert signals[..n][0] == signals[0] && signals[..n][1..] == signals[1..][..n - 1];
      assert signals[1..][n - 1] == signals[n];
    }
  }

  /** The configuration in force is the last accepted one. */
  lemma {:induction false} ConfigInForce(cfg: Config, signals: seq<Signal>)
    ensures After(cfg, signals).cfg == Active(cfg, signals)
    decreases |signals|
  {
    if signals != [] {
      AfterFrom(cfg, signals);
      if signals[0].Shutdown? {
        assert After(cfg, []).cfg == cfg;
      } else {
        ConfigInForce(if signals[0].accepted.Some? then signals[0].accepted.value else cfg, signals[1..]);
      }
    }
  }

  /** Signal k is an accepted reload that no shutdown precedes and no accepted reload follows before the shutdown. */
  ghost predicate LastAccepted(signals: seq<Signal>, k: int) {
    && 0 <= k < |signals| && signals[k].Reload? && signals[k].accepted.Some?
    && (forall j :: 0 <= j < k ==> signals[j].Reload?)
    && forall j :: k < j < |signals| && signals[j].Reload? && signals[j].accepted.Some? ==>
         exists l :: k < l < j && signals[l].Shutdown?
  }

  /** The configuration in force is that of the last accepted reload, or the initial one. */
  lemma {:induction false} ActiveIff(cfg: Config, signals: seq<Signal>)
    ensures forall k :: LastAccepted(signals, k) ==> Some(Active(cfg, signals)) == signals[k].accepted
    ensures (forall k :: !LastAccepted(signals, k)) ==> Active(cfg, signals) == cfg
    decreases |signals|
  {
    if signals != [] && signals[0].Reload? {
      var rest := signals[1..];
      ActiveIff(if signals[0].accepted.Some? then signals[0].accepted.value else cfg, rest);
      LastAcceptedLater(signals);
    }
  }

  /** Among accepted reloads before a shutdown there is a last. */
  lemma {:induction false} SomeLastAccepted(signals: seq<Signal>, j: nat)
    requires j < |signals| && signals[j].Reload? && signals[j].accepted.Some? && forall l :: 0 <= l < j ==> signals[l].Reload?
    ensures exists k :: LastAccepted(signals, k)
    decreases |signals| - j
  {
    if i :| j < i < |signals| && signals[i].Reload? && signals[i].accepted.Some? && forall l :: j < l < i ==> signals[l].Reload? {
      SomeLastAccepted(signals, i);
    } else {
      assert LastAccepted(signals, j);
    }
  }

  lemma LastAcceptedLater(signals: seq<Signal>)
    requires signals != [] && signals[0].Reload?
    ensures forall k :: k > 0 ==> (LastAccepted(signals, k) <==> LastAccepted(signals[1..], k - 1))
    ensures LastAccepted(signals, 0) <==> signals[0].accepted.Some? && forall k :: !LastAccepted(signals[1..], k)
    ensures forall k :: LastAccepted(signals[1..], k) ==> LastAccepted(signals, k + 1)
  {
    var rest := signals[1..];
    assert forall j :: 0 <= j < |rest| ==> rest[j] == signals[j + 1];
    assert forall j :: 0 < j < |signals| ==> signals[j] == rest[j - 1];
    if signals[0].accepted.Some? && forall k :: !LastAccepted(rest, k) {
      forall j | 0 < j < |signals| && signals[j].Reload? && signals[j].accepted.Some?
        ensures exists l :: 0 < l < j && signals[l].Shutdown?
      {
        if forall l :: 0 < l < j ==> signals[l].Reload? { SomeLastAccepted(rest, j - 1); }
      }
    }
  }

  lemma {:induction false} DownAfterShutdown(cfg: Config, signals: seq<Signal>)
    ensures After(cfg, signals).down <==> Shutdown in signals
  {
    if signals != [] {
      var n := |signals| - 1;
      DownAfterShutdown(cfg, signals[..n]);
      assert signals == signals[..n] + [signals[n]];
    }
  }

  /** The signals that are not rejected reloads. */
  function Effective(signals: seq<Signal>): seq<Signal> {
    if signals == [] then []
    else
      var before, last := Effective(signals[..|signals| - 1]), signals[|signals| - 1];
      if last.Reload? && last.accepted.None? then before else before + [last]
  }

  /** The reloads accepted before a shutdown. */
  function Restarts(signals: seq<Signal>): nat {
    if signals == [] then 0
    else
      var before, last := signals[..|signals| - 1], signals[|signals| - 1];
      Restarts(before) + if last.Reload? && last.accepted.Some? && Shutdown !in before then 1 else 0
  }

  /** A rejected reload changes nothing: the running scheduler is kept. Every accepted one starts one new scheduler. */
  lemma {:induction false} RejectedReloadsChangeNothing(cfg: Config, signals: seq<Signal>)
    ensures After(cfg, signals) == After(cfg, Effective(signals))
    ensures |After(cfg, signals).instances| == 1 + Restarts(signals)
  {
    hide Started, Stopped;
    if signals != [] {
      var n := |signals| - 1;
      var before, effective := signals[..n], Effective(signals);
      RejectedReloadsChangeNothing(cfg, before);
      DownAfterShutdown(cfg, before);
      if !(signals[n].Reload? && signals[n].accepted.None?) {
        assert effective[..|effective| - 1] == Effective(before);
      }
    }
  }

  ghost predicate Genuine(s: Signal) {
    s.Shutdown? || exists env, raw :: s == ReadConfig(env, raw)
  }

  /** Every configuration that a reload put in force has pairwise distinct file paths. */
  lemma {:induction false} ReloadedConfigsNeverClash(cfg: Config, signals: seq<Signal>)
    requires forall s :: s in signals ==> Genuine(s)
    ensures Active(cfg, signals) == cfg || Distinct(AllPaths(Active(cfg, signals).secrets))
    decreases |signals|
  {
    if signals != [] && !signals[0].Shutdown? {
      var first := signals[0];
      assert Genuine(first);
      if first.accepted.Some? {
        var env, raw :| first == ReadConfig(env, raw);
        Validation.ReloadedPathsAreDistinct(env, raw.value);
        ReloadedConfigsNeverClash(first.accepted.value, signals[1..]);
      } else {
        ReloadedConfigsNeverClash(cfg, signals[1..]);
      }
    }
  }

  // ----- The loop -----

  ghost function InstanceView(s: Scheduler): Instance
    reads s, s.all
  {
    Instance(s.View(), s.stops)
  }

  method StartScheduler(secrets: seq<Secret>) returns (s: Scheduler)
    ensures fresh(s) && fresh(s.all) && s.Valid()
    ensures InstanceView(s) == Instance(AddAll(EMPTY, secrets), 0) && !s.stopped
  {
    s := new Scheduler();
    for i := 0 to |secrets|
      invariant fresh(s) && fresh(s.all) && s.Valid()
      invariant s.View() == AddAll(EMPTY, secrets[..i]) && s.stops == 0 && !s.stopped
    {
      assert secrets[..i + 1][..i] == secrets[..i];
      s.AddSecret(secrets[i]);
    }
    assert secrets[..|secrets|] == secrets;
  }

  /** Handles signals in order until a shutdown. instances records each scheduler when the loop lets go of it, and
      the last one at the end. */
  method Run(initial: Config, signals: seq<Signal>) returns (cfg: Config, down: bool, ghost instances: seq<Instance>)
    ensures cfg == Active(initial, signals) && (down <==> Shutdown in signals)
    ensures Loop(instances, cfg, down) == After(initial, signals)
  {
    hide StopFinish, StopBegin, AddAll;
    cfg, down := initial, false;
    var scheduler := StartScheduler(cfg.secrets);
    ghost var retired: seq<Instance> := [];
    assert signals[..0] == [];
    for i := 0 to |signals|
      invariant fresh(scheduler) && fresh(scheduler.all) && scheduler.Valid()
      invariant !down ==> !scheduler.stopped
      invariant Loop(retired + [InstanceView(scheduler)], cfg, down) == After(initial, signals[..i])
    {
      ghost var before := InstanceView(scheduler);
      assert signals[..i + 1][..i] == signals[..i];
      StopLastOf(retired, before);
      if !down {
        match signals[i]
        case Shutdown =>
          scheduler.Stop();
          down := true;
        case Reload(accepted) =>
          if accepted.Some? {
            cfg := accepted.value;
            scheduler := Swap(scheduler, cfg.secrets);
            retired := retired + [Stopped(before)];
          }
      }
      assert After(initial, signals[..i + 1]) == OnSignal(After(initial, signals[..i]), signals[i]);
    }
    assert signals[..|signals|] == signals;
    instances := retired + [InstanceView(scheduler)];
    ConfigInForce(initial, signals);
    DownAfterShutdown(initial, signals);
  }

  method Swap(current: Scheduler, secrets: seq<Secret>) returns (next: Scheduler)
    requires current.Valid() && !current.stopped
    modifies current, current.all
    ensures InstanceView(current) == Stopped(old(InstanceView(current)))
    ensures fresh(next) && fresh(next.all) && next.Valid() && !next.stopped
    ensures InstanceView(next) == Instance(AddAll(EMPTY, secrets), 0)
  {
    current.Stop();
    next := StartScheduler(secrets);
  }

  lemma StopLastOf(retired: seq<Instance>, last: Instance)
    ensures StopLast(retired + [last]) == retired + [Stopped(last)]
  {
  }
}
