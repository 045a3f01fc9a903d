/** The scheduler's job table and stop channels. */
module Scheduling {
  import opened Options
  import opened Config

  // ----- Specification on values -----

  /** One job ever started; stopped says that its stop channel is closed. */
  datatype JobCtl = JobCtl(secret: Secret, ticking: bool, stopped: bool)

  /** jobs lists every job in the order of creation; stopped says that the scheduler-wide channel is closed.
      Closing a closed channel panics. */
  datatype Ctl = Ctl(jobs: seq<JobCtl>, table: map<string, nat>, stopped: bool, panicked: bool)

  const EMPTY := Ctl([], map[], false, false)

  predicate Tabled(c: Ctl, i: nat)
    requires i < |c.jobs|
  {
    c.jobs[i].secret.name in c.table && c.table[c.jobs[i].secret.name] == i
  }

  /** A stop channel is open exactly while the table maps the job's name to the job. */
  ghost predicate CtlOk(c: Ctl) {
    && (forall name :: name in c.table ==> c.table[name] < |c.jobs| && c.jobs[c.table[name]].secret.name == name)
    && (forall i :: 0 <= i < |c.jobs| ==>
          (!c.jobs[i].stopped <==> Tabled(c, i)) && (c.jobs[i].ticking <==> !c.jobs[i].stopped))
  }

  function Halt(c: Ctl, i: nat): Ctl
    requires i < |c.jobs|
  {
    c.(jobs := c.jobs[i := c.jobs[i].(ticking := false, stopped := true)], panicked := c.panicked || c.jobs[i].stopped)
  }

  function HaltNamed(c: Ctl, name: string): Ctl {
    if name in c.table && c.table[name] < |c.jobs| then Halt(c, c.table[name]) else c
  }

  function Add(c: Ctl, secret: Secret): Ctl {
    var halted := HaltNamed(c, secret.name);
    halted.(jobs := halted.jobs + [JobCtl(secret, true, false)], table := c.table[secret.name := |c.jobs|])
  }

  function Remove(c: Ctl, name: string): Ctl {
    HaltNamed(c, name).(table := c.table - {name})
  }

  /** Stop first closes the scheduler-wide channel, then, under the lock, every job in the table. */
  function StopBegin(c: Ctl): Ctl {
    c.(stopped := true, panicked := c.panicked || c.stopped)
  }

  function StopFinish(c: Ctl): Ctl {
    c.(jobs := seq(|c.jobs|, i requires 0 <= i < |c.jobs| =>
          if Tabled(c, i) then c.jobs[i].(ticking := false, stopped := true) else c.jobs[i]),
       table := map[],
       panicked := c.panicked || exists i :: 0 <= i < |c.jobs| && Tabled(c, i) && c.jobs[i].stopped)
  }

  /** The secrets being synced, by name. */
  function Live(c: Ctl): map<string, Secret> {
    map name | name in c.table && c.table[name] < |c.jobs| :: c.jobs[c.table[name]].secret
  }

  lemma AddMakesLive(c: Ctl, secret: Secret)
    requires CtlOk(c)
    ensures Live(Add(c, secret)) == Live(c)[secret.name := secret]
  {
    var c' := Add(c, secret);
    assert forall i :: 0 <= i < |c.jobs| ==> c'.jobs[i].secret == c.jobs[i].secret;
  }

  lemma AddKeepsOk(c: Ctl, secret: Secret)
    requires CtlOk(c)
    ensures CtlOk(Add(c, secret)) && Add(c, secret).panicked == c.panicked && Add(c, secret).stopped == c.stopped
  {
    var c' := Add(c, secret);
    forall i | 0 <= i < |c'.jobs| ensures !c'.jobs[i].stopped <==> Tabled(c', i) {
      if i < |c.jobs| { assert c'.jobs[i].secret == c.jobs[i].secret; }
    }
  }

  lemma RemoveKeepsOk(c: Ctl, name: string)
    requires CtlOk(c)
    ensures CtlOk(Remove(c, name)) && Remove(c, name).panicked == c.panicked
  {
    var c' := Remove(c, name);
    forall i | 0 <= i < |c'.jobs| ensures !c'.jobs[i].stopped <==> Tabled(c', i) {
      assert c'.jobs[i].secret == c.jobs[i].secret;
    }
  }

  lemma StopKeepsOk(c: Ctl)
    requires CtlOk(c)
    ensures CtlOk(StopBegin(c)) && (StopBegin(c).panicked <==> c.panicked || c.stopped)
    ensures CtlOk(StopFinish(c)) && StopFinish(c).panicked == c.panicked
    ensures forall i :: 0 <= i < |c.jobs| ==> StopFinish(c).jobs[i].stopped
  {
  }

  // ----- The scheduler -----

  class Job {
    const secret: Secret
    var ticking: bool
    var stopped: bool

    constructor (secret: Secret)
      ensures this.secret == secret && ticking && !stopped
    {
      this.secret := secret;
      ticking, stopped := true, false;
    }

    ghost function View(): JobCtl
      reads this
    {
      JobCtl(secret, ticking, stopped)
    }

    /** Stops the ticker and closes the stop channel; closing it twice would panic. */
    method Halt()
      requires !stopped
      modifies this`ticking, this`stopped
      ensures stopped && !ticking
    {
      ticking := false;
      stopped := true;
    }
  }

  class Scheduler {
    var jobs: map<string, Job>
    var stopped: bool
    ghost var all: seq<Job>
    ghost var table: map<string, nat>
    ghost var stops: nat

    constructor ()
      ensures Valid() && View() == EMPTY && all == [] && stops == 0
    {
      jobs, stopped, all, table, stops := map[], false, [], map[], 0;
    }

    ghost function View(): Ctl
      reads this, all
    {
      Ctl(seq(|all|, i requires 0 <= i < |all| reads this, all => all[i].View()), table, stopped, false)
    }

    ghost predicate Shaped()
      reads this
    {
      && Distinct(all)
      && table.Keys == jobs.Keys
      && (forall name :: name in jobs ==> table[name] < |all| && all[table[name]] == jobs[name])
    }

    ghost predicate Valid()
      reads this, all
    {
      Shaped() && CtlOk(View())
    }

    method HaltExisting(name: string)
      requires Valid()
      modifies all
      ensures Shaped() && View() == HaltNamed(old(View()), name)
    {
      ghost var before := View();
      if name in jobs {
        assert Tabled(before, table[name]);
        ghost var i := table[name];
        assert before.jobs[i] == jobs[name].View();
        jobs[name].Halt();
        assert View().jobs == before.jobs[i := before.jobs[i].(ticking := false, stopped := true)];
      }
    }

    /** A job of the same name is halted and replaced. */
    method AddSecret(secret: Secret)
      requires Valid()
      modifies this, all
      ensures Valid() && View() == Add(old(View()), secret)
      ensures secret.name in jobs && all == old(all) + [jobs[secret.name]] && fresh(jobs[secret.name])
      ensures stops == old(stops)
    {
      ghost var before := View();
      HaltExisting(secret.name);
      var j := new Job(secret);
      Install(j);
      assert View() == Add(before, secret);
      AddKeepsOk(before, secret);
    }

    method Install(j: Job)
      requires Shaped() && j !in all
      modifies this`jobs, this`all, this`table
      ensures Shaped() && all == old(all) + [j] && jobs == old(jobs)[j.secret.name := j]
      ensures View() == var before := old(View());
        before.(jobs := before.jobs + [j.View()], table := before.table[j.secret.name := |before.jobs|])
    {
      ghost var before := View();
      table := table[j.secret.name := |all|];
      all := all + [j];
      jobs := jobs[j.secret.name := j];
      assert View().jobs == before.jobs + [j.View()];
    }

    method RemoveSecret(name: string)
      requires Valid()
      modifies this, all
      ensures Valid() && View() == Remove(old(View()), name) && all == old(all) && stops == old(stops)
    {
      ghost var before := View();
      HaltExisting(name);
      ghost var halted := View();
      jobs := jobs - {name};
      table := table - {name};
      assert View().jobs == halted.jobs;
      assert View() == Remove(before, name);
      RemoveKeepsOk(before, name);
    }

    /** Stops every job; a second call would panic on the scheduler-wide channel. */
    method Stop()
      requires Valid() && !stopped
      modifies this, all
      ensures Valid() && View() == StopFinish(StopBegin(old(View()))) && all == old(all) && stops == old(stops) + 1
    {
      ghost var before := View();
      StopKeepsOk(before);
      StopKeepsOk(StopBegin(before));
      TabledJobs();
      stopped, stops := true, stops + 1;
      HaltAll();
      assert forall i :: 0 <= i < |all| ==> all[i].View() == StopFinish(StopBegin(before)).jobs[i] by {
        forall i | 0 <= i < |all| ensures all[i].View() == StopFinish(StopBegin(before)).jobs[i] {
          assert before.jobs[i] == old(all[i].View());
          assert Tabled(before, i) <==> all[i] in jobs.Values;
        }
      }
      jobs, table := map[], map[];
      assert View().jobs == StopFinish(StopBegin(before)).jobs;
    }

    lemma TabledJobs()
      requires Valid()
      ensures forall name :: name in jobs ==> jobs[name].secret.name == name && !jobs[name].stopped
      ensures forall i :: 0 <= i < |all| ==> (Tabled(View(), i) <==> all[i] in jobs.Values)
    {
      forall name | name in jobs ensures jobs[name].secret.name == name && !jobs[name].stopped {
        assert View().jobs[table[name]] == all[table[name]].View();
        assert Tabled(View(), table[name]);
      }
      forall i | 0 <= i < |all| ensures Tabled(View(), i) <==> all[i] in jobs.Values {
        assert View().jobs[i] == all[i].View();
        if all[i] in jobs.Values {
          var name :| name in jobs && jobs[name] == all[i];
          assert all[table[name]] == all[i];
        }
      }
    }

    method HaltAll()
      requires forall name :: name in jobs ==> jobs[name].secret.name == name && !jobs[name].stopped
      modifies jobs.Values
      ensures forall name :: name in jobs ==> jobs[name].stopped && !jobs[name].ticking
    {
      var rest := jobs.Keys;
      while rest != {}
        invariant rest <= jobs.Keys
        invariant forall name :: name in rest ==> !jobs[name].stopped
        invariant forall name :: name in jobs.Keys - rest ==> jobs[name].stopped && !jobs[name].ticking
      {
        var name :| name in rest;
        jobs[name].Halt();
        rest := rest - {name};
      }
    }
  }
}
