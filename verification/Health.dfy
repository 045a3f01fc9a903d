/** Readiness, and the monitor that derives it from sync results. */
module Health {
  import opened Options
  import opened Config
  import FileStore
  import Syncer

  /** One reported sync: which secret, how it ended, how many of its files it wrote, and the disk it left, writes of
      other jobs aside. */
  datatype SyncResult = SyncResult(secret: Secret, err: Option<Syncer.SyncError>, written: nat, disk: FileStore.Fs,
                                   timestamp: int)
  {
    predicate Success() { err.None? }
  }

  datatype Readiness = Readiness(ready: bool, secretCount: nat, syncedCount: nat, fileExists: bool)

  /** SetReady; a status file operation that fails leaves the file as it was. */
  function Update(r: Readiness, useFile: bool, secretCount: nat, syncedCount: nat, fileOk: bool): Readiness {
    var ready := syncedCount > 0;
    Readiness(ready, secretCount, syncedCount, if useFile && fileOk then ready else r.fileExists)
  }

  function Successes(results: seq<SyncResult>): nat {
    if results == [] then 0
    else Successes(results[..|results| - 1]) + if results[|results| - 1].Success() then 1 else 0
  }

  lemma {:induction false} SuccessesPositive(results: seq<SyncResult>)
    ensures Successes(results) > 0 <==> exists i :: 0 <= i < |results| && results[i].Success()
  {
    if results != [] {
      var before := results[..|results| - 1];
      SuccessesPositive(before);
      assert forall i :: 0 <= i < |before| ==> results[i] == before[i];
    }
  }

  /** The status after the monitor has received some results. */
  function Monitored(r: Readiness, useFile: bool, results: seq<SyncResult>, totals: seq<nat>, oks: seq<bool>): Readiness
    requires |totals| == |oks| == |results|
  {
    if results == [] then r
    else
      var n := |results| - 1;
      Update(Monitored(r, useFile, results[..n], totals[..n], oks[..n]), useFile, totals[n], Successes(results), oks[n])
  }

  /** Readiness is decided by all results, the secret count and the status file by the last: a status file operation
      that succeeds makes up for earlier ones that failed. */
  lemma {:induction false} MonitoredMeaning(r: Readiness, useFile: bool, results: seq<SyncResult>,
                                            totals: seq<nat>, oks: seq<bool>)
    requires |totals| == |oks| == |results| > 0
    ensures var after := Monitored(r, useFile, results, totals, oks);
      && (after.ready <==> exists i :: 0 <= i < |results| && results[i].Success())
      && after.syncedCount == Successes(results) && after.secretCount == totals[|totals| - 1]
      && (useFile && oks[|oks| - 1] ==> after.fileExists == after.ready)
      && (!useFile ==> after.fileExists == r.fileExists)
    decreases |results|
  {
    SuccessesPositive(results);
    var n := |results| - 1;
    if n > 0 { MonitoredMeaning(r, useFile, results[..n], totals[..n], oks[..n]); }
  }

  /** The counter is the number of successful results. */
  lemma {:induction false} SuccessesIsCount(results: seq<SyncResult>)
    ensures Successes(results) == |set i | 0 <= i < |results| && results[i].Success()|
  {
    if results != [] {
      var n := |results| - 1;
      var before := results[..n];
      SuccessesIsCount(before);
      var earlier := set i | 0 <= i < |before| && before[i].Success();
      assert (set i | 0 <= i < |results| && results[i].Success()) == earlier + if results[n].Success() then {n} else {};
    }
  }

  class Status {
    var ready: bool
    var secretCount: nat
    var syncedCount: nat
    var fileExists: bool
    const statusFile: string

    ghost function View(): Readiness
      reads this
    {
      Readiness(ready, secretCount, syncedCount, fileExists)
    }

    /** A status file of an earlier process may still exist. */
    constructor (statusFile: string, stale: bool)
      ensures View() == Readiness(false, 0, 0, stale) && this.statusFile == statusFile
    {
      this.statusFile := statusFile;
      ready, secretCount, syncedCount, fileExists := false, 0, 0, stale;
    }

    method SetReady(newSecretCount: nat, newSyncedCount: nat, fileOk: bool) returns (ok: bool)
      modifies this
      ensures View() == Update(old(View()), statusFile != "", newSecretCount, newSyncedCount, fileOk)
      ensures !ok <==> statusFile != "" && newSyncedCount > 0 && !fileOk
    {
      ready := newSyncedCount > 0;
      secretCount := newSecretCount;
      syncedCount := newSyncedCount;
      ok := true;
      if statusFile != "" {
        if ready {
          if !fileOk { return false; }
          fileExists := true;
        } else if fileOk {
          fileExists := false;
        }
      }
    }

    /** The monitor goroutine over the results it receives. At each result it reads how many secrets the configuration
        in force has; oks says which status file operations succeed. */
    method Monitor(results: seq<SyncResult>, totals: seq<nat>, oks: seq<bool>)
      requires |totals| == |oks| == |results|
      modifies this
      ensures View() == Monitored(old(View()), statusFile != "", results, totals, oks)
    {
      var synced := 0;
      for k := 0 to |results|
        invariant synced == Successes(results[..k])
        invariant View() == Monitored(old(View()), statusFile != "", results[..k], totals[..k], oks[..k])
      {
        assert results[..k + 1][..k] == results[..k] && totals[..k + 1][..k] == totals[..k] && oks[..k + 1][..k] == oks[..k];
        if results[k].Success() {
          synced := synced + 1;
        }
        var _ := SetReady(totals[k], synced, oks[k]);
      }
      assert results[..|results|] == results && totals[..|results|] == totals && oks[..|results|] == oks;
    }
  }
}
