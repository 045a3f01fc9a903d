/** Concrete configurations that validation accepts and that show where the code does less than one may expect. */
module Witnesses {
  import opened Options
  import opened Config
  import opened Validation
  import opened ClientPool
  import opened Disk
  import opened Syncer
  import Daemon
  import FileStore
  import Guards
  import Matching
  import Paths

  /** A secret with one file and the template for it. */
  function OneFile(path: string, name: string): Secret {
    Secret("s", "k", "m", "", "", "v2", MIN_REFRESH, map[name := "x"], [File(path, "0600", "", "")])
  }

  function OneFileConfig(store: SecretStore, path: string, name: string): Config {
    ConfigOf.Config(store, [OneFile(path, name)])
  }

  /** The engine that copies a template as it is. */
  const COPIES := Engine(source => true, (source, data) => Some(source))

  lemma CleanPathIsNormal(path: string)
    requires Paths.IsAbs(path) && Paths.Clean(path) == path
    ensures var file := File(path, "0600", "", "");
      FileOk(ENV, file) && Normal(ENV, file) == file
  {
    Guards.DefaultMode();
  }

  lemma OneFileAccepted(store: SecretStore, path: string, name: string)
    requires StoreOk(ENV, store) && Paths.IsAbs(path) && Paths.Clean(path) == path
    ensures var cfg := OneFileConfig(store, path, name);
      Accepts(ENV, cfg) && Normalised(ENV, cfg) == cfg
  {
    hide FileOk, Normal;
    CleanPathIsNormal(path);
    var secret := OneFile(path, name);
    assert NormalFiles(ENV, secret.files) == secret.files;
    OneSecretAccepted(ENV, store, secret);
    assert NormalSecrets(ENV, store, [secret]) == [secret];
  }

  lemma OneFileMatches(dir: string, name: string)
    requires Paths.PlainName(dir) && Paths.PlainName(name)
    ensures var secret := OneFile("/" + dir + "/" + name, name);
      NamesMatch(secret) && Matching.Complete(secret.template.Keys, secret.files)
  {
    var secret := OneFile("/" + dir + "/" + name, name);
    Paths.DirAndBaseOfChild("/" + dir, name);
    assert Matching.Bases(secret.files) == [name];
    Matching.MatchingIsComplete(secret.template.Keys, secret.files);
  }

  lemma OneFileDeliverable(dir: string, name: string)
    requires Paths.PlainName(dir) && Paths.PlainName(name) && Guards.ValidatePath("/" + dir + "/" + name).PathOk?
    ensures Deliverable(OneFile("/" + dir + "/" + name, name))
  {
    hide Matching.Complete, Guards.ValidatePath;
    OneFileMatches(dir, name);
    Guards.DefaultMode();
  }

  // ----- A path with two adjacent dots -----

  lemma NeverDelivered(secret: Secret, k: nat)
    requires k < |secret.files| && !Guards.ValidatePath(secret.files[k].path).PathOk?
    ensures forall data, env, fs :: Deliver(secret, data, env, fs).err.Some?
  {
    hide Deliver, Guards.ValidatePath;
    DeliverableIff(secret);
  }

  lemma DotsInside()
    ensures Guards.ValidatePath("/a/b..c").PathDotDot?
  {
    Guards.AbsoluteVerdict("/a/b..c");
    Guards.ContainsTwoDots("/a/b..c");
    assert Guards.DotsAt("/a/b..c", 4);
  }

  /** Accepted as it stands, with matching names; yet every sync of it ends in an error. */
  lemma AcceptedButNeverDelivered()
    ensures var cfg := OneFileConfig(STORE, "/a/b..c", "b..c");
      && Accepts(ENV, cfg) && Normalised(ENV, cfg) == cfg && NamesMatch(cfg.secrets[0])
      && Guards.ValidatePath("/a/b..c").PathDotDot?
      && forall data, env, fs :: Deliver(cfg.secrets[0], data, env, fs).err.Some?
  {
    hide Paths.Clean, Deliver, Accepts, Normalised, NamesMatch, Guards.ValidatePath;
    assert "/a/b..c" == "/" + "a" + "/" + "b..c";
    Paths.CleanOfTwo("a", "b..c");
    OneFileAccepted(STORE, "/a/b..c", "b..c");
    OneFileMatches("a", "b..c");
    DotsInside();
    NeverDelivered(OneFile("/a/b..c", "b..c"), 0);
  }

  // ----- A target that looks like a temp file -----

  lemma CopiesRender(path: string, name: string)
    ensures RendersWith(COPIES, OneFile(path, name), map[])
  {
  }

  lemma OneFileIsWritten(path: string, name: string, fs: FileStore.Fs)
    requires fs.WellFormed() && Deliverable(OneFile(path, name))
    ensures var r := Deliver(OneFile(path, name), map[], Benign(COPIES), fs);
      r.err.None? && r.fs.Content(path) == Some("x")
  {
    hide AfterWrite, Succeeds;
    var secret := OneFile(path, name);
    CopiesRender(path, name);
    DeliverableDelivers(COPIES, secret, map[], fs);
    RenderAllIff(secret.template, map[], Benign(COPIES));
    var texts := RenderAll(secret.template, map[], Benign(COPIES)).texts;
    var text := TextFor(path, Matched(secret), texts);
    var fs' := AfterWrite(fs, ConfigFor(secret.files[0]), text, Benign(COPIES).writes(0));
    WriteIsAllOrNothing(fs, ConfigFor(secret.files[0]), text, Benign(COPIES).writes(0));
    assert WriteFrom(fs', secret.files, Matched(secret), texts, Benign(COPIES), 1).fs == fs';
  }

  /** Any target that looks like a temp file is written and then deleted by the sweep of its own directory. */
  lemma TempLikeTargetIsLost(path: string, name: string, fs: FileStore.Fs, dirs: seq<string>)
    requires fs.WellFormed() && Deliverable(OneFile(path, name)) && Paths.IsTemp(path) && path != ""
    requires ParentsOf(dirs, AllPaths([OneFile(path, name)]))
    ensures var written := Deliver(OneFile(path, name), map[], Benign(COPIES), fs);
      && written.err.None? && written.fs.Content(path) == Some("x")
      && Swept(written.fs, dirs, {}).Content(path) == None
  {
    hide Deliver, Deliverable, Paths.IsTemp, Paths.Dir;
    var secret := OneFile(path, name);
    OneFileIsWritten(path, name, fs);
    PathsOfOne(secret);
    assert PathsOf(secret.files)[0] == path;
    assert Paths.Dir(path) in dirs;
    ParentIsCovered(dirs, path, path);
    SweepSparesExactly(Deliver(secret, map[], Benign(COPIES), fs).fs, dirs, {}, path);
  }

  lemma TempLikeIsDeliverable()
    ensures Deliverable(OneFile("/d/a.tmp.b", "a.tmp.b")) && Paths.IsTemp("/d/a.tmp.b")
  {
    hide Paths.IsTemp, Guards.ValidatePath, Deliverable;
    assert "/d/a.tmp.b" == "/" + "d" + "/" + "a.tmp.b" == Paths.TempName("/d/a", "b");
    NoDots();
    OneFileDeliverable("d", "a.tmp.b");
    Paths.TempNameIsSwept("/d/a", "b");
  }

  /** Accepted, delivered, and then lost to the sweep. */
  lemma SweepDeletesAnAcceptedTarget(dirs: seq<string>)
    requires ParentsOf(dirs, AllPaths([OneFile("/d/a.tmp.b", "a.tmp.b")]))
    ensures var path := "/d/a.tmp.b";
      var cfg := OneFileConfig(STORE, path, "a.tmp.b");
      var written := Deliver(cfg.secrets[0], map[], Benign(COPIES), FileStore.Fs(map[], map[], 0));
      && Accepts(ENV, cfg) && Normalised(ENV, cfg) == cfg
      && written.err.None? && written.fs.Content(path) == Some("x") && Swept(written.fs, dirs, {}).Content(path) == None
  {
    hide Paths.Clean, Deliver, Deliverable, Accepts, Normalised, Paths.IsTemp, ParentsOf, Swept;
    var path := "/d/a.tmp.b";
    assert path == "/" + "d" + "/" + "a.tmp.b";
    Paths.CleanOfTwo("d", "a.tmp.b");
    OneFileAccepted(STORE, path, "a.tmp.b");
    TempLikeIsDeliverable();
    TempLikeTargetIsLost(path, "a.tmp.b", FileStore.Fs(map[], map[], 0), dirs);
  }

  lemma NoDots()
    ensures Guards.ValidatePath("/d/a.tmp.b").PathOk?
  {
    Guards.AbsoluteVerdict("/d/a.tmp.b");
    Guards.ContainsTwoDots("/d/a.tmp.b");
  }

  // ----- A rotated token -----

  /** Two accepted configurations that differ in the token alone: after the reload the daemon still reads with the
      token of the first, which need no longer be valid. */
  lemma RotatedTokenIsNotUsed(initialNamespace: string)
    ensures var before := OneFileConfig(STORE, "/a/b", "b");
      var after := OneFileConfig(STORE.(token := "u"), "/a/b", "b");
      var syncs := [Sync(Use(STORE.address, before.store, before.secrets[0]), Some("t"), 1),
                    Sync(Use(STORE.address, after.store, after.secrets[0]), Some("u"), 1)];
      && Accepts(ENV, before) && Accepts(ENV, after)
      && From(syncs, UsesOf([before, after]))
      && ShownAt(initialNamespace, syncs, 1).Some? && ShownAt(initialNamespace, syncs, 1).value.token == "t"
      && !Transparent(initialNamespace, syncs)
  {
    hide Paths.Clean, Accepts, Transparent, ShownAt;
    var before := OneFileConfig(STORE, "/a/b", "b");
    var after := OneFileConfig(STORE.(token := "u"), "/a/b", "b");
    assert "/a/b" == "/" + "a" + "/" + "b";
    Paths.CleanOfTwo("a", "b");
    OneFileAccepted(STORE, "/a/b", "b");
    OneFileAccepted(STORE.(token := "u"), "/a/b", "b");
    var configs := [before, after];
    var first := Use(configs[0].store.address, configs[0].store, configs[0].secrets[0]);
    var second := Use(configs[1].store.address, configs[1].store, configs[1].secrets[0]);
    assert first in UsesOf(configs) && second in UsesOf(configs);
    ClashShows(initialNamespace, first, second, "t", "u");
  }

  // ----- A reload after a failed first sync -----

  lemma PlainFileCanSucceed()
    ensures CanSucceed(COPIES, OneFile("/a/b", "b"))
  {
    hide CanSucceed, Deliverable, Guards.ValidatePath;
    assert "/a/b" == "/" + "a" + "/" + "b";
    Guards.AbsoluteVerdict("/a/b");
    Guards.ContainsTwoDots("/a/b");
    OneFileDeliverable("a", "b");
    CopiesRender("/a/b", "b");
    CanSucceedIff(COPIES, OneFile("/a/b", "b"));
  }

  /** One and the same valid configuration, reloaded after its first sync has failed: its files are delivered, and the
      daemon never reports itself ready. */
  lemma DeliveredButNeverReady(stale: bool) returns (steps: seq<Daemon.Step>, end: Daemon.Daemon)
    ensures var cfg := OneFileConfig(STORE, "/a/b", "b");
      && Reloaded(ENV, cfg) == Some(cfg)
      && Daemon.Runs(Daemon.Start(COPIES, stale, cfg.secrets), steps, end) && |end.worlds| == 2
      && (exists k :: 0 <= k < |end.worlds[1].queue| && Daemon.Delivered(end.worlds[1].queue[k], cfg.secrets[0]))
      && forall more, later :: Daemon.Runs(end, more, later) ==> !later.Ready()
  {
    hide Paths.Clean, Accepts, Normalised, CanSucceed, Daemon.Runs;
    assert "/a/b" == "/" + "a" + "/" + "b";
    Paths.CleanOfTwo("a", "b");
    OneFileAccepted(STORE, "/a/b", "b");
    PlainFileCanSucceed();
    var secret := OneFile("/a/b", "b");
    steps, end := Daemon.ReloadAfterAFailureNeverReady(COPIES, stale, secret, secret);
  }
}
