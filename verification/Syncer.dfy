/** One sync of one secret: client, fetch, rendering, matching, and the files written in order. */
module Syncer {
  import opened Options
  import opened Config
  import opened Breaker
  import opened Retry
  import opened VaultClient
  import opened ClientPool
  import opened Matching
  import opened FileStore
  import opened Disk
  import Paths
  import Guards
  import Validation

  datatype SyncError =
    | NoCredentials | ClientFailed | FetchFailed | ParseFailed | RenderFailed | CountMismatch
    | BadMode(file: nat) | BadOwner(file: nat) | BadGroup(file: nat) | NoTemplate(file: nat) | WriteFailed(file: nat)

  /** The template engine: whether a source parses, and what it renders to with given data, if anything. */
  datatype Engine = Engine(parse: string -> bool, render: (string, SecretData) -> Option<string>)

  /** The world outside one sync: the client factory and the address it connects to, Vault, the template engine, and
      the disk. */
  datatype SyncEnv = SyncEnv(address: string, connectOk: bool, timing: Timing, reply: LoginReply, attempts: nat -> Attempt,
                             engine: Engine, writes: nat -> WriteEnv)

  // ----- Rendering -----

  datatype Rendering = Unparsable | Unrenderable | Rendered(texts: map<string, string>)

  function RenderAll(template: map<string, string>, data: SecretData, env: SyncEnv): Rendering {
    if exists name :: name in template && !env.engine.parse(template[name]) then Unparsable
    else if exists name :: name in template && env.engine.render(template[name], data).None? then Unrenderable
    else Rendered(map name | name in template :: env.engine.render(template[name], data).value)
  }

  predicate AllParse(template: map<string, string>, engine: Engine) {
    forall name :: name in template ==> engine.parse(template[name])
  }

  predicate AllRender(template: map<string, string>, data: SecretData, engine: Engine) {
    forall name :: name in template ==> engine.render(template[name], data).Some?
  }

  /** Every text is what the engine makes of the template of its name and the data. */
  ghost predicate Renders(template: map<string, string>, data: SecretData, engine: Engine, texts: map<string, string>) {
    texts.Keys == template.Keys && forall name :: name in texts ==> engine.render(template[name], data) == Some(texts[name])
  }

  lemma RenderAllIff(template: map<string, string>, data: SecretData, env: SyncEnv)
    ensures var r := RenderAll(template, data, env);
      && (r.Unparsable? <==> !AllParse(template, env.engine))
      && (r.Unrenderable? <==> AllParse(template, env.engine) && !AllRender(template, data, env.engine))
      && (r.Rendered? ==> Renders(template, data, env.engine, r.texts) && |r.texts| == |template|)
  {
    var r := RenderAll(template, data, env);
    if r.Rendered? {
      assert r.texts.Keys == template.Keys;
      assert |r.texts| == |r.texts.Keys| && |template| == |template.Keys|;
    }
  }

  /** Parses, then renders, each template in some order; the first failure ends the sync. */
  method RenderTemplates(template: map<string, string>, data: SecretData, env: SyncEnv) returns (r: Rendering)
    ensures r == RenderAll(template, data, env)
  {
    var rest := template.Keys;
    while rest != {}
      invariant rest <= template.Keys
      invariant forall name :: name in template.Keys - rest ==> env.engine.parse(template[name])
    {
      var name :| name in rest;
      if !env.engine.parse(template[name]) { return Unparsable; }
      rest := rest - {name};
    }
    var texts: map<string, string> := map[];
    rest := template.Keys;
    while rest != {}
      invariant rest <= template.Keys && texts.Keys == template.Keys - rest
      invariant forall name :: name in texts ==>
        env.engine.render(template[name], data).Some? && texts[name] == env.engine.render(template[name], data).value
    {
      var name :| name in rest;
      var text := env.engine.render(template[name], data);
      if text.None? { return Unrenderable; }
      texts := texts[name := text.value];
      rest := rest - {name};
    }
    r := Rendered(texts);
  }

  // ----- The files, in order -----

  datatype Delivery = Delivery(fs: Fs, count: nat, err: Option<SyncError>)

  function AttributeError(file: File, i: nat): Option<SyncError> {
    if Guards.ParseMode(file.mode).None? then Some(BadMode(i))
    else if Guards.ParseOwner(file.owner).None? then Some(BadOwner(i))
    else if Guards.ParseOwner(file.group).None? then Some(BadGroup(i))
    else None
  }

  function TextFor(path: string, matched: map<string, string>, texts: map<string, string>): string
    requires path in matched
  {
    if matched[path] in texts then texts[matched[path]] else ""
  }

  function ConfigFor(file: File): FileConfig
    requires AttributeError(file, 0).None?
  {
    FileConfig(file.path, Guards.ParseMode(file.mode).value, Guards.ParseOwner(file.owner).value,
               Guards.ParseOwner(file.group).value)
  }

  ghost function WriteFrom(fs: Fs, files: seq<File>, matched: map<string, string>, texts: map<string, string>,
                           env: SyncEnv, i: nat): Delivery
    requires i <= |files|
    decreases |files| - i
  {
    if i == |files| then Delivery(fs, i, None)
    else if AttributeError(files[i], i).Some? then Delivery(fs, i, AttributeError(files[i], i))
    else if files[i].path !in matched then Delivery(fs, i, Some(NoTemplate(i)))
    else
      var text := TextFor(files[i].path, matched, texts);
      var fs' := AfterWrite(fs, ConfigFor(files[i]), text, env.writes(i));
      if Succeeds(ConfigFor(files[i]), text, env.writes(i)) then WriteFrom(fs', files, matched, texts, env, i + 1)
      else Delivery(fs', i, Some(WriteFailed(i)))
  }

  /** Everything after the fetch. */
  ghost function Deliver(secret: Secret, data: SecretData, env: SyncEnv, fs: Fs): Delivery {
    match RenderAll(secret.template, data, env)
    case Unparsable => Delivery(fs, 0, Some(ParseFailed))
    case Unrenderable => Delivery(fs, 0, Some(RenderFailed))
    case Rendered(texts) =>
      if |texts| != |secret.files| then Delivery(fs, 0, Some(CountMismatch))
      else WriteFrom(fs, secret.files, Matched(secret), texts, env, 0)
  }

  ghost function Matched(secret: Secret): map<string, string> {
    map path | path in MatchedPaths(secret.template.Keys, secret.files) :: Paths.Base(path)
  }

  /** Random suffixes never contain a slash. */
  ghost predicate CleanSuffixes(env: SyncEnv) {
    forall i: nat :: '/' !in env.writes(i).suffix
  }

  ghost predicate Delivers(engine: Engine, secret: Secret, data: SecretData, env: SyncEnv, before: Fs, r: Delivery) {
    env.engine == engine && before.WellFormed() && CleanSuffixes(env) && Deliver(secret, data, env, before) == r
  }

  /** What a sync may report, and the disk it leaves: it failed before it had data, or it delivered. */
  ghost predicate SyncReport(engine: Engine, secret: Secret, err: Option<SyncError>, written: nat, after: Fs) {
    || (err in [Some(NoCredentials), Some(ClientFailed), Some(FetchFailed)] && written == 0)
    || exists data, env, before :: Delivers(engine, secret, data, env, before, Delivery(after, written, err))
  }

  // ----- The syncer -----

  class SecretSyncer {
    var clientPool: map<string, Client>
    const disk: Store
    const retryConfig: RetryConfig
    const maxRequests: nat
    const initialNamespace: string

    constructor (disk: Store, retryConfig: RetryConfig, maxRequests: nat, initialNamespace: string)
      ensures Valid() && clientPool == map[] && this.disk == disk
    {
      clientPool := map[];
      this.disk, this.retryConfig := disk, retryConfig;
      this.maxRequests, this.initialNamespace := maxRequests, initialNamespace;
    }

    /** Each name has its own client. */
    ghost predicate Valid()
      reads this
    {
      && (forall a, b :: a in clientPool && b in clientPool && a != b ==> clientPool[a] != clientPool[b])
      && (forall a :: a in clientPool ==> clientPool[a].maxRequests == maxRequests)
    }

    ghost function View(): Pool
      reads this, clientPool.Values
    {
      map name | name in clientPool :: clientPool[name].Shown()
    }

    /** Whether the client factory would succeed. */
    ghost predicate FactoryOk(creds: CredentialSet, env: SyncEnv)
    {
      env.connectOk && Login(Session(None, "", None, Some(NEW)), maxRequests, creds, env.timing, env.reply).1
    }

    ghost function NewSession(creds: CredentialSet, env: SyncEnv): (s: Session)
      ensures s.config == Some(creds)
    {
      Login(Session(None, "", None, Some(NEW)), maxRequests, creds, env.timing, env.reply).0
    }

    method GetOrCreateClient(credName: string, creds: CredentialSet, env: SyncEnv) returns (client: Client?)
      requires Valid()
      modifies this`clientPool
      ensures Valid()
      ensures client != null ==> credName in clientPool && clientPool[credName] == client
      ensures credName in old(clientPool) ==> client != null && clientPool == old(clientPool)
      ensures credName !in old(clientPool) ==> (client != null <==> FactoryOk(creds, env))
      ensures credName !in old(clientPool) && client != null ==> client.breaker == NewSession(creds, env).breaker
      ensures client == null ==> clientPool == old(clientPool)
      ensures client != null ==> clientPool.Values <= old(clientPool).Values + {client} && (credName !in old(clientPool) ==> fresh(client))
      ensures View() ==
        if credName in old(clientPool) || client == null then old(View())
        else old(View())[credName := Identity(env.address, Some(creds), NewSession(creds, env).token, initialNamespace)]
    {
      if credName in clientPool { return clientPool[credName]; }
      client := CreateClient(env.address, creds, env.connectOk, initialNamespace, maxRequests, env.timing, env.reply);
      if client != null {
        clientPool := clientPool[credName := client];
      }
    }

    /** All reads of one sync, through the client pooled under the given name. */
    method ReadThrough(client: Client, credName: string, secret: Secret, namespace: string, env: SyncEnv)
      returns (fetched: Option<SecretData>, sent: seq<Request>)
      requires Valid() && credName in clientPool && clientPool[credName] == client
      modifies client
      ensures Valid()
      ensures var r := RetryFetch(retryConfig, maxRequests, secret.kvVersion, env.attempts, old(client.breaker));
        fetched == r.data && |sent| == r.calls
      ensures var cached := old(View())[credName];
        var left := cached.(namespace := Sticky(cached.namespace, namespace, |sent| > 0));
        && View() == old(View())[credName := left]
        && forall i :: 0 <= i < |sent| ==>
             sent[i] == Request(left, RequestPath(Location(secret.mountPath, secret.key, secret.kvVersion)))
    {
      var location := Location(secret.mountPath, secret.key, secret.kvVersion);
      var waits;
      fetched, waits, sent := client.FetchSecretWithRetry(location, namespace, retryConfig, env.attempts);
    }

    /** The client is at hand: cached, or the factory delivers one. */
    ghost predicate HasClient(pool: set<string>, store: SecretStore, secret: Secret, env: SyncEnv) {
      var creds := store.GetCredentials(secret.ResolveCredentials());
      creds.Some? && (secret.ResolveCredentials() in pool || FactoryOk(creds.value, env))
    }

    /** The pool event that one sync amounts to. */
    ghost function Event(store: SecretStore, secret: Secret, env: SyncEnv, calls: nat): Sync {
      var use := Use(env.address, store, secret);
      var created := use.Creds().Some? && FactoryOk(use.Creds().value, env);
      Sync(use, if created then Some(NewSession(use.Creds().value, env).token) else None, calls)
    }

    /** The breaker the reads of this sync go through: the cached client's, or a new one after its login. */
    ghost function BreakerFor(store: SecretStore, secret: Secret, env: SyncEnv): Option<Breaker>
      requires HasClient(clientPool.Keys, store, secret, env)
      reads this, clientPool.Values
    {
      var name := secret.ResolveCredentials();
      if name in clientPool then clientPool[name].breaker
      else NewSession(store.GetCredentials(name).value, env).breaker
    }

    /** The first half of a sync: credentials, client, reads. */
    method Obtain(store: SecretStore, secret: Secret, env: SyncEnv)
      returns (err: Option<SyncError>, fetched: Option<SecretData>, sent: seq<Request>)
      requires Valid()
      modifies this`clientPool, clientPool.Values
      ensures Valid()
      ensures !HasClient(old(clientPool).Keys, store, secret, env) ==>
        && err == Some(if store.GetCredentials(secret.ResolveCredentials()).None? then NoCredentials else ClientFailed)
        && fetched == None && sent == []
      ensures HasClient(old(clientPool).Keys, store, secret, env) ==>
        var r := RetryFetch(retryConfig, maxRequests, secret.kvVersion, env.attempts, old(BreakerFor(store, secret, env)));
        fetched == r.data && |sent| == r.calls && err == if r.data.None? then Some(FetchFailed) else None
      ensures var step := SyncPool(initialNamespace, old(View()), Event(store, secret, env, |sent|));
        && View() == step.pool
        && forall i :: 0 <= i < |sent| ==> step.shown == Some(sent[i].client)
      ensures forall i :: 0 <= i < |sent| ==>
        sent[i].path == RequestPath(Location(secret.mountPath, secret.key, secret.kvVersion))
    {
      hide RetryFetch, Login, SyncPool, RequestPath;
      err, fetched, sent := None, None, [];
      ghost var pool := View();
      var credName := secret.ResolveCredentials();
      var creds := store.GetCredentials(credName);
      if creds.None? {
        err := Some(NoCredentials);
        StepWithoutClient(initialNamespace, pool, Event(store, secret, env, 0));
        return;
      }
      var client := GetOrCreateClient(credName, creds.value, env);
      if client == null {
        err := Some(ClientFailed);
        StepWithoutClient(initialNamespace, pool, Event(store, secret, env, 0));
        return;
      }
      ghost var obtained := View();
      fetched, sent := ReadThrough(client, credName, secret, secret.ResolveNamespace(store.namespace), env);
      StepThrough(initialNamespace, pool, Event(store, secret, env, |sent|), obtained);
      err := if fetched.None? then Some(FetchFailed) else None;
    }

    /** Only the first half can leave the disk alone; the second half is the delivery of what was fetched. */
    method SyncSecret(cfg: Config, secret: Secret, env: SyncEnv)
      returns (err: Option<SyncError>, written: nat, fetched: Option<SecretData>, sent: seq<Request>)
      requires Valid()
      modifies this`clientPool, clientPool.Values, disk
      ensures Valid()
      ensures HasClient(old(clientPool).Keys, cfg.store, secret, env) ==>
        var r := RetryFetch(retryConfig, maxRequests, secret.kvVersion, env.attempts, old(BreakerFor(cfg.store, secret, env)));
        fetched == r.data && |sent| == r.calls
      ensures fetched.None? ==>
        && disk.fs == old(disk.fs) && written == 0
        && err == Some(
             if HasClient(old(clientPool).Keys, cfg.store, secret, env) then FetchFailed
             else if cfg.store.GetCredentials(secret.ResolveCredentials()).None? then NoCredentials
             else ClientFailed)
      ensures fetched.Some? ==>
        && HasClient(old(clientPool).Keys, cfg.store, secret, env)
        && Delivery(disk.fs, written, err) == Deliver(secret, fetched.value, env, old(disk.fs))
      ensures old(disk.fs).WellFormed() && CleanSuffixes(env) ==> SyncReport(env.engine, secret, err, written, disk.fs)
      ensures var step := SyncPool(initialNamespace, old(View()), Event(cfg.store, secret, env, |sent|));
        && View() == step.pool
        && forall i :: 0 <= i < |sent| ==> step.shown == Some(sent[i].client)
      ensures forall i :: 0 <= i < |sent| ==>
        sent[i].path == RequestPath(Location(secret.mountPath, secret.key, secret.kvVersion))
    {
      hide RetryFetch, Login, SyncPool, RequestPath;
      written := 0;
      err, fetched, sent := Obtain(cfg.store, secret, env);
      if err.Some? { return; }
      ghost var fs := disk.fs;
      var rendering := RenderTemplates(secret.template, fetched.value, env);
      if rendering.Unparsable? {
        err := Some(ParseFailed);
      } else if rendering.Unrenderable? {
        err := Some(RenderFailed);
      } else if |rendering.texts| != |secret.files| {
        err := Some(CountMismatch);
      } else {
        err, written := WriteFiles(secret, rendering.texts, env);
      }
      assert fs.WellFormed() && CleanSuffixes(env) ==>
        Delivers(env.engine, secret, fetched.value, env, fs, Delivery(disk.fs, written, err));
    }

    method WriteFiles(secret: Secret, texts: map<string, string>, env: SyncEnv)
      returns (err: Option<SyncError>, written: nat)
      modifies disk
      ensures Delivery(disk.fs, written, err) == WriteFrom(old(disk.fs), secret.files, Matched(secret), texts, env, 0)
    {
      var names := Enumerate(secret.template.Keys);
      var fileToTemplate := MatchTemplates(names, secret.files);
      assert fileToTemplate == Matched(secret);
      written := 0;
      while written < |secret.files|
        invariant written <= |secret.files|
        invariant WriteFrom(old(disk.fs), secret.files, fileToTemplate, texts, env, 0)
               == WriteFrom(disk.fs, secret.files, fileToTemplate, texts, env, written)
      {
        var file := secret.files[written];
        var mode := Guards.ParseMode(file.mode);
        if mode.None? { return Some(BadMode(written)), written; }
        var owner := Guards.ParseOwner(file.owner);
        if owner.None? { return Some(BadOwner(written)), written; }
        var group := Guards.ParseOwner(file.group);
        if group.None? { return Some(BadGroup(written)), written; }
        if file.path !in fileToTemplate { return Some(NoTemplate(written)), written; }
        var content := TextFor(file.path, fileToTemplate, texts);
        var ok := disk.WriteFile(FileConfig(file.path, mode.value, owner.value, group.value), content, env.writes(written));
        if !ok { return Some(WriteFailed(written)), written; }
        written := written + 1;
      }
      err := None;
    }
  }

  method Enumerate(names: set<string>) returns (s: seq<string>)
    ensures Elements(s) == names
  {
    s := [];
    var rest := names;
    while rest != {}
      invariant rest <= names && Elements(s) == names - rest
    {
      var name :| name in rest;
      assert Elements(s + [name]) == Elements(s) + {name};
      s, rest := s + [name], rest - {name};
    }
  }

  // ----- Consequences -----

  ghost predicate NoTempTargets(files: seq<File>) {
    forall i :: 0 <= i < |files| ==> !Paths.IsTemp(files[i].path)
  }

  /** The file holds the rendering, with the fetched data, of the template with its base name. */
  ghost predicate Holds(fs: Fs, file: File, template: map<string, string>, data: SecretData, engine: Engine) {
    var name := Paths.Base(file.path);
    name in template && fs.Content(file.path).Some? && engine.render(template[name], data) == fs.Content(file.path)
  }

  /** Files before the returned count hold their new text, all others and every unrelated target are untouched. */
  ghost predicate PrefixWritten(before: Fs, r: Delivery, files: seq<File>, template: map<string, string>,
                                data: SecretData, engine: Engine, from: nat)
  {
    && from <= r.count <= |files| && r.fs.WellFormed()
    && (r.err.None? <==> r.count == |files|)
    && (forall i :: from <= i < r.count ==> Holds(r.fs, files[i], template, data, engine))
    && (forall p :: !Paths.IsTemp(p) && p !in PathsOf(files)[from..r.count] ==> r.fs.Content(p) == before.Content(p))
  }

  lemma PrefixGrows(fs: Fs, fs': Fs, r: Delivery, files: seq<File>, template: map<string, string>,
                    data: SecretData, engine: Engine, i: nat)
    requires i < |files| && Distinct(PathsOf(files)) && NoTempTargets(files)
    requires Holds(fs', files[i], template, data, engine)
    requires forall p :: !Paths.IsTemp(p) && p != files[i].path ==> fs'.Content(p) == fs.Content(p)
    requires PrefixWritten(fs', r, files, template, data, engine, i + 1)
    ensures PrefixWritten(fs, r, files, template, data, engine, i)
  {
    var paths := PathsOf(files);
    assert paths[i..r.count] == [paths[i]] + paths[i + 1..r.count];
    assert paths[i] !in paths[i + 1..r.count];
    assert Holds(r.fs, files[i], template, data, engine);
  }

  lemma MatchedText(secret: Secret, texts: map<string, string>, path: string)
    requires path in Matched(secret) && texts.Keys == secret.template.Keys
    ensures Paths.Base(path) in texts && TextFor(path, Matched(secret), texts) == texts[Paths.Base(path)]
  {
  }

  lemma PrefixEnds(fs: Fs, r: Delivery, files: seq<File>, template: map<string, string>, data: SecretData, engine: Engine)
    requires r.count <= |files| && r.fs.WellFormed() && (r.err.None? <==> r.count == |files|)
    requires forall p :: !Paths.IsTemp(p) ==> r.fs.Content(p) == fs.Content(p)
    ensures PrefixWritten(fs, r, files, template, data, engine, r.count)
  {
  }

  lemma {:induction false} WriteFromIsPrefix(fs: Fs, secret: Secret, data: SecretData, texts: map<string, string>,
                                             env: SyncEnv, i: nat)
    requires fs.WellFormed() && CleanSuffixes(env) && NoTempTargets(secret.files)
    requires Distinct(PathsOf(secret.files)) && Renders(secret.template, data, env.engine, texts) && i <= |secret.files|
    ensures PrefixWritten(fs, WriteFrom(fs, secret.files, Matched(secret), texts, env, i), secret.files, secret.template,
                          data, env.engine, i)
    decreases |secret.files| - i
  {
    hide AfterWrite, Succeeds, PrefixWritten, Matched, TextFor, ConfigFor, Paths.IsTemp;
    var files, matched, template, engine := secret.files, Matched(secret), secret.template, env.engine;
    var r := WriteFrom(fs, files, matched, texts, env, i);
    if i == |files| || AttributeError(files[i], i).Some? || files[i].path !in matched {
      PrefixEnds(fs, r, files, template, data, engine);
    } else {
      var config, text := ConfigFor(files[i]), TextFor(files[i].path, matched, texts);
      var fs' := AfterWrite(fs, config, text, env.writes(i));
      MatchedText(secret, texts, files[i].path);
      WriteAsTargetsSeeIt(fs, config, text, env.writes(i));
      ConfigPath(files[i]);
      if Succeeds(config, text, env.writes(i)) {
        WriteFromIsPrefix(fs', secret, data, texts, env, i + 1);
        PrefixGrows(fs, fs', r, files, template, data, engine, i);
      } else {
        PrefixEnds(fs, r, files, template, data, engine);
      }
    }
  }

  lemma ConfigPath(file: File)
    requires AttributeError(file, 0).None?
    ensures ConfigFor(file).path == file.path
  {
  }

  /** What a delivery does, from its inputs: without rendered templates, one for each file, it writes nothing and says
      why; otherwise it has written the files before some index and nothing else, each with the rendering, with the
      fetched data, of the template of its base name. */
  lemma DeliveryIsPrefix(secret: Secret, data: SecretData, env: SyncEnv, fs: Fs)
    requires fs.WellFormed() && CleanSuffixes(env) && NoTempTargets(secret.files) && Distinct(PathsOf(secret.files))
    ensures var r := Deliver(secret, data, env, fs);
      if !AllParse(secret.template, env.engine) then r == Delivery(fs, 0, Some(ParseFailed))
      else if !AllRender(secret.template, data, env.engine) then r == Delivery(fs, 0, Some(RenderFailed))
      else if |secret.template| != |secret.files| then r == Delivery(fs, 0, Some(CountMismatch))
      else PrefixWritten(fs, r, secret.files, secret.template, data, env.engine, 0)
  {
    hide PrefixWritten, WriteFrom, Renders;
    RenderAllIff(secret.template, data, env);
    var rendering := RenderAll(secret.template, data, env);
    if rendering.Rendered? && |rendering.texts| == |secret.files| {
      WriteFromIsPrefix(fs, secret, data, rendering.texts, env, 0);
    }
  }

  lemma {:induction false} NoTemplateMeansUnmatched(fs: Fs, files: seq<File>, matched: map<string, string>,
                                                    texts: map<string, string>, env: SyncEnv, i: nat)
    requires i <= |files|
    ensures var r := WriteFrom(fs, files, matched, texts, env, i);
      && i <= r.count <= |files| && (r.err.None? ==> r.count == |files|)
      && (r.err.None? ==> forall k :: i <= k < |files| ==> files[k].path in matched)
      && (r.err.Some? && r.err.value.NoTemplate? ==> r.count < |files| && files[r.count].path !in matched)
    decreases |files| - i
  {
    hide AfterWrite, Succeeds;
    if i < |files| && AttributeError(files[i], i).None? && files[i].path in matched {
      var text := TextFor(files[i].path, matched, texts);
      NoTemplateMeansUnmatched(AfterWrite(fs, ConfigFor(files[i]), text, env.writes(i)), files, matched, texts, env, i + 1);
    }
  }

  ghost predicate Passes(files: seq<File>, matched: map<string, string>, texts: map<string, string>, env: SyncEnv, k: nat)
    requires k < |files|
  {
    && AttributeError(files[k], k).None? && files[k].path in matched
    && Succeeds(ConfigFor(files[k]), TextFor(files[k].path, matched, texts), env.writes(k))
  }

  lemma {:induction false} WriteFromStops(fs: Fs, files: seq<File>, matched: map<string, string>,
                                          texts: map<string, string>, env: SyncEnv, i: nat)
    requires i <= |files|
    ensures var r := WriteFrom(fs, files, matched, texts, env, i);
      && i <= r.count <= |files| && (r.err.None? <==> r.count == |files|)
      && (forall k :: i <= k < r.count ==> Passes(files, matched, texts, env, k))
      && (r.count < |files| ==>
            && !Passes(files, matched, texts, env, r.count)
            && r.err == if AttributeError(files[r.count], r.count).Some? then AttributeError(files[r.count], r.count)
                        else Some(if files[r.count].path !in matched then NoTemplate(r.count) else WriteFailed(r.count)))
    decreases |files| - i
  {
    hide AfterWrite, Succeeds, TextFor;
    if i < |files| && Passes(files, matched, texts, env, i) {
      var text := TextFor(files[i].path, matched, texts);
      WriteFromStops(AfterWrite(fs, ConfigFor(files[i]), text, env.writes(i)), files, matched, texts, env, i + 1);
    }
  }

  /** No earlier file has the base name, and there is a template for it. */
  predicate Served(secret: Secret, k: nat)
    requires k < |secret.files|
  {
    && Paths.Base(secret.files[k].path) in secret.template
    && forall j :: 0 <= j < k ==> Paths.Base(secret.files[j].path) != Paths.Base(secret.files[k].path)
  }

  /** Why file k stops a delivery whose templates all render, in the order of the checks. */
  ghost function Obstacle(secret: Secret, data: SecretData, env: SyncEnv, k: nat): Option<SyncError>
    requires k < |secret.files| && AllRender(secret.template, data, env.engine)
  {
    var file := secret.files[k];
    var mode, owner, group := Guards.ParseMode(file.mode), Guards.ParseOwner(file.owner), Guards.ParseOwner(file.group);
    if mode.None? then Some(BadMode(k))
    else if owner.None? then Some(BadOwner(k))
    else if group.None? then Some(BadGroup(k))
    else if !Served(secret, k) then Some(NoTemplate(k))
    else
      var text := env.engine.render(secret.template[Paths.Base(file.path)], data).value;
      if Succeeds(FileConfig(file.path, mode.value, owner.value, group.value), text, env.writes(k)) then None
      else Some(WriteFailed(k))
  }

  lemma ServedIff(secret: Secret, k: nat)
    requires Distinct(PathsOf(secret.files)) && k < |secret.files|
    ensures secret.files[k].path in Matched(secret) <==> Served(secret, k)
  {
    MatchedIff(secret.template.Keys, secret.files, k);
  }

  lemma TextIs(secret: Secret, data: SecretData, engine: Engine, texts: map<string, string>, path: string)
    requires path in Matched(secret) && Renders(secret.template, data, engine, texts)
    ensures Paths.Base(path) in secret.template
    ensures engine.render(secret.template[Paths.Base(path)], data) == Some(TextFor(path, Matched(secret), texts))
  {
    MatchedText(secret, texts, path);
  }

  lemma ObstacleIs(secret: Secret, data: SecretData, env: SyncEnv, texts: map<string, string>, k: nat)
    requires Distinct(PathsOf(secret.files)) && k < |secret.files| && AllRender(secret.template, data, env.engine)
    requires Renders(secret.template, data, env.engine, texts)
    ensures Obstacle(secret, data, env, k) ==
      if Passes(secret.files, Matched(secret), texts, env, k) then None
      else if AttributeError(secret.files[k], k).Some? then AttributeError(secret.files[k], k)
      else Some(if secret.files[k].path !in Matched(secret) then NoTemplate(k) else WriteFailed(k))
  {
    hide Succeeds, Guards.ParseMode, Guards.ParseOwner, Matched, Renders, TextFor;
    ServedIff(secret, k);
    if Served(secret, k) { TextIs(secret, data, env.engine, texts, secret.files[k].path); }
  }

  /** A delivery stops at the first file with an obstacle, and with its error. */
  lemma DeliveryStopsAtFirstObstacle(secret: Secret, data: SecretData, env: SyncEnv, fs: Fs)
    requires Distinct(PathsOf(secret.files)) && |secret.template| == |secret.files|
    requires AllParse(secret.template, env.engine) && AllRender(secret.template, data, env.engine)
    ensures var r := Deliver(secret, data, env, fs);
      && r.count <= |secret.files|
      && (forall k :: 0 <= k < r.count ==> Obstacle(secret, data, env, k) == None)
      && r.err == (if r.count < |secret.files| then Obstacle(secret, data, env, r.count) else None)
      && (r.err.None? <==> r.count == |secret.files|)
  {
    hide WriteFrom, Passes, Obstacle, Renders, Matched, AttributeError;
    RenderAllIff(secret.template, data, env);
    var texts := RenderAll(secret.template, data, env).texts;
    WriteFromStops(fs, secret.files, Matched(secret), texts, env, 0);
    forall k | 0 <= k < |secret.files| { ObstacleIs(secret, data, env, texts, k); }
  }

  /** Owner, group and mode reach the write as the numbers that are spelled in the configuration. */
  lemma AttributesReachTheWrite(path: string, high: nat, u: nat, g: nat, o: nat, owner: nat, group: nat)
    requires u < 8 && g < 8 && o < 8 && owner < 0x8000_0000_0000_0000 && group < 0x8000_0000_0000_0000
    requires Guards.ParseMode(Guards.Numeral(512 * high + (64 * u + 8 * g + o), 8)).Some?
    ensures var m := 512 * high + (64 * u + 8 * g + o);
      var file := File(path, Guards.Numeral(m, 8), Guards.Numeral(owner, 10), Guards.Numeral(group, 10));
      && AttributeError(file, 0).None? && ConfigFor(file) == FileConfig(path, m, owner, group)
      && ConfigFor(file.(owner := "", group := "")) == FileConfig(path, m, -1, -1)
  {
    hide Guards.ParseMode, Guards.ParseOwner, Guards.Numeral;
    Guards.ModeOfNumeral(high, u, g, o);
    Guards.OwnerOfNumeral(owner);
    Guards.OwnerOfNumeral(group);
  }

  /** A credential set is accepted by validation exactly when some login with it can succeed. */
  lemma AcceptedCredentialsCanLogIn(creds: CredentialSet, maxRequests: nat)
    ensures Validation.CredentialsAccepted(creds) <==>
      exists timing, reply :: Login(Session(None, "", None, Some(NEW)), maxRequests, creds, timing, reply).1
  {
    hide Login;
    var noLogin := Session(None, "", None, Some(NEW));
    var good := LoginOk(AuthSecret("t", true, 1));
    LoginIff(noLogin, maxRequests, creds, Timing(false, false), good);
    forall timing, reply { LoginIff(noLogin, maxRequests, creds, timing, reply); }
  }

  lemma DeliveryNeedsCompleteMatching(secret: Secret, data: SecretData, env: SyncEnv, fs: Fs)
    ensures var e := Deliver(secret, data, env, fs).err;
      && (e.None? ==> Complete(secret.template.Keys, secret.files))
      && (e.Some? && e.value.NoTemplate? ==> !Complete(secret.template.Keys, secret.files))
  {
    match RenderAll(secret.template, data, env)
    case Rendered(texts) => NoTemplateMeansUnmatched(fs, secret.files, Matched(secret), texts, env, 0);
    case _ =>
  }

  ghost predicate NamesMatch(secret: Secret) {
    Distinct(Bases(secret.files)) && Elements(Bases(secret.files)) == secret.template.Keys
  }

  /** With distinct paths a sync can deliver only if the base names are distinct and are the template names; then
      every template serves exactly one file, and no file is ever without one. */
  lemma DeliveryNeedsMatchingNames(secret: Secret, data: SecretData, env: SyncEnv, fs: Fs)
    requires Distinct(PathsOf(secret.files)) && |secret.template| == |secret.files|
    ensures var e := Deliver(secret, data, env, fs).err;
      && (e.None? ==> NamesMatch(secret) && forall n :: n in secret.template.Keys ==> ServesOneFile(secret.files, n))
      && (e.Some? && e.value.NoTemplate? ==> !NamesMatch(secret))
  {
    var names := secret.template.Keys;
    assert |names| == |secret.files|;
    MatchingIsComplete(names, secret.files);
    DeliveryNeedsCompleteMatching(secret, data, env, fs);
  }

  lemma {:induction false} GoodAttributes(fs: Fs, files: seq<File>, matched: map<string, string>, texts: map<string, string>,
                                          env: SyncEnv, i: nat)
    requires i <= |files| && forall k :: i <= k < |files| ==> AttributeError(files[k], k).None?
    ensures var e := WriteFrom(fs, files, matched, texts, env, i).err;
      e.Some? ==> e.value.NoTemplate? || e.value.WriteFailed?
    decreases |files| - i
  {
    if i < |files| && files[i].path in matched {
      var text := TextFor(files[i].path, matched, texts);
      GoodAttributes(AfterWrite(fs, ConfigFor(files[i]), text, env.writes(i)), files, matched, texts, env, i + 1);
    }
  }

  /** A validated secret never fails on missing credentials, on the count check, or on mode, owner or group; what may
      still fail for good is matching and the path check at write time. */
  lemma ValidatedSecretsPassConfigChecks(venv: Validation.Env, cfg: Config, i: nat, data: SecretData, env: SyncEnv, fs: Fs)
    requires Validation.Accepts(venv, cfg) && i < |cfg.secrets|
    ensures var secret := Validation.Normalised(venv, cfg).secrets[i];
      var e := Deliver(secret, data, env, fs).err;
      && cfg.store.GetCredentials(secret.ResolveCredentials()).Some?
      && (e.Some? ==> e.value.ParseFailed? || e.value.RenderFailed? || e.value.NoTemplate? || e.value.WriteFailed?)
  {
    var secret := Validation.Normalised(venv, cfg).secrets[i];
    assert Validation.SecretOk(venv, cfg.store, cfg.secrets[i]);
    var rendering := RenderAll(secret.template, data, env);
    forall k | 0 <= k < |secret.files| ensures AttributeError(secret.files[k], k).None? {
      assert Validation.FileOk(venv, cfg.secrets[i].files[k]);
      assert secret.files[k] == Validation.Normal(venv, cfg.secrets[i].files[k]);
    }
    if rendering.Rendered? {
      RenderAllIff(secret.template, data, env);
      GoodAttributes(fs, secret.files, Matched(secret), rendering.texts, env, 0);
    }
  }

  // ----- Which secrets can be delivered at all -----

  ghost predicate Deliverable(secret: Secret) {
    && |secret.template| == |secret.files|
    && Complete(secret.template.Keys, secret.files)
    && forall i :: 0 <= i < |secret.files| ==>
         AttributeError(secret.files[i], i).None? && Guards.ValidatePath(secret.files[i].path).PathOk?
  }

  /** Every text that goes into a file is within the size limit. */
  ghost predicate Fits(secret: Secret, texts: map<string, string>) {
    forall i :: 0 <= i < |secret.files| && secret.files[i].path in Matched(secret) ==>
      |TextFor(secret.files[i].path, Matched(secret), texts)| <= 1048576
  }

  lemma {:induction false} WrittenPassTheChecks(fs: Fs, files: seq<File>, matched: map<string, string>,
                                                texts: map<string, string>, env: SyncEnv, i: nat)
    requires i <= |files| && WriteFrom(fs, files, matched, texts, env, i).err.None?
    ensures forall k :: i <= k < |files| ==>
      && AttributeError(files[k], k).None? && Guards.ValidatePath(files[k].path).PathOk? && files[k].path in matched
      && |TextFor(files[k].path, matched, texts)| <= 1048576
    decreases |files| - i
  {
    hide AfterWrite, Guards.ValidatePath, TextFor;
    if i < |files| {
      var text := TextFor(files[i].path, matched, texts);
      ConfigPath(files[i]);
      assert PassesGuards(ConfigFor(files[i]), text, env.writes(i).kind);
      WrittenPassTheChecks(AfterWrite(fs, ConfigFor(files[i]), text, env.writes(i)), files, matched, texts, env, i + 1);
    }
  }

  /** Every system call succeeds. */
  ghost function Benign(engine: Engine): SyncEnv {
    SyncEnv("", true, Timing(false, false), LoginFailed, i => Attempt(false, Timing(false, false), ReadError), engine,
            i => WriteEnv(Guards.Regular, true, "", true, 0, true, true, true, true))
  }

  /** The engine that renders everything to nothing. */
  const BLANK := Engine(source => true, (source, data) => Some(""))

  lemma CompleteMatches(secret: Secret, i: nat)
    requires Complete(secret.template.Keys, secret.files) && i < |secret.files|
    ensures secret.files[i].path in Matched(secret)
  {
  }

  lemma {:induction false} BenignWritesAll(engine: Engine, fs: Fs, secret: Secret, texts: map<string, string>, i: nat)
    requires Deliverable(secret) && i <= |secret.files|
    requires Fits(secret, texts)
    ensures WriteFrom(fs, secret.files, Matched(secret), texts, Benign(engine), i).err.None?
    decreases |secret.files| - i
  {
    hide AfterWrite, Matched, Complete, ConfigFor, TextFor;
    if i < |secret.files| {
      var file := secret.files[i];
      CompleteMatches(secret, i);
      var text := TextFor(file.path, Matched(secret), texts);
      ConfigPath(file);
      BenignWritesAll(engine, AfterWrite(fs, ConfigFor(file), text, Benign(engine).writes(i)), secret, texts, i + 1);
    }
  }

  /** The templates parse, and with these data they render to texts within the size limit. */
  ghost predicate RendersWith(engine: Engine, secret: Secret, data: SecretData) {
    && AllParse(secret.template, engine) && AllRender(secret.template, data, engine)
    && forall i :: 0 <= i < |secret.files| && Paths.Base(secret.files[i].path) in secret.template ==>
         |engine.render(secret.template[Paths.Base(secret.files[i].path)], data).value| <= 1048576
  }

  lemma RendersWithIff(secret: Secret, data: SecretData, engine: Engine, texts: map<string, string>)
    requires Renders(secret.template, data, engine, texts) && AllParse(secret.template, engine)
    requires Complete(secret.template.Keys, secret.files)
    ensures Fits(secret, texts) <==> RendersWith(engine, secret, data)
  {
    forall i | 0 <= i < |secret.files|
      ensures secret.files[i].path in Matched(secret) && Paths.Base(secret.files[i].path) in secret.template
      ensures Some(TextFor(secret.files[i].path, Matched(secret), texts))
              == engine.render(secret.template[Paths.Base(secret.files[i].path)], data)
    {
      CompleteMatches(secret, i);
      TextIs(secret, data, engine, texts, secret.files[i].path);
    }
  }

  lemma DeliveredIsDeliverable(secret: Secret, data: SecretData, env: SyncEnv, fs: Fs)
    requires Deliver(secret, data, env, fs).err.None?
    ensures Deliverable(secret) && RendersWith(env.engine, secret, data)
  {
    hide WriteFrom, RenderAll, TextFor, RendersWith, Renders;
    RenderAllIff(secret.template, data, env);
    var texts := RenderAll(secret.template, data, env).texts;
    WrittenPassTheChecks(fs, secret.files, Matched(secret), texts, env, 0);
    assert Complete(secret.template.Keys, secret.files);
    RendersWithIff(secret, data, env.engine, texts);
  }

  lemma DeliverableDelivers(engine: Engine, secret: Secret, data: SecretData, fs: Fs)
    requires Deliverable(secret) && RendersWith(engine, secret, data)
    ensures Deliver(secret, data, Benign(engine), fs).err.None?
  {
    hide WriteFrom, Fits, Renders;
    RenderAllIff(secret.template, data, Benign(engine));
    var texts := RenderAll(secret.template, data, Benign(engine)).texts;
    RendersWithIff(secret, data, engine, texts);
    BenignWritesAll(engine, fs, secret, texts, 0);
  }

  /** Some delivery of a secret succeeds exactly when it is deliverable. */
  lemma DeliverableIff(secret: Secret)
    ensures (exists data, env, fs :: Deliver(secret, data, env, fs).err.None?) <==> Deliverable(secret)
  {
    hide Deliver, Deliverable;
    if data, env, fs :| Deliver(secret, data, env, fs).err.None? {
      DeliveredIsDeliverable(secret, data, env, fs);
    }
    if Deliverable(secret) {
      assert RendersWith(BLANK, secret, map[]);
      DeliverableDelivers(BLANK, secret, map[], Fs(map[], map[], 0));
    }
  }

  /** An accepted secret with distinct paths can be delivered at all exactly when its base names are distinct and are
      its template names, and no path is over-long or contains two adjacent dots. */
  lemma AcceptedSecretIsDeliverableIff(venv: Validation.Env, cfg: Config, i: nat)
    requires Validation.Accepts(venv, cfg) && i < |cfg.secrets|
    requires Distinct(PathsOf(Validation.Normalised(venv, cfg).secrets[i].files))
    ensures var secret := Validation.Normalised(venv, cfg).secrets[i];
      (exists data, env, fs :: Deliver(secret, data, env, fs).err.None?) <==>
        && NamesMatch(secret)
        && forall k :: 0 <= k < |secret.files| ==>
             |secret.files[k].path| <= Guards.MAX_PATH_LEN && !Guards.Contains(secret.files[k].path, "..")
  {
    hide Deliver, Validation.FileOk, Validation.Normal, AttributeError, Guards.ValidatePath, Guards.Contains, Complete, NamesMatch;
    var secret := Validation.Normalised(venv, cfg).secrets[i];
    assert Validation.SecretOk(venv, cfg.store, cfg.secrets[i]);
    DeliverableIff(secret);
    CompleteIffNamesMatch(secret);
    forall k | 0 <= k < |secret.files|
      ensures AttributeError(secret.files[k], k).None?
      ensures Guards.ValidatePath(secret.files[k].path).PathOk? <==>
        |secret.files[k].path| <= Guards.MAX_PATH_LEN && !Guards.Contains(secret.files[k].path, "..")
    {
      AcceptedFileChecks(venv, cfg.secrets[i].files[k], k);
    }
  }

  lemma CompleteIffNamesMatch(secret: Secret)
    requires Distinct(PathsOf(secret.files)) && |secret.template| == |secret.files|
    ensures Complete(secret.template.Keys, secret.files) <==> NamesMatch(secret)
  {
    assert |secret.template.Keys| == |secret.files|;
    MatchingIsComplete(secret.template.Keys, secret.files);
  }

  lemma AcceptedFileChecks(venv: Validation.Env, file: File, k: nat)
    requires Validation.FileOk(venv, file)
    ensures var normal := Validation.Normal(venv, file);
      && AttributeError(normal, k).None?
      && (Guards.ValidatePath(normal.path).PathOk? <==>
            |normal.path| <= Guards.MAX_PATH_LEN && !Guards.Contains(normal.path, ".."))
  {
    Validation.AcceptedPathAtWriteTime(venv, file.path);
  }

  ghost predicate CanSucceed(engine: Engine, secret: Secret) {
    exists written, after :: SyncReport(engine, secret, None, written, after)
  }

  /** With a given engine: if moreover its templates render, within the size limit, with some data. */
  lemma CanSucceedIff(engine: Engine, secret: Secret)
    ensures CanSucceed(engine, secret) <==> Deliverable(secret) && exists data :: RendersWith(engine, secret, data)
  {
    hide Deliver, Deliverable, RendersWith;
    if written, after :| SyncReport(engine, secret, None, written, after) {
      var data, env, before :| Delivers(engine, secret, data, env, before, Delivery(after, written, None));
      DeliveredIsDeliverable(secret, data, env, before);
    }
    if Deliverable(secret) && exists data :: RendersWith(engine, secret, data) {
      var data :| RendersWith(engine, secret, data);
      var fs := Fs(map[], map[], 0);
      DeliverableDelivers(engine, secret, data, fs);
      var r := Deliver(secret, data, Benign(engine), fs);
      assert Delivers(engine, secret, data, Benign(engine), fs, Delivery(r.fs, r.count, None));
      assert SyncReport(engine, secret, None, r.count, r.fs);
    }
  }

  ghost predicate AllHold(fs: Fs, secret: Secret, data: SecretData, engine: Engine) {
    forall i :: 0 <= i < |secret.files| ==> Holds(fs, secret.files[i], secret.template, data, engine)
  }

  /** A successful sync leaves a disk on which every file of its secret holds its rendering of the data one fetch gave. */
  lemma SuccessMeansAllHold(engine: Engine, secret: Secret, written: nat, after: Fs)
    requires SyncReport(engine, secret, None, written, after)
    requires NoTempTargets(secret.files) && Distinct(PathsOf(secret.files))
    ensures written == |secret.files| && exists data :: AllHold(after, secret, data, engine)
  {
    var data, env, before :| Delivers(engine, secret, data, env, before, Delivery(after, written, None));
    DeliveryIsPrefix(secret, data, env, before);
    assert AllHold(after, secret, data, engine);
  }
}
