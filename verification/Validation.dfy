/** Configuration validation: what it accepts, what it rewrites, and what that guarantees later. */
module Validation {
  import opened Options
  import opened Config
  import Paths
  import Guards

  /** What validation asks the system: the working directory, and whether the address and the TLS files are usable. */
  datatype Env = Env(cwd: Option<string>, addressOk: bool, tlsOk: bool)

  const MIN_REFRESH := 30 * 1_000_000_000
  const MAX_SECRETS := 100

  // ----- Specification on values -----

  predicate AuthOk(creds: CredentialSet) {
    || (creds.authMethod == "token" && creds.token != "")
    || (creds.authMethod == "approle" && creds.roleId != "" && creds.secretId != "")
  }

  predicate StoreOk(env: Env, store: SecretStore) {
    && store.address != "" && env.addressOk
    && AuthOk(store.GetDefaultCredentials())
    && (forall name :: name in store.credentials ==> name != "" && AuthOk(store.credentials[name]))
    && env.tlsOk
  }

  /** The path a file gets: absolute and clean, or nothing if it cannot be made so. */
  function NormalPath(env: Env, path: string): Option<string> {
    if path == "" then None
    else
      var abs := Paths.Abs(env.cwd, path);
      if abs.None? then None
      else
        var clean := Paths.Clean(abs.value);
        if clean == "" then None
        else
          var again := Paths.Abs(env.cwd, clean);
          if again.None? || !Paths.IsAbs(Paths.Clean(again.value)) then None else Some(clean)
  }

  predicate FileOk(env: Env, file: File) {
    && NormalPath(env, file.path).Some?
    && Guards.ParseMode(if file.mode == "" then "0600" else file.mode).Some?
    && (file.owner != "" ==> Guards.ParseOwner(file.owner).Some?)
    && (file.group != "" ==> Guards.ParseOwner(file.group).Some?)
  }

  function Normal(env: Env, file: File): File
    requires FileOk(env, file)
  {
    file.(path := NormalPath(env, file.path).value, mode := if file.mode == "" then "0600" else file.mode)
  }

  predicate FilesOk(env: Env, files: seq<File>) {
    forall i :: 0 <= i < |files| ==> FileOk(env, files[i])
  }

  function NormalFiles(env: Env, files: seq<File>): (r: seq<File>)
    requires FilesOk(env, files)
  {
    seq(|files|, i requires 0 <= i < |files| => Normal(env, files[i]))
  }

  predicate FieldsOk<F>(store: SecretStore, secret: SecretOf<F>, fileCount: nat) {
    && secret.name != "" && secret.key != "" && secret.mountPath != ""
    && (secret.credentials != "" ==> secret.credentials in store.credentials)
    && (secret.kvVersion == "v1" || secret.kvVersion == "v2")
    && secret.refreshInterval >= MIN_REFRESH
    && |secret.template| == fileCount > 0
  }

  predicate SecretOk(env: Env, store: SecretStore, secret: Secret) {
    FieldsOk(store, secret, |secret.files|) && FilesOk(env, secret.files)
  }

  predicate SecretsOk(env: Env, store: SecretStore, secrets: seq<Secret>) {
    forall i :: 0 <= i < |secrets| ==> SecretOk(env, store, secrets[i])
  }

  function NormalSecrets(env: Env, store: SecretStore, secrets: seq<Secret>): seq<Secret>
    requires SecretsOk(env, store, secrets)
  {
    seq(|secrets|, i requires 0 <= i < |secrets| => secrets[i].(files := NormalFiles(env, secrets[i].files)))
  }

  predicate Accepts(env: Env, cfg: Config) {
    && StoreOk(env, cfg.store)
    && 0 < |cfg.secrets| <= MAX_SECRETS
    && Distinct(AllPaths(cfg.secrets))
    && SecretsOk(env, cfg.store, cfg.secrets)
  }

  function Normalised(env: Env, cfg: Config): (r: Config)
    requires Accepts(env, cfg)
  {
    cfg.(secrets := NormalSecrets(env, cfg.store, cfg.secrets))
  }

  // ----- The validator, rewriting files through slices it shares with the configuration -----

  type LoadedSecret = SecretOf<array<File>>
  type LoadedConfig = ConfigOf<array<File>>

  ghost function SecretView(secret: LoadedSecret): Secret
    reads secret.files
  {
    Secret(secret.name, secret.key, secret.mountPath, secret.namespace, secret.credentials, secret.kvVersion,
           secret.refreshInterval, secret.template, secret.files[..])
  }

  ghost function SecretsView(secrets: seq<LoadedSecret>): (r: seq<Secret>)
    reads FilesArrays(secrets)
    ensures |r| == |secrets| && forall i :: 0 <= i < |secrets| ==> r[i] == SecretView(secrets[i])
  {
    seq(|secrets|, i requires 0 <= i < |secrets| reads FilesArrays(secrets) => SecretView(secrets[i]))
  }

  ghost function FilesArrays(secrets: seq<LoadedSecret>): set<array<File>> {
    set i | 0 <= i < |secrets| :: secrets[i].files
  }

  /** Decoding gives every secret its own slice of files. */
  ghost predicate Separate(secrets: seq<LoadedSecret>) {
    forall i, j :: 0 <= i < j < |secrets| ==> secrets[i].files != secrets[j].files
  }

  lemma AllPathsOfMore(secrets: seq<Secret>, i: nat)
    requires i < |secrets|
    ensures AllPaths(secrets[..i + 1]) == AllPaths(secrets[..i]) + PathsOf(secrets[i].files)
  {
    assert secrets[..i + 1][..i] == secrets[..i];
  }

  lemma {:induction false} AllPathsPrefix(secrets: seq<Secret>, i: nat)
    requires i <= |secrets|
    ensures AllPaths(secrets[..i]) <= AllPaths(secrets)
    ensures Distinct(AllPaths(secrets)) ==> Distinct(AllPaths(secrets[..i]))
    decreases |secrets| - i
  {
    if i < |secrets| {
      AllPathsOfMore(secrets, i);
      AllPathsPrefix(secrets, i + 1);
    } else {
      assert secrets[..i] == secrets;
    }
  }

  /** The inner loop: records the paths of one secret, and stops at the first one already recorded. */
  method RecordPaths(files: array<File>, name: string, recorded: map<string, string>, ghost earlier: seq<string>)
    returns (ok: bool, pathToSecret: map<string, string>)
    requires Distinct(earlier) && forall p :: p in recorded <==> p in earlier
    ensures ok <==> Distinct(earlier + PathsOf(files[..]))
    ensures ok ==> forall p :: p in pathToSecret <==> p in earlier + PathsOf(files[..])
  {
    pathToSecret := recorded;
    ghost var own := PathsOf(files[..]);
    for j := 0 to files.Length
      invariant Distinct(earlier + own[..j])
      invariant forall p :: p in pathToSecret <==> p in earlier + own[..j]
    {
      var path := files[j].path;
      assert earlier + own[..j + 1] == earlier + own[..j] + [path];
      if path in pathToSecret {
        ghost var k :| 0 <= k < |earlier + own[..j]| && (earlier + own[..j])[k] == path;
        assert (earlier + own)[k] == (earlier + own)[|earlier| + j];
        return false, pathToSecret;
      }
      pathToSecret := pathToSecret[path := name];
    }
    assert own[..|own|] == own;
    ok := true;
  }

  method ValidateNoDuplicatePaths(secrets: seq<LoadedSecret>) returns (ok: bool)
    ensures ok <==> Distinct(AllPaths(SecretsView(secrets)))
  {
    ghost var view := SecretsView(secrets);
    var pathToSecret: map<string, string> := map[];
    for i := 0 to |secrets|
      invariant Distinct(AllPaths(view[..i]))
      invariant forall p :: p in pathToSecret <==> p in AllPaths(view[..i])
    {
      AllPathsOfMore(view, i);
      AllPathsPrefix(view, i + 1);
      ok, pathToSecret := RecordPaths(secrets[i].files, secrets[i].name, pathToSecret, AllPaths(view[..i]));
      if !ok {
        assert !Distinct(AllPaths(view[..i + 1]));
        assert !Distinct(AllPaths(view));
        assert view == SecretsView(secrets);
        return;
      }
    }
    assert view[..|secrets|] == view;
    assert Distinct(AllPaths(view));
    ok := true;
    assert view == SecretsView(secrets);
  }

  /** Rewrites one array element: an absolute clean path, and the default mode. */
  method ValidateFile(env: Env, files: array<File>, i: nat) returns (ok: bool)
    requires i < files.Length
    modifies files
    ensures ok <==> FileOk(env, old(files[i]))
    ensures ok ==> files[..] == old(files[..])[i := Normal(env, old(files[i]))]
    ensures forall k :: 0 <= k < files.Length && k != i ==> files[k] == old(files[k])
  {
    if files[i].path == "" { return false; }
    var abs := Paths.Abs(env.cwd, files[i].path);
    if abs.None? { return false; }
    files[i] := files[i].(path := Paths.Clean(abs.value));
    if files[i].path == "" { return false; }
    var again := Paths.Abs(env.cwd, files[i].path);
    if again.None? || !Paths.IsAbs(Paths.Clean(again.value)) { return false; }
    if files[i].mode == "" {
      files[i] := files[i].(mode := "0600");
    }
    if Guards.ParseMode(files[i].mode).None? { return false; }
    if files[i].owner != "" && Guards.ParseOwner(files[i].owner).None? { return false; }
    if files[i].group != "" && Guards.ParseOwner(files[i].group).None? { return false; }
    ok := true;
  }

  /** Works on a copy of the secret; the array inside the copy is the configuration's own. */
  method ValidateSecret(env: Env, store: SecretStore, secret: LoadedSecret) returns (ok: bool)
    modifies secret.files
    ensures ok <==> SecretOk(env, store, old(SecretView(secret)))
    ensures ok ==> secret.files[..] == NormalFiles(env, old(secret.files[..]))
  {
    var files := secret.files;
    if !FieldsOk(store, secret, files.Length) { return false; }
    ghost var before := files[..];
    for i := 0 to files.Length
      invariant forall k :: 0 <= k < i ==> FileOk(env, before[k]) && files[k] == Normal(env, before[k])
      invariant forall k :: i <= k < files.Length ==> files[k] == before[k]
    {
      var fileOk := ValidateFile(env, files, i);
      if !fileOk { return false; }
    }
    ok := true;
  }

  method ValidateSecrets(env: Env, store: SecretStore, secrets: seq<LoadedSecret>) returns (ok: bool)
    requires Separate(secrets)
    modifies FilesArrays(secrets)
    ensures ok <==> SecretsOk(env, store, old(SecretsView(secrets)))
    ensures ok ==> SecretsView(secrets) == NormalSecrets(env, store, old(SecretsView(secrets)))
  {
    ghost var before := SecretsView(secrets);
    for i := 0 to |secrets|
      invariant forall k :: 0 <= k < i ==>
        SecretOk(env, store, before[k]) && secrets[k].files[..] == NormalFiles(env, before[k].files)
      invariant forall k :: i <= k < |secrets| ==> secrets[k].files[..] == before[k].files
    {
      var secret := secrets[i];
      assert SecretView(secret) == before[i];
      ok := ValidateSecret(env, store, secret);
      if !ok { return; }
    }
    ok := true;
    assert SecretsView(secrets) == NormalSecrets(env, store, before);
  }

  /** Accepts exactly as specified; an accepted configuration has been rewritten in place. */
  method Validate(env: Env, cfg: LoadedConfig) returns (ok: bool)
    requires Separate(cfg.secrets)
    modifies FilesArrays(cfg.secrets)
    ensures ok <==> Accepts(env, Config(cfg.store, old(SecretsView(cfg.secrets))))
    ensures ok ==> Config(cfg.store, SecretsView(cfg.secrets))
                   == Normalised(env, Config(cfg.store, old(SecretsView(cfg.secrets))))
  {
    if !StoreOk(env, cfg.store) { return false; }
    if |cfg.secrets| == 0 || |cfg.secrets| > MAX_SECRETS { return false; }
    var distinct := ValidateNoDuplicatePaths(cfg.secrets);
    if !distinct { return false; }
    ok := ValidateSecrets(env, cfg.store, cfg.secrets);
  }

  // ----- Consequences -----

  /** Normalised paths are absolute and clean, whatever the working directory was. */
  lemma NormalPathIsStable(env: Env, path: string)
    requires NormalPath(env, path).Some?
    ensures var p := NormalPath(env, path).value;
      Paths.IsAbs(p) && Paths.Clean(p) == p && forall later: Env :: NormalPath(later, p) == Some(p)
  {
    var abs := Paths.Abs(env.cwd, path).value;
    var p := Paths.Clean(abs);
    Paths.CleanIdempotent(abs);
    if !Paths.IsAbs(p) {
      var joined := if env.cwd.value == "" then p else env.cwd.value + "/" + p;
      Paths.CleanIdempotent(joined);
      Paths.CleanIdempotent(Paths.Clean(joined));
      RelativeJoin(env, path);
      assert false;
    }
  }

  /** A relative result can only come from a relative working directory, and is then rejected. */
  lemma RelativeJoin(env: Env, path: string)
    requires path != "" && Paths.Abs(env.cwd, path).Some?
    requires !Paths.IsAbs(Paths.Clean(Paths.Abs(env.cwd, path).value))
    ensures NormalPath(env, path).None?
  {
    var cwd := env.cwd.value;
    var abs := Paths.Abs(env.cwd, path).value;
    var clean := Paths.Clean(abs);
    var joined := if cwd == "" then path else cwd + "/" + path;
    Paths.CleanIdempotent(joined);
    Paths.CleanIdempotent(abs);
    assert !Paths.IsAbs(joined);
    var again := if cwd == "" then clean else cwd + "/" + clean;
    assert !Paths.IsAbs(again);
    Paths.CleanIdempotent(again);
    Paths.CleanIdempotent(Paths.Clean(again));
  }

  /** The path a configured path becomes: itself cleaned if absolute, else cleaned under the working directory. */
  lemma NormalPathIs(env: Env, path: string)
    ensures NormalPath(env, path) ==
      if path == "" then None
      else if path[0] == '/' then Some(Paths.Clean(path))
      else if env.cwd.Some? && env.cwd.value != "" && env.cwd.value[0] == '/' then Some(Paths.Clean(env.cwd.value + "/" + path))
      else None
  {
    if path != "" && (Paths.IsAbs(path) || env.cwd.Some?) {
      var joined := if Paths.IsAbs(path) || env.cwd.value == "" then path else env.cwd.value + "/" + path;
      Paths.CleanIdempotent(joined);
      Paths.CleanIdempotent(Paths.Clean(joined));
      if !Paths.IsAbs(joined) { RelativeJoin(env, path); }
    }
  }

  /** What a validated file keeps and what it gets. */
  lemma NormalIs(env: Env, file: File)
    requires FileOk(env, file)
    ensures Normal(env, file) ==
      File(NormalPath(env, file.path).value, if file.mode == "" then "0600" else file.mode, file.owner, file.group)
  {
  }

  /** A file is accepted when its path can be made absolute and its attributes, where given, can be parsed. */
  predicate FileAccepted(env: Env, file: File) {
    && file.path != "" && (file.path[0] == '/' || (env.cwd.Some? && env.cwd.value != "" && env.cwd.value[0] == '/'))
    && Guards.ParseMode(file.mode).Some? && Guards.ParseOwner(file.owner).Some? && Guards.ParseOwner(file.group).Some?
  }

  /** Names, keys and limits of a secret. */
  predicate SecretAccepted(env: Env, store: SecretStore, secret: Secret) {
    && secret.name != "" && secret.key != "" && secret.mountPath != ""
    && (secret.credentials == "" || secret.credentials in store.credentials)
    && secret.kvVersion in ["v1", "v2"] && secret.refreshInterval >= 30_000_000_000
    && |secret.template| == |secret.files| >= 1
    && forall k :: 0 <= k < |secret.files| ==> FileAccepted(env, secret.files[k])
  }

  predicate CredentialsAccepted(creds: CredentialSet) {
    if creds.authMethod == "token" then creds.token != ""
    else creds.authMethod == "approle" && creds.roleId != "" && creds.secretId != ""
  }

  /** What validation accepts, with every limit spelled out. */
  lemma AcceptsIff(env: Env, cfg: Config)
    ensures Accepts(env, cfg) <==>
      && cfg.store.address != "" && env.addressOk && env.tlsOk
      && CredentialsAccepted(CredentialSet(cfg.store.authMethod, cfg.store.token, cfg.store.roleId, cfg.store.secretId))
      && "" !in cfg.store.credentials
      && (forall name :: name in cfg.store.credentials ==> CredentialsAccepted(cfg.store.credentials[name]))
      && 1 <= |cfg.secrets| <= 100
      && (forall i :: 0 <= i < |cfg.secrets| ==> SecretAccepted(env, cfg.store, cfg.secrets[i]))
      && !exists i, j, k, l, path :: Repeats(cfg.secrets, i, j, k, l, path)
  {
    hide Distinct, AllPaths, NormalPath;
    AllPathsDistinctIff(cfg.secrets);
    forall i | 0 <= i < |cfg.secrets|
      ensures SecretOk(env, cfg.store, cfg.secrets[i]) <==> SecretAccepted(env, cfg.store, cfg.secrets[i])
    {
      SecretAcceptedIff(env, cfg.store, cfg.secrets[i]);
    }
  }

  lemma SecretAcceptedIff(env: Env, store: SecretStore, secret: Secret)
    ensures SecretOk(env, store, secret) <==> SecretAccepted(env, store, secret)
  {
    hide NormalPath, Guards.ParseMode, Guards.ParseOwner;
    Guards.DefaultMode();
    Guards.OwnerOfNumeral(0);
    forall k | 0 <= k < |secret.files| ensures FileOk(env, secret.files[k]) <==> FileAccepted(env, secret.files[k]) {
      NormalPathIs(env, secret.files[k].path);
    }
  }

  lemma NormalFileIsStable(env: Env, later: Env, file: File)
    requires FileOk(env, file)
    ensures FileOk(later, Normal(env, file)) && Normal(later, Normal(env, file)) == Normal(env, file)
  {
    NormalPathIsStable(env, file.path);
    Guards.DefaultMode();
  }

  /** Validating what validation produced: accepted exactly when the rewritten paths are distinct, and unchanged,
      even from another working directory. */
  lemma SecondValidation(env: Env, later: Env, cfg: Config)
    requires Accepts(env, cfg) && later.addressOk && later.tlsOk
    ensures var once := Normalised(env, cfg);
      && (Accepts(later, once) <==> Distinct(AllPaths(once.secrets)))
      && (Accepts(later, once) ==> Normalised(later, once) == once)
  {
    var once := Normalised(env, cfg);
    forall i | 0 <= i < |once.secrets|
      ensures SecretOk(later, once.store, once.secrets[i])
      ensures NormalFiles(later, once.secrets[i].files) == once.secrets[i].files
    {
      var files := cfg.secrets[i].files;
      assert SecretOk(env, cfg.store, cfg.secrets[i]);
      forall k | 0 <= k < |files|
        ensures FileOk(later, NormalFiles(env, files)[k])
        ensures Normal(later, NormalFiles(env, files)[k]) == NormalFiles(env, files)[k]
      {
        NormalFileIsStable(env, later, files[k]);
      }
    }
    if Accepts(later, once) {
      assert Normalised(later, once).secrets == once.secrets;
    }
  }

  /** Load validates and the reload path validates again; a configuration that survives both is in force. */
  function Reloaded(env: Env, cfg: Config): Option<Config> {
    if Accepts(env, cfg) && Accepts(env, Normalised(env, cfg)) then Some(Normalised(env, Normalised(env, cfg))) else None
  }

  /** After a reload no two configured files are the same file; the first load alone does not promise that. */
  lemma ReloadedPathsAreDistinct(env: Env, cfg: Config)
    ensures Reloaded(env, cfg).Some? <==> Accepts(env, cfg) && Distinct(AllPaths(Normalised(env, cfg).secrets))
    ensures Reloaded(env, cfg).Some? ==> Reloaded(env, cfg).value == Normalised(env, cfg)
  {
    if Accepts(env, cfg) { SecondValidation(env, env, cfg); }
  }

  const ENV := Env(None, true, true)
  const TWICE := [File("/a//b", "0600", "", ""), File("/a/b", "0600", "", "")]
  const STORE := SecretStore("http://vault", "", "token", "t", "", "", map[])
  const TWO_SPELLINGS: Secret := Secret("s", "k", "m", "", "", "v2", MIN_REFRESH, map["b" := "x", "c" := "y"], TWICE)

  lemma Spelling(path: string)
    requires Paths.IsAbs(path) && Paths.Clean(path) == "/a/b" == Paths.Clean("/a/b")
    ensures var file := File(path, "0600", "", "");
      FileOk(ENV, file) && Normal(ENV, file) == File("/a/b", "0600", "", "")
  {
    Guards.DefaultMode();
  }

  lemma SpellingsClean()
    ensures Paths.Clean("/a//b") == "/a/b" == Paths.Clean("/a/b")
  {
    hide Paths.Clean;
    assert "/a//b" == "/a" + "//" + "b" && "/a/b" == "/a" + "/" + "b" == "/" + "a" + "/" + "b";
    Paths.DoubleSlash("/a", "b");
    Paths.CleanOfTwo("a", "b");
  }

  lemma TwoSpellingsNormalise()
    ensures FilesOk(ENV, TWICE) && PathsOf(NormalFiles(ENV, TWICE)) == ["/a/b", "/a/b"]
    ensures PathsOf(TWICE) == ["/a//b", "/a/b"]
  {
    hide Paths.Clean, FileOk, Normal;
    SpellingsClean();
    Spelling("/a//b");
    Spelling("/a/b");
  }

  lemma PathsOfOne(secret: Secret)
    ensures AllPaths([secret]) == PathsOf(secret.files)
  {
  }

  lemma TwoSpellingsFields()
    ensures StoreOk(ENV, STORE) && FieldsOk(STORE, TWO_SPELLINGS, 2)
  {
  }

  lemma OneSecretAccepted(env: Env, store: SecretStore, secret: Secret)
    requires StoreOk(env, store) && SecretOk(env, store, secret) && Distinct(PathsOf(secret.files))
    ensures Accepts(env, ConfigOf.Config(store, [secret]))
  {
  }

  lemma SamePathTwice(secrets: seq<Secret>, path: string)
    requires |secrets| == 1 && PathsOf(secrets[0].files) == [path, path]
    ensures !Distinct(AllPaths(secrets))
  {
    assert secrets == [secrets[0]];
    PathsOfOne(secrets[0]);
    assert [path, path][0] == [path, path][1];
  }

  /** The duplicate check precedes normalisation: a first load accepts two spellings of one file. */
  lemma OneLoadMayLeaveDuplicates()
    ensures var cfg := ConfigOf.Config(STORE, [TWO_SPELLINGS]);
      Accepts(ENV, cfg) && !Distinct(AllPaths(Normalised(ENV, cfg).secrets))
  {
    TwoSpellingsFields();
    TwoSpellingsNormalise();
    assert PathsOf(TWICE)[0] != PathsOf(TWICE)[1];
    OneSecretAccepted(ENV, STORE, TWO_SPELLINGS);
    SamePathTwice(Normalised(ENV, ConfigOf.Config(STORE, [TWO_SPELLINGS])).secrets, "/a/b");
  }

  /** Validation and the check at write time are not the same: an accepted path is refused at every write exactly
      when it is over-long or contains two adjacent dots. */
  lemma AcceptedPathAtWriteTime(env: Env, path: string)
    requires NormalPath(env, path).Some?
    ensures var p := NormalPath(env, path).value;
      Guards.ValidatePath(p).PathOk? <==> |p| <= Guards.MAX_PATH_LEN && !Guards.Contains(p, "..")
  {
    NormalPathIsStable(env, path);
  }
}
