/** The configuration and its pure resolvers. */
module Config {
  import opened Options

  datatype CredentialSet = CredentialSet(authMethod: string, token: string, roleId: string, secretId: string)

  datatype SecretStore = SecretStore(address: string, namespace: string, authMethod: string, token: string,
                                     roleId: string, secretId: string, credentials: map<string, CredentialSet>)
  {
    function GetDefaultCredentials(): CredentialSet {
      CredentialSet(authMethod, token, roleId, secretId)
    }

    /** The named set, or the default credentials for the empty name. */
    function GetCredentials(name: string): Option<CredentialSet> {
      if name == "" then Some(GetDefaultCredentials())
      else if name in credentials then Some(credentials[name])
      else None
    }
  }

  datatype File = File(path: string, mode: string, owner: string, group: string)

  /** Files is a sequence in specifications and an array where the source shares a slice. */
  datatype SecretOf<Files> = Secret(name: string, key: string, mountPath: string, namespace: string,
                                    credentials: string, kvVersion: string, refreshInterval: int,
                                    template: map<string, string>, files: Files)
  {
    function ResolveNamespace(globalNamespace: string): string {
      if namespace != "" then namespace else globalNamespace
    }

    function ResolveCredentials(): string {
      credentials
    }
  }

  datatype ConfigOf<Files> = Config(store: SecretStore, secrets: seq<SecretOf<Files>>)

  type Secret = SecretOf<seq<File>>
  type Config = ConfigOf<seq<File>>

  predicate Distinct<T(==)>(s: seq<T>) {
    forall i, j :: 0 <= i < j < |s| ==> s[i] != s[j]
  }

  function Elements<T(==)>(s: seq<T>): set<T> {
    set x | x in s
  }

  function PathsOf(files: seq<File>): (paths: seq<string>)
    ensures |paths| == |files| && forall i :: 0 <= i < |files| ==> paths[i] == files[i].path
  {
    seq(|files|, i requires 0 <= i < |files| => files[i].path)
  }

  /** Every file path of every secret, in order, with repetitions. */
  function AllPaths(secrets: seq<Secret>): seq<string> {
    if secrets == [] then []
    else AllPaths(secrets[..|secrets| - 1]) + PathsOf(secrets[|secrets| - 1].files)
  }

  /** File j of secret i has the path. */
  ghost predicate PathAt(secrets: seq<Secret>, i: int, j: int, path: string) {
    0 <= i < |secrets| && 0 <= j < |secrets[i].files| && secrets[i].files[j].path == path
  }

  lemma {:induction false} InAllPaths(secrets: seq<Secret>, path: string)
    ensures path in AllPaths(secrets) <==> exists i, j :: PathAt(secrets, i, j, path)
  {
    if secrets != [] {
      var n := |secrets| - 1;
      var init := secrets[..n];
      InAllPaths(init, path);
      if path in PathsOf(secrets[n].files) {
        var j :| 0 <= j < |secrets[n].files| && PathsOf(secrets[n].files)[j] == path;
        assert PathAt(secrets, n, j, path);
      }
      if i, j :| PathAt(init, i, j, path) { assert PathAt(secrets, i, j, path); }
      if i, j :| PathAt(secrets, i, j, path) {
        if i < n {
          assert PathAt(init, i, j, path);
        } else {
          assert PathsOf(secrets[n].files)[j] == path;
        }
      }
    }
  }

  lemma DistinctConcat<T>(a: seq<T>, b: seq<T>)
    ensures Distinct(a + b) <==> Distinct(a) && Distinct(b) && forall x :: x in a ==> x !in b
  {
    var c := a + b;
    if Distinct(c) {
      forall i, j | 0 <= i < j < |a| ensures a[i] != a[j] { assert c[i] != c[j]; }
      forall i, j | 0 <= i < j < |b| ensures b[i] != b[j] { assert c[|a| + i] != c[|a| + j]; }
      forall i, j | 0 <= i < |a| && 0 <= j < |b| ensures a[i] != b[j] { assert c[i] != c[|a| + j]; }
    }
    if Distinct(a) && Distinct(b) && forall x :: x in a ==> x !in b {
      forall i, j | 0 <= i < j < |c| ensures c[i] != c[j] {
        if i < |a| <= j { assert a[i] in a && b[j - |a|] in b; }
      }
    }
  }

  /** Two different places of the configuration name the same file. */
  ghost predicate Repeats(secrets: seq<Secret>, i: int, j: int, k: int, l: int, path: string) {
    PathAt(secrets, i, j, path) && PathAt(secrets, k, l, path) && (i != k || j != l)
  }

  /** What it means that the list of all paths has no repetition, secret by secret and file by file. */
  lemma {:induction false} AllPathsDistinctIff(secrets: seq<Secret>)
    ensures Distinct(AllPaths(secrets)) <==> !exists i, j, k, l, path :: Repeats(secrets, i, j, k, l, path)
  {
    if secrets != [] {
      var n := |secrets| - 1;
      var init, own := secrets[..n], PathsOf(secrets[n].files);
      AllPathsDistinctIff(init);
      DistinctConcat(AllPaths(init), own);
      forall path: string { InAllPaths(init, path); }
      if i, j, k, l, path :| Repeats(init, i, j, k, l, path) { assert Repeats(secrets, i, j, k, l, path); }
      if i, j :| 0 <= i < j < |own| && own[i] == own[j] { assert Repeats(secrets, n, i, n, j, own[i]); }
      if path :| path in AllPaths(init) && path in own {
        var i, j :| PathAt(init, i, j, path);
        var l :| 0 <= l < |own| && own[l] == path;
        assert Repeats(secrets, i, j, n, l, path);
      }
      if i, j, k, l, path :| Repeats(secrets, i, j, k, l, path) {
        RepetitionIsOldOrNew(secrets, i, j, k, l, path);
      }
    }
  }

  lemma RepetitionIsOldOrNew(secrets: seq<Secret>, i: int, j: int, k: int, l: int, path: string)
    requires secrets != [] && Repeats(secrets, i, j, k, l, path)
    ensures var init, own := secrets[..|secrets| - 1], PathsOf(secrets[|secrets| - 1].files);
      Repeats(init, i, j, k, l, path) || !Distinct(own) || (path in AllPaths(init) && path in own)
  {
    var n := |secrets| - 1;
    var init, own := secrets[..n], PathsOf(secrets[n].files);
    InAllPaths(init, path);
    if i < n && k < n {
      assert Repeats(init, i, j, k, l, path);
    } else if i == n && k == n {
      assert own[j] == own[l];
    } else {
      assert path == if i == n then own[j] else own[l];
      assert PathAt(init, if i == n then k else i, if i == n then l else j, path);
    }
  }
}
