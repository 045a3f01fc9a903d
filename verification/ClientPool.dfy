/** The client cache as a function of the syncs run one after another: what each read shows Vault. The cache lives as
    long as the process, so the syncs of one run may belong to different configurations. */
module ClientPool {
  import opened Options
  import opened Config
  import opened VaultClient

  /** The cached clients by credential name, and what a read through each shows. */
  type Pool = map<string, Identity>

  /** A secret and the store of the configuration its job was started with. address is what the client factory
      connects to: it is read from the configuration in force, which may be a later one. */
  datatype Use = Use(address: string, store: SecretStore, secret: Secret) {
    function Name(): string { secret.ResolveCredentials() }
    function Creds(): Option<CredentialSet> { store.GetCredentials(Name()) }
    function Namespace(): string { secret.ResolveNamespace(store.namespace) }
  }

  /** One sync: the token the factory's login would obtain, if it succeeds, and how many reads got through the breaker. */
  datatype Sync = Sync(use: Use, login: Option<string>, calls: nat)

  datatype PoolStep = PoolStep(pool: Pool, shown: Option<Identity>)

  predicate Creates(pool: Pool, s: Sync) {
    s.use.Creds().Some? && s.use.Name() !in pool && s.login.Some?
  }

  function SyncPool(initialNamespace: string, pool: Pool, s: Sync): PoolStep {
    var name := s.use.Name();
    if s.use.Creds().None? || (name !in pool && s.login.None?) then PoolStep(pool, None)
    else
      var client :=
        if name in pool then pool[name] else Identity(s.use.address, s.use.Creds(), s.login.value, initialNamespace);
      var left := client.(namespace := Sticky(client.namespace, s.use.Namespace(), s.calls > 0));
      PoolStep(pool[name := left], if s.calls > 0 then Some(left) else None)
  }

  /** The step seen as what the code does: obtain the client, then read through it. */
  lemma StepThrough(initialNamespace: string, pool: Pool, s: Sync, obtained: Pool)
    requires s.use.Creds().Some? && (s.use.Name() in pool || s.login.Some?)
    requires obtained ==
      if s.use.Name() in pool then pool
      else pool[s.use.Name() := Identity(s.use.address, s.use.Creds(), s.login.value, initialNamespace)]
    ensures var client := obtained[s.use.Name()];
      var left := client.(namespace := Sticky(client.namespace, s.use.Namespace(), s.calls > 0));
      SyncPool(initialNamespace, pool, s) ==
        PoolStep(obtained[s.use.Name() := left], if s.calls > 0 then Some(left) else None)
  {
  }

  lemma StepWithoutClient(initialNamespace: string, pool: Pool, s: Sync)
    requires s.use.Creds().None? || (s.use.Name() !in pool && s.login.None?)
    ensures SyncPool(initialNamespace, pool, s) == PoolStep(pool, None)
  {
  }

  function PoolAfter(initialNamespace: string, syncs: seq<Sync>): Pool {
    if syncs == [] then map[]
    else SyncPool(initialNamespace, PoolAfter(initialNamespace, syncs[..|syncs| - 1]), syncs[|syncs| - 1]).pool
  }

  /** What the reads of sync i show. */
  function ShownAt(initialNamespace: string, syncs: seq<Sync>, i: nat): Option<Identity>
    requires i < |syncs|
  {
    SyncPool(initialNamespace, PoolAfter(initialNamespace, syncs[..i]), syncs[i]).shown
  }

  // ----- When the cache is invisible to Vault -----

  /** Apart from the token, which every login renews, this is what a client created for this very sync would show: the
      store's own credentials, or the set the secret names; the secret's namespace, or the store's, or the initial one. */
  predicate LooksFresh(initialNamespace: string, use: Use, shown: Identity) {
    var store, secret := use.store, use.secret;
    && shown.address == use.address
    && (secret.credentials == "" ==>
          shown.creds == Some(CredentialSet(store.authMethod, store.token, store.roleId, store.secretId)))
    && (secret.credentials != "" ==>
          secret.credentials in store.credentials && shown.creds == Some(store.credentials[secret.credentials]))
    && shown.namespace ==
         if secret.namespace != "" then secret.namespace
         else if store.namespace != "" then store.namespace
         else initialNamespace
  }

  ghost predicate FreshAt(initialNamespace: string, syncs: seq<Sync>, i: nat)
    requires i < |syncs|
  {
    var shown := ShownAt(initialNamespace, syncs, i);
    shown.Some? ==> LooksFresh(initialNamespace, syncs[i].use, shown.value)
  }

  ghost predicate Transparent(initialNamespace: string, syncs: seq<Sync>) {
    forall i :: 0 <= i < |syncs| ==> FreshAt(initialNamespace, syncs, i)
  }

  /** Two uses of one credential name that differ in server or credentials, or of which only the second sets a
      namespace of its own. */
  predicate Clash(initialNamespace: string, a: Use, b: Use) {
    && a.Name() == b.Name() && a.Creds().Some? && b.Creds().Some?
    && (a.address != b.address || a.Creds() != b.Creds()
        || (a.Namespace() == "" && b.Namespace() !in ["", initialNamespace]))
  }

  ghost predicate Compatible(initialNamespace: string, uses: set<Use>) {
    forall a, b :: a in uses && b in uses ==> !Clash(initialNamespace, a, b)
  }

  ghost predicate From(syncs: seq<Sync>, uses: set<Use>) {
    forall i :: 0 <= i < |syncs| ==> syncs[i].use in uses
  }

  /** The client was created for some use of its name, and its namespace is the initial one or set by another. */
  ghost predicate ClientOk(initialNamespace: string, uses: set<Use>, name: string, client: Identity) {
    && (exists a :: a in uses && a.Name() == name && a.Creds().Some? && client.address == a.address && client.creds == a.Creds())
    && (client.namespace == initialNamespace
        || exists b :: b in uses && b.Name() == name && b.Creds().Some? && b.Namespace() == client.namespace != "")
  }

  ghost predicate PoolOk(initialNamespace: string, uses: set<Use>, pool: Pool) {
    forall name :: name in pool ==> ClientOk(initialNamespace, uses, name, pool[name])
  }

  lemma {:induction false} PoolStaysOk(initialNamespace: string, uses: set<Use>, syncs: seq<Sync>)
    requires From(syncs, uses)
    ensures PoolOk(initialNamespace, uses, PoolAfter(initialNamespace, syncs))
  {
    if syncs != [] {
      PoolStaysOk(initialNamespace, uses, syncs[..|syncs| - 1]);
      var last := syncs[|syncs| - 1].use;
      assert last in uses;
    }
  }

  lemma CompatibleIsTransparent(initialNamespace: string, uses: set<Use>, syncs: seq<Sync>)
    requires Compatible(initialNamespace, uses) && From(syncs, uses)
    ensures Transparent(initialNamespace, syncs)
  {
    forall i | 0 <= i < |syncs| ensures FreshAt(initialNamespace, syncs, i) {
      PoolStaysOk(initialNamespace, uses, syncs[..i]);
      var use := syncs[i].use;
      var pool := PoolAfter(initialNamespace, syncs[..i]);
      if use.Creds().Some? && use.Name() in pool {
        assert ClientOk(initialNamespace, uses, use.Name(), pool[use.Name()]);
        assert forall b :: b in uses ==> !Clash(initialNamespace, use, b);
      }
    }
  }

  /** The offending pair: what the first leaves in the cache shows in the reads of the second. */
  lemma ClashShows(initialNamespace: string, first: Use, second: Use, token: string, later: string)
    requires Clash(initialNamespace, second, first)
    ensures var syncs := [Sync(first, Some(token), 1), Sync(second, Some(later), 1)];
      && !Transparent(initialNamespace, syncs)
      && ShownAt(initialNamespace, syncs, 1) == Some(Identity(first.address, first.Creds(), token,
           Sticky(Sticky(initialNamespace, first.Namespace(), true), second.Namespace(), true)))
  {
    var syncs := [Sync(first, Some(token), 1), Sync(second, Some(later), 1)];
    assert syncs[..1] == [syncs[0]] && syncs[..1][..0] == [];
    assert PoolAfter(initialNamespace, []) == map[];
    assert !FreshAt(initialNamespace, syncs, 1);
  }

  /** In every sequential run over the given uses, across any number of reloads, the cache is invisible to Vault,
      exactly when no two of the uses clash. */
  lemma CacheIsInvisibleAcrossReloads(initialNamespace: string, uses: set<Use>)
    ensures Compatible(initialNamespace, uses) <==>
      forall syncs :: From(syncs, uses) ==> Transparent(initialNamespace, syncs)
  {
    if Compatible(initialNamespace, uses) {
      forall syncs | From(syncs, uses) ensures Transparent(initialNamespace, syncs) {
        CompatibleIsTransparent(initialNamespace, uses, syncs);
      }
    } else {
      var a, b :| a in uses && b in uses && Clash(initialNamespace, a, b);
      ClashShows(initialNamespace, b, a, "", "");
      assert From([Sync(b, Some(""), 1), Sync(a, Some(""), 1)], uses);
    }
  }

  /** Every use that configurations put in force one after another give rise to: a job of an earlier configuration
      may still sync after a reload. */
  ghost function UsesOf(configs: seq<Config>): set<Use> {
    set i, j, k | 0 <= j <= i < |configs| && 0 <= k < |configs[j].secrets| ::
      Use(configs[i].store.address, configs[j].store, configs[j].secrets[k])
  }

  /** Two secrets of one configuration share usable credentials; the first resolves to no namespace, the second to
      one that is not the initial one. */
  predicate Mixed(initialNamespace: string, store: SecretStore, a: Secret, b: Secret) {
    && a.ResolveCredentials() == b.ResolveCredentials()
    && store.GetCredentials(a.ResolveCredentials()).Some?
    && a.ResolveNamespace(store.namespace) == ""
    && b.ResolveNamespace(store.namespace) !in ["", initialNamespace]
  }

  lemma UsesOfOne(cfg: Config, u: Use)
    ensures u in UsesOf([cfg]) <==> u.address == cfg.store.address && u.store == cfg.store && u.secret in cfg.secrets
  {
    if u.address == cfg.store.address && u.store == cfg.store && u.secret in cfg.secrets {
      var k :| 0 <= k < |cfg.secrets| && cfg.secrets[k] == u.secret;
      assert [cfg][0].secrets[k] == u.secret;
    }
  }

  /** Without a reload only namespaces can clash: the cache is invisible exactly when no credential name mixes empty
      and other namespaces. */
  lemma CacheIsInvisible(initialNamespace: string, cfg: Config)
    ensures (forall a, b :: a in cfg.secrets && b in cfg.secrets ==> !Mixed(initialNamespace, cfg.store, a, b)) <==>
      forall syncs :: From(syncs, UsesOf([cfg])) ==> Transparent(initialNamespace, syncs)
  {
    hide UsesOf, Transparent, From;
    CacheIsInvisibleAcrossReloads(initialNamespace, UsesOf([cfg]));
    forall u: Use { UsesOfOne(cfg, u); }
    if a, b :| a in cfg.secrets && b in cfg.secrets && Mixed(initialNamespace, cfg.store, a, b) {
      var address := cfg.store.address;
      assert Clash(initialNamespace, Use(address, cfg.store, a), Use(address, cfg.store, b));
      assert Use(address, cfg.store, a) in UsesOf([cfg]) && Use(address, cfg.store, b) in UsesOf([cfg]);
    }
  }

  // ----- Creation, and whose token a read carries -----

  lemma {:induction false} PoolOnlyGrows(initialNamespace: string, syncs: seq<Sync>, i: nat, name: string)
    requires i <= |syncs| && name in PoolAfter(initialNamespace, syncs[..i])
    ensures name in PoolAfter(initialNamespace, syncs)
  {
    if i < |syncs| {
      var before := syncs[..|syncs| - 1];
      assert before[..i] == syncs[..i];
      PoolOnlyGrows(initialNamespace, before, i, name);
    } else {
      assert syncs[..i] == syncs;
    }
  }

  /** A name is cached only by a successful creation, and created at most once in a run. */
  lemma CreatedAtMostOnce(initialNamespace: string, syncs: seq<Sync>, i: nat, j: nat)
    requires i < j < |syncs| && syncs[i].use.Name() == syncs[j].use.Name()
    requires Creates(PoolAfter(initialNamespace, syncs[..i]), syncs[i])
    ensures !Creates(PoolAfter(initialNamespace, syncs[..j]), syncs[j])
  {
    var upTo := syncs[..j];
    assert upTo[..i + 1] == syncs[..i + 1] && syncs[..i + 1][..i] == syncs[..i];
    PoolOnlyGrows(initialNamespace, upTo, i + 1, syncs[i].use.Name());
  }

  /** Sync k created the client that is cached under a name after the run. */
  ghost predicate CreatedBy(initialNamespace: string, syncs: seq<Sync>, k: int, name: string) {
    && 0 <= k < |syncs| && syncs[k].use.Name() == name
    && Creates(PoolAfter(initialNamespace, syncs[..k]), syncs[k])
  }

  lemma {:induction false} CachedTokenIsOfItsCreation(initialNamespace: string, syncs: seq<Sync>, name: string)
    requires name in PoolAfter(initialNamespace, syncs)
    ensures exists k ::
      CreatedBy(initialNamespace, syncs, k, name) && PoolAfter(initialNamespace, syncs)[name].token == syncs[k].login.value
  {
    var n := |syncs| - 1;
    var before := syncs[..n];
    if name in PoolAfter(initialNamespace, before) {
      CachedTokenIsOfItsCreation(initialNamespace, before, name);
      var k :| CreatedBy(initialNamespace, before, k, name)
        && PoolAfter(initialNamespace, before)[name].token == before[k].login.value;
      assert before[..k] == syncs[..k];
      assert CreatedBy(initialNamespace, syncs, k, name);
    } else {
      assert CreatedBy(initialNamespace, syncs, n, name);
    }
  }

  /** The daemon's clients: the start-up client, the only one whose token is renewed, and the cache. */
  datatype Clients = Clients(startup: Session, renewing: bool, pool: Pool)

  datatype Event = Synced(sync: Sync) | Renewal(event: RenewalEvent)

  function ClientsStep(initialNamespace: string, maxRequests: nat, c: Clients, e: Event): Clients {
    match e
    case Synced(s) => c.(pool := SyncPool(initialNamespace, c.pool, s).pool)
    case Renewal(event) =>
      if !c.renewing then c
      else
        var r := RenewalStep(c.startup, maxRequests, event);
        c.(startup := r.session, renewing := r.running)
  }

  function ClientsAfter(initialNamespace: string, maxRequests: nat, startup: Session, events: seq<Event>): Clients {
    if events == [] then Clients(startup, startup.Renewable(), map[])
    else
      ClientsStep(initialNamespace, maxRequests,
        ClientsAfter(initialNamespace, maxRequests, startup, events[..|events| - 1]), events[|events| - 1])
  }

  function SyncsOf(events: seq<Event>): seq<Sync> {
    if events == [] then []
    else
      SyncsOf(events[..|events| - 1]) + match events[|events| - 1] { case Synced(s) => [s] case Renewal(_) => [] }
  }

  lemma {:induction false} RenewalsLeaveThePoolAlone(initialNamespace: string, maxRequests: nat, startup: Session,
                                                     events: seq<Event>)
    ensures ClientsAfter(initialNamespace, maxRequests, startup, events).pool == PoolAfter(initialNamespace, SyncsOf(events))
  {
    if events != [] {
      var before := events[..|events| - 1];
      RenewalsLeaveThePoolAlone(initialNamespace, maxRequests, startup, before);
      var syncs := SyncsOf(events);
      if events[|events| - 1].Synced? {
        assert syncs[..|syncs| - 1] == SyncsOf(before);
      } else {
        assert syncs == SyncsOf(before);
      }
    }
  }

  /** In every run of syncs and renewals a read carries the token its client was created with: the token of the sync
      that created the client, never one from a renewal login, however many of those there were. */
  lemma ReadsNeverUseARenewedToken(initialNamespace: string, maxRequests: nat, startup: Session, events: seq<Event>, s: Sync)
    ensures var pool := ClientsAfter(initialNamespace, maxRequests, startup, events).pool;
      var shown := SyncPool(initialNamespace, pool, s).shown;
      var syncs := SyncsOf(events) + [s];
      shown.Some? ==> exists k :: CreatedBy(initialNamespace, syncs, k, s.use.Name()) && shown.value.token == syncs[k].login.value
  {
    var syncs := SyncsOf(events) + [s];
    RenewalsLeaveThePoolAlone(initialNamespace, maxRequests, startup, events);
    assert syncs[..|syncs| - 1] == SyncsOf(events);
    if s.use.Name() in PoolAfter(initialNamespace, syncs) {
      CachedTokenIsOfItsCreation(initialNamespace, syncs, s.use.Name());
    }
  }
}
