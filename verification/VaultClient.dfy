/** The Vault client: logins, token renewal, and reads through a breaker with a sticky namespace. */
module VaultClient {
  import opened Options
  import opened Config
  import opened Breaker
  import opened Retry
  import Paths

  // ----- Sessions -----

  datatype AuthSecret = AuthSecret(clientToken: string, renewable: bool, lease: int)

  /** Vault's answer to a login, or to the lookup that checks a static token. */
  datatype LoginReply = LoginFailed | LoginEmpty | LoginOk(secret: AuthSecret)

  /** The authentication state of a client. */
  datatype Session = Session(config: Option<CredentialSet>, token: string, secret: Option<AuthSecret>,
                             breaker: Option<Breaker>)
  {
    predicate AppRole() {
      config.Some? && config.value.authMethod == "approle"
    }

    /** Token and auth secret come from the same login. */
    predicate SameLogin() {
      secret.Some? ==> token == secret.value.clientToken
    }

    predicate Renewable() {
      secret.Some? && secret.value.renewable
    }
  }

  function AppRoleLogin(s: Session, maxRequests: nat, roleId: string, secretId: string, timing: Timing,
                        reply: LoginReply): (Session, bool)
  {
    if roleId == "" || secretId == "" then (s, false)
    else
      var (b, called) := Through(s.breaker, maxRequests, timing, !reply.LoginFailed?);
      if called && reply.LoginOk? then
        (s.(breaker := b, token := reply.secret.clientToken, secret := Some(reply.secret)), true)
      else (s.(breaker := b), false)
  }

  function TokenLogin(s: Session, maxRequests: nat, token: string, timing: Timing, reply: LoginReply): (Session, bool) {
    if token == "" then (s, false)
    else
      var (b, called) := Through(s.breaker, maxRequests, timing, !reply.LoginFailed?);
      (s.(breaker := b, token := token), called && !reply.LoginFailed?)
  }

  function Login(s: Session, maxRequests: nat, creds: CredentialSet, timing: Timing, reply: LoginReply): (Session, bool) {
    var configured := s.(config := Some(creds));
    if creds.authMethod == "token" then TokenLogin(configured, maxRequests, creds.token, timing, reply)
    else if creds.authMethod == "approle" then
      AppRoleLogin(configured, maxRequests, creds.roleId, creds.secretId, timing, reply)
    else (configured, false)
  }

  /** A failed AppRole login changes neither token nor secret, so the two always stem from one login; a static token
      breaks that exactly when it replaces the token of an earlier, different login. */
  lemma LoginKeepsSameLogin(s: Session, maxRequests: nat, creds: CredentialSet, timing: Timing, reply: LoginReply)
    requires s.SameLogin()
    ensures var (s', ok) := Login(s, maxRequests, creds, timing, reply);
      && (creds.authMethod == "approle" ==> s'.SameLogin())
      && (creds.authMethod != "token" && !ok ==> s'.token == s.token && s'.secret == s.secret)
      && (creds.authMethod == "token" ==>
            (s'.SameLogin() <==> s.secret.None? || creds.token in ["", s.token]))
  {
  }

  /** When a login succeeds, and what it leaves: the token of the answer with its secret, or the static token, which
      is kept even when Vault refuses it. */
  lemma LoginIff(s: Session, maxRequests: nat, creds: CredentialSet, timing: Timing, reply: LoginReply)
    ensures var (s', ok) := Login(s, maxRequests, creds, timing, reply);
      && (ok <==>
            && LetsThrough(s.breaker, maxRequests, timing)
            && if creds.authMethod == "token" then creds.token != "" && !reply.LoginFailed?
               else creds.authMethod == "approle" && creds.roleId != "" && creds.secretId != "" && reply.LoginOk?)
      && s'.config == Some(creds)
      && (s.breaker.Some? && s.breaker.value.state.Closed? && timing == Timing(false, false)
          && (if creds.authMethod == "token" then creds.token != ""
              else creds.authMethod == "approle" && creds.roleId != "" && creds.secretId != "") ==>
            s'.breaker == Some(if reply.LoginFailed? then Fail(s.breaker.value, maxRequests)
                               else Succeed(s.breaker.value, maxRequests)))
      && (creds.authMethod == "token" ==> s'.secret == s.secret && s'.token == if creds.token == "" then s.token else creds.token)
      && (creds.authMethod == "approle" && ok ==> s'.token == reply.secret.clientToken && s'.secret == Some(reply.secret))
      && (creds.authMethod != "token" && !ok ==> s'.token == s.token && s'.secret == s.secret)
  {
    ThroughIff(s.breaker, maxRequests, timing, !reply.LoginFailed?);
  }

  // ----- Token renewal -----

  datatype Notice = Renewed(ttl: int) | ReAuthenticating | ReAuthenticated(ttl: int) | ReAuthFailed | Expired

  /** What the renewal goroutine's select delivers: a stop, a renewal (possibly nil), or the end of the watcher. */
  datatype RenewalEvent =
    | StopRequested
    | RenewalSent(lease: Option<int>)
    | WatcherDone(stopped: bool, timing: Timing, reply: LoginReply, watcherOk: bool)

  datatype RenewalState = RenewalState(session: Session, notices: seq<Notice>, running: bool)

  function RenewalStep(s: Session, maxRequests: nat, e: RenewalEvent): RenewalState {
    match e
    case StopRequested => RenewalState(s, [], false)
    case RenewalSent(lease) => RenewalState(s, if lease.Some? then [Renewed(lease.value)] else [], true)
    case WatcherDone(stopped, timing, reply, watcherOk) =>
      if stopped then RenewalState(s, [], false)
      else if !s.AppRole() then RenewalState(s, [Expired], false)
      else
        var (s', ok) := AppRoleLogin(s, maxRequests, s.config.value.roleId, s.config.value.secretId, timing, reply);
        if !ok then RenewalState(s', [ReAuthenticating, ReAuthFailed], false)
        else if !s'.Renewable() then RenewalState(s', [ReAuthenticating], false)
        else if !watcherOk then RenewalState(s', [ReAuthenticating, ReAuthFailed], false)
        else RenewalState(s', [ReAuthenticating, ReAuthenticated(s'.secret.value.lease)], true)
  }

  /** The session can log in again at once, and Vault grants it a token that can be renewed. */
  predicate LogsInAgain(s: Session, maxRequests: nat, e: RenewalEvent) {
    && e.WatcherDone? && s.config.Some? && s.config.value.authMethod == "approle"
    && s.config.value.roleId != "" && s.config.value.secretId != "" && LetsThrough(s.breaker, maxRequests, e.timing)
    && e.reply.LoginOk?
  }

  /** What one event of the renewal loop leads to. The loop goes on after a renewal, and after the end of a watcher
      exactly when it was not stopped, logs in again, and can watch the new token. */
  lemma RenewalStepIff(s: Session, maxRequests: nat, e: RenewalEvent)
    ensures var r := RenewalStep(s, maxRequests, e);
      && (r.running <==>
            || e.RenewalSent?
            || (LogsInAgain(s, maxRequests, e) && !e.stopped && e.reply.secret.renewable && e.watcherOk))
      && (e.RenewalSent? ==> r.session == s && r.notices == if e.lease.Some? then [Renewed(e.lease.value)] else [])
      && (e.StopRequested? || (e.WatcherDone? && e.stopped) ==> r.session == s && r.notices == [])
      && (e.WatcherDone? && !e.stopped && !(s.config.Some? && s.config.value.authMethod == "approle") ==>
            r.session == s && r.notices == [Expired])
      && (LogsInAgain(s, maxRequests, e) && !e.stopped ==>
            && r.session.token == e.reply.secret.clientToken && r.session.secret == Some(e.reply.secret)
            && r.notices == [ReAuthenticating] +
                 if !e.reply.secret.renewable then []
                 else if !e.watcherOk then [ReAuthFailed]
                 else [ReAuthenticated(e.reply.secret.lease)])
      && (e.WatcherDone? && !e.stopped && s.config.Some? && s.config.value.authMethod == "approle"
          && !LogsInAgain(s, maxRequests, e) ==>
            r.session.token == s.token && r.session.secret == s.secret && r.notices == [ReAuthenticating, ReAuthFailed])
  {
    if e.WatcherDone? { ThroughIff(s.breaker, maxRequests, e.timing, !e.reply.LoginFailed?); }
  }

  function RenewalRun(s: Session, maxRequests: nat, events: seq<RenewalEvent>): RenewalState
    decreases |events|
  {
    if events == [] then RenewalState(s, [], true)
    else
      var first := RenewalStep(s, maxRequests, events[0]);
      if !first.running then first
      else
        var rest := RenewalRun(first.session, maxRequests, events[1..]);
        rest.(notices := first.notices + rest.notices)
  }

  ghost predicate InPlace(t: seq<Notice>, i: nat, appRole: bool)
    requires i < |t|
  {
    && (t[i].ReAuthenticated? || t[i].ReAuthFailed? ==> i > 0 && t[i - 1].ReAuthenticating?)
    && (t[i].ReAuthFailed? || t[i].Expired? ==> i == |t| - 1)
    && (t[i].ReAuthenticating? && i + 1 < |t| ==> t[i + 1].ReAuthenticated? || t[i + 1].ReAuthFailed?)
    && (if appRole then !t[i].Expired? else !t[i].ReAuthenticating?)
  }

  /** The order in which notices may appear. */
  ghost predicate WellOrdered(t: seq<Notice>, appRole: bool) {
    forall i :: 0 <= i < |t| ==> InPlace(t, i, appRole)
  }

  predicate Settled(t: seq<Notice>) {
    t == [] || t[|t| - 1].Renewed? || t[|t| - 1].ReAuthenticated?
  }

  lemma WellOrderedAppend(a: seq<Notice>, b: seq<Notice>, appRole: bool)
    requires WellOrdered(a, appRole) && WellOrdered(b, appRole) && Settled(a)
    ensures WellOrdered(a + b, appRole)
  {
    var t := a + b;
    forall i | 0 <= i < |t| ensures InPlace(t, i, appRole) {
      if i < |a| {
        assert InPlace(a, i, appRole);
      } else {
        assert InPlace(b, i - |a|, appRole);
      }
    }
  }

  /** In every renewal run the notices are well ordered, the configuration stays, token and secret stay of one login,
      and the loop is over after a failure or an expiry. */
  lemma {:induction false} RenewalIsWellOrdered(s: Session, maxRequests: nat, events: seq<RenewalEvent>)
    requires s.SameLogin()
    ensures var r := RenewalRun(s, maxRequests, events);
      && WellOrdered(r.notices, s.AppRole())
      && r.session.config == s.config && r.session.SameLogin()
      && (r.running ==> Settled(r.notices))
    decreases |events|
  {
    if events != [] {
      var first := RenewalStep(s, maxRequests, events[0]);
      if first.running {
        RenewalIsWellOrdered(first.session, maxRequests, events[1..]);
        WellOrderedAppend(first.notices, RenewalRun(first.session, maxRequests, events[1..]).notices, s.AppRole());
      }
    }
  }

  /** The token granted last, if any event brings one. */
  function LastToken(token: string, events: seq<RenewalEvent>): string {
    if events == [] then token
    else
      var last := events[|events| - 1];
      if last.WatcherDone? && last.reply.LoginOk? then last.reply.secret.clientToken
      else LastToken(token, events[..|events| - 1])
  }

  /** Renewals, and ends of a watcher that Vault answers with a renewable token. */
  predicate Answered(e: RenewalEvent) {
    || e.RenewalSent?
    || (e.WatcherDone? && !e.stopped && e.timing == Timing(false, false) && e.reply.LoginOk? && e.reply.secret.renewable && e.watcherOk)
  }

  /** What the callback is told of such events. */
  function Told(events: seq<RenewalEvent>): seq<Notice> {
    if events == [] then []
    else
      (match events[0]
       case RenewalSent(lease) => if lease.Some? then [Renewed(lease.value)] else []
       case WatcherDone(_, _, reply, _) =>
         if reply.LoginOk? then [ReAuthenticating, ReAuthenticated(reply.secret.lease)] else []
       case StopRequested => [])
      + Told(events[1..])
  }

  /** An AppRole client whose breaker is closed keeps its session alive for as long as Vault answers: the loop never
      ends, and the client holds the token granted last. */
  lemma {:induction false} RenewalKeepsGoing(s: Session, maxRequests: nat, events: seq<RenewalEvent>)
    requires s.config.Some? && s.config.value.authMethod == "approle"
    requires s.config.value.roleId != "" && s.config.value.secretId != ""
    requires s.breaker.None? || s.breaker.value.state.Closed?
    requires forall e :: e in events ==> Answered(e)
    ensures var r := RenewalRun(s, maxRequests, events);
      r.running && r.session.token == LastToken(s.token, events) && r.notices == Told(events)
    decreases |events|
  {
    if events != [] {
      var first := RenewalStep(s, maxRequests, events[0]);
      assert Answered(events[0]);
      RenewalStepIff(s, maxRequests, events[0]);
      AnsweredKeepsClosed(s, maxRequests, events[0]);
      RenewalKeepsGoing(first.session, maxRequests, events[1..]);
      LastTokenFromFront(s.token, events);
    }
  }

  lemma AnsweredKeepsClosed(s: Session, maxRequests: nat, e: RenewalEvent)
    requires Answered(e) && (s.breaker.None? || s.breaker.value.state.Closed?)
    ensures var s' := RenewalStep(s, maxRequests, e).session;
      s'.config == s.config && (s'.breaker.None? || s'.breaker.value.state.Closed?)
  {
  }

  lemma {:induction false} LastTokenFromFront(token: string, events: seq<RenewalEvent>)
    requires events != []
    ensures var first := if events[0].WatcherDone? && events[0].reply.LoginOk? then events[0].reply.secret.clientToken else token;
      LastToken(token, events) == LastToken(first, events[1..])
  {
    var n := |events| - 1;
    if n == 0 {
      assert events[..0] == [] && events[1..] == [];
    } else {
      LastTokenFromFront(token, events[..n]);
      assert events[..n][0] == events[0] && events[..n][1..] == events[1..][..n - 1] && events[1..][n - 1] == events[n];
    }
  }

  /** A static-token client never logs in again: its session is untouched whatever the renewal loop sees. */
  lemma {:induction false} OnlyAppRoleReLogins(s: Session, maxRequests: nat, events: seq<RenewalEvent>)
    requires !s.AppRole()
    ensures RenewalRun(s, maxRequests, events).session == s
  {
    if events != [] && RenewalStep(s, maxRequests, events[0]).running {
      OnlyAppRoleReLogins(s, maxRequests, events[1..]);
    }
  }

  // ----- Reads -----

  /** What is read: the mount, the key and the KV version, which puts "data" between the two for v2. */
  datatype Location = Location(mountPath: string, secretPath: string, kvVersion: string)

  /** What a client shows Vault on a read: the server it talks to, whose login, which namespace. */
  datatype Identity = Identity(address: string, creds: Option<CredentialSet>, token: string, namespace: string)

  /** A read as Vault sees it. */
  datatype Request = Request(client: Identity, path: string)

  /** The path that is read. */
  function RequestPath(l: Location): string {
    Paths.JoinAll(if l.kvVersion == "v2" then [l.mountPath, "data", l.secretPath] else [l.mountPath, l.secretPath])
  }

  lemma RequestPathIs(l: Location)
    requires l.mountPath != ""
    ensures RequestPath(l) == Paths.Clean(l.mountPath + (if l.kvVersion == "v2" then "/data/" else "/") + l.secretPath)
  {
    assert Paths.Join([l.secretPath]) == l.secretPath;
    assert Paths.Join(["data", l.secretPath]) == "data" + "/" + l.secretPath;
    assert l.mountPath + "/" + ("data" + "/" + l.secretPath) == l.mountPath + "/data/" + l.secretPath;
  }

  /** The namespace a client is left with: an empty one does not clear an earlier one. */
  function Sticky(current: string, namespace: string, called: bool): string {
    if called && namespace != "" then namespace else current
  }

  class Client {
    var authConfig: Option<CredentialSet>
    var token: string
    var authSecret: Option<AuthSecret>
    var namespace: string
    var breaker: Option<Breaker>
    const address: string
    const maxRequests: nat

    ghost function State(): Session
      reads this
    {
      Session(authConfig, token, authSecret, breaker)
    }

    function Shown(): Identity
      reads this
    {
      Identity(address, authConfig, token, namespace)
    }

    constructor (address: string, namespace: string, breaker: Option<Breaker>, maxRequests: nat)
      ensures State() == Session(None, "", None, breaker)
      ensures this.address == address && this.namespace == namespace && this.maxRequests == maxRequests
    {
      authConfig, token, authSecret := None, "", None;
      this.address, this.namespace, this.breaker, this.maxRequests := address, namespace, breaker, maxRequests;
    }

    method Authenticate(config: CredentialSet, timing: Timing, reply: LoginReply) returns (ok: bool)
      modifies this`authConfig, this`token, this`authSecret, this`breaker
      ensures (State(), ok) == Login(old(State()), maxRequests, config, timing, reply)
    {
      authConfig := Some(config);
      if config.authMethod == "token" {
        ok := AuthenticateToken(config.token, timing, reply);
      } else if config.authMethod == "approle" {
        ok := AuthenticateAppRole(config.roleId, config.secretId, timing, reply);
      } else {
        ok := false;
      }
    }

    method AuthenticateToken(newToken: string, timing: Timing, reply: LoginReply) returns (ok: bool)
      modifies this`token, this`breaker
      ensures (State(), ok) == TokenLogin(old(State()), maxRequests, newToken, timing, reply)
    {
      if newToken == "" { return false; }
      token := newToken;
      var (b, called) := Through(breaker, maxRequests, timing, !reply.LoginFailed?);
      breaker := b;
      ok := called && !reply.LoginFailed?;
    }

    method AuthenticateAppRole(roleId: string, secretId: string, timing: Timing, reply: LoginReply) returns (ok: bool)
      modifies this`token, this`authSecret, this`breaker
      ensures (State(), ok) == AppRoleLogin(old(State()), maxRequests, roleId, secretId, timing, reply)
    {
      if roleId == "" || secretId == "" { return false; }
      var (b, called) := Through(breaker, maxRequests, timing, !reply.LoginFailed?);
      breaker := b;
      if !called || !reply.LoginOk? { return false; }
      token := reply.secret.clientToken;
      authSecret := Some(reply.secret);
      ok := true;
    }

    /** One turn of the renewal loop: what the callback is told, and whether the loop goes on. */
    method HandleRenewalEvent(event: RenewalEvent, hasCallback: bool) returns (goOn: bool, told: seq<Notice>)
      modifies this`token, this`authSecret, this`breaker
      ensures var step := RenewalStep(old(State()), maxRequests, event);
        State() == step.session && goOn == step.running && told == if hasCallback then step.notices else []
    {
      goOn, told := false, [];
      match event
      case StopRequested =>
      case RenewalSent(lease) =>
        goOn := true;
        if lease.Some? && hasCallback { told := [Renewed(lease.value)]; }
      case WatcherDone(stopped, timing, reply, newWatcherOk) =>
        if stopped { return; }
        if !(authConfig.Some? && authConfig.value.authMethod == "approle") {
          if hasCallback { told := [Expired]; }
          return;
        }
        if hasCallback { told := [ReAuthenticating]; }
        var loggedIn := AuthenticateAppRole(authConfig.value.roleId, authConfig.value.secretId, timing, reply);
        if !loggedIn {
          if hasCallback { told := told + [ReAuthFailed]; }
          return;
        }
        if authSecret.None? || !authSecret.value.renewable { return; }
        if !newWatcherOk {
          if hasCallback { told := told + [ReAuthFailed]; }
          return;
        }
        if hasCallback { told := told + [ReAuthenticated(authSecret.value.lease)]; }
        goOn := true;
    }

    /** The renewal loop over a finite part of its event stream; without a renewable secret there is no loop. */
    method StartRenewal(watcherOk: bool, events: seq<RenewalEvent>, hasCallback: bool)
      returns (ok: bool, notices: seq<Notice>)
      modifies this`token, this`authSecret, this`breaker
      ensures ok <==> (old(State()).Renewable() ==> watcherOk)
      ensures var run := RenewalRun(old(State()), maxRequests, events);
        if old(State()).Renewable() && ok then State() == run.session && notices == (if hasCallback then run.notices else [])
        else State() == old(State()) && notices == []
    {
      hide RenewalStep;
      notices := [];
      if authSecret.None? || !authSecret.value.renewable { return true, []; }
      if !watcherOk { return false, []; }
      ok := true;
      ghost var all: seq<Notice> := [];
      for i := 0 to |events|
        invariant notices == if hasCallback then all else []
        invariant var rest := RenewalRun(State(), maxRequests, events[i..]);
          RenewalRun(old(State()), maxRequests, events) == rest.(notices := all + rest.notices)
      {
        ghost var step := RenewalStep(State(), maxRequests, events[i]);
        assert events[i..][1..] == events[i + 1..];
        assert forall tail: seq<Notice> :: all + (step.notices + tail) == all + step.notices + tail;
        all := all + step.notices;
        var goOn, told := HandleRenewalEvent(events[i], hasCallback);
        notices := notices + told;
        if !goOn { return; }
      }
    }

    /** One read: the namespace is set inside the breaker, so only when the request goes out. */
    method FetchSecret(location: Location, newNamespace: string, a: Attempt)
      returns (data: Option<SecretData>, sent: seq<Request>)
      modifies this`namespace, this`breaker
      ensures var o := Fetch(old(breaker), maxRequests, location.kvVersion, a);
        && breaker == o.breaker && data == o.data
        && namespace == Sticky(old(namespace), newNamespace, o.called)
        && sent == if o.called then [Request(Shown(), RequestPath(location))] else []
    {
      var (b, called) := Through(breaker, maxRequests, a.timing, !a.response.ReadError?);
      breaker := b;
      if !called { return None, []; }
      if newNamespace != "" { namespace := newNamespace; }
      sent := [Request(Shown(), RequestPath(location))];
      data := Decode(a.response, location.kvVersion);
    }

    method FetchSecretWithRetry(location: Location, newNamespace: string, config: RetryConfig, env: nat -> Attempt)
      returns (data: Option<SecretData>, waits: seq<int>, sent: seq<Request>)
      modifies this`namespace, this`breaker
      ensures var r := RetryFetch(config, maxRequests, location.kvVersion, env, old(breaker));
        && breaker == r.breaker && data == r.data && waits == r.waits && |sent| == r.calls
        && namespace == Sticky(old(namespace), newNamespace, r.calls > 0)
      ensures forall i :: 0 <= i < |sent| ==>
        sent[i] == Request(old(Shown()).(namespace := Sticky(old(namespace), newNamespace, true)), RequestPath(location))
    {
      hide Fetch, NextBackoff, Run, RequestPath;
      data, waits, sent := None, [], [];
      var backoff := config.initial;
      var attempt := 0;
      ghost var all := RetryFetch(config, maxRequests, location.kvVersion, env, breaker);
      ghost var request := Request(Shown().(namespace := Sticky(namespace, newNamespace, true)), RequestPath(location));
      while attempt <= config.maxRetries
        invariant attempt >= 0 && data == None
        invariant all == Extend(waits, attempt, |sent|, Run(config, maxRequests, location.kvVersion, env, breaker, attempt, backoff))
        invariant namespace == Sticky(old(namespace), newNamespace, |sent| > 0)
        invariant forall i :: 0 <= i < |sent| ==> sent[i] == request
      {
        RunUnfolds(config, maxRequests, location.kvVersion, env, breaker, attempt, backoff);
        ghost var earlier, fetched := waits, Fetch(breaker, maxRequests, location.kvVersion, env(attempt));
        ghost var here := Run(config, maxRequests, location.kvVersion, env, breaker, attempt, backoff);
        if attempt > 0 {
          if env(attempt).cancelled { return; }
          waits := waits + [backoff];
          backoff := NextBackoff(config, backoff);
        }
        ghost var waited := waits[|earlier|..];
        var sentNow: seq<Request>;
        data, sentNow := FetchSecret(location, newNamespace, env(attempt));
        assert data.None? ==>
          here == Extend(waited, 1, |sentNow|, Run(config, maxRequests, location.kvVersion, env, breaker, attempt + 1, backoff));
        assert waits == earlier + waited;
        sent := sent + sentNow;
        if data.Some? { return; }
        ExtendTwice(earlier, attempt, |sent| - |sentNow|, waited, 1, |sentNow|,
                    Run(config, maxRequests, location.kvVersion, env, breaker, attempt + 1, backoff));
        attempt := attempt + 1;
      }
      RunUnfolds(config, maxRequests, location.kvVersion, env, breaker, attempt, backoff);
    }
  }

  /** The client factory of the daemon: a new client with its own breaker, kept only if it authenticates. */
  method CreateClient(address: string, creds: CredentialSet, connectOk: bool, initialNamespace: string,
                      maxRequests: nat, timing: Timing, reply: LoginReply) returns (client: Client?)
    ensures client != null <==> connectOk && Login(Session(None, "", None, Some(NEW)), maxRequests, creds, timing, reply).1
    ensures client != null ==> fresh(client) && client.maxRequests == maxRequests
    ensures client != null ==> client.address == address && client.namespace == initialNamespace
    ensures client != null ==>
      client.State() == Login(Session(None, "", None, Some(NEW)), maxRequests, creds, timing, reply).0
  {
    if !connectOk { return null; }
    var c := new Client(address, initialNamespace, Some(NEW), maxRequests);
    var ok := c.Authenticate(creds, timing, reply);
    client := if ok then c else null;
  }
}
