/** The authentication service run by one client at a time: auth/service.go over the session
    store, the users table and the login counters.  Password digests, signing and randomness are
    parameters; a token is the record that was signed.
 */
module AuthService {
  import opened Wrappers
  import opened KeySpace
  import opened SessionStore
  import opened SessionListing
  import opened LoginCounters
  import U = UserTable
  import F = VersionFence
  import G = LoginGate
  import T = Text

  datatype Result<+T> =
    | Ok(value: T) | RateLimited | InvalidCredentials | UserDisabled | InvalidToken | RefreshReuse | SessionNotFound
    | Failed

  /** Comparing a password with a stored digest (nothing if the digest cannot be read), whether
      a digest should be renewed, and renewing it. */
  datatype Passwords = Passwords(check: (string, string) -> Option<bool>, stale: string -> bool,
                                 hash: string -> Option<string>)

  /** What a client is handed: the signed access token and the digest of the refresh token. */
  datatype Grant = Grant(access: F.Claims, refresh: Digest, account: U.User)

  // ---------------------------------------------------------------------------------------
  // Specification
  // ---------------------------------------------------------------------------------------

  function Row(names: map<string, UserId>, users: U.Table, username: string): Option<U.User> {
    var name := T.Folded(username);
    if name in names && names[name] in users then Some(users[names[name]]) else None
  }

  /** The exchange succeeded and the account that was found accepts the session's stamp. */
  predicate Welcome(users: U.Table, answer: RotateReply, found: bool) {
    answer.Rotated? && found && F.Accepts(users, answer.session.user, answer.session.version)
  }

  /** How Refresh ends after the exchange was answered and left the keys `rotated`: it succeeds
      exactly for a welcome session, and ends one that is not. */
  predicate Settled(answer: RotateReply, rotated: Keys, after: Keys, users: U.Table, found: bool, signs: bool,
                    r: Result<Grant>)
  {
    && (r.Ok? <==> Welcome(users, answer, found) && signs)
    && (r == RefreshReuse <==> answer.Reused?)
    && (r == Failed <==> Welcome(users, answer, found) && !signs)
    && (answer.Rejected? ==> r == InvalidToken)
    && (answer.Rotated? && !Welcome(users, answer, found) ==>
          r == InvalidToken && answer.session.id !in after.sessions && after == Revoked(rotated, answer.session))
    && (!answer.Rotated? || Welcome(users, answer, found) ==> after == rotated)
  }

  function NewSession(account: U.User, id: SessionId, family: FamilyId, digest: Digest, now: Time, ttl: Time): Session {
    Session(id, family, account.id, account.version, digest, now, now + ttl)
  }

  /** The stored sessions without one of them, seen by every user. */
  lemma RevokedLive(k: Keys, s: Session, u: UserId)
    requires s.id in k.sessions && k.sessions[s.id].value == s
    ensures Live(Revoked(k, s), u) == Live(k, u) - {s.id}
  {
  }

  lemma CreatedLive(k: Keys, s: Session, now: Time, ttl: Time, u: UserId)
    requires s.id !in k.sessions
    ensures Live(Revoked(Created(k, s, now, ttl), s), u) == Live(k, u)
  {
  }

  lemma CreatedExchangeable(k: Keys, s: Session, now: Time, ttl: Time)
    ensures Exchangeable(Created(k, s, now, ttl), s.digest)
  {
  }

  // ---------------------------------------------------------------------------------------
  // The service
  // ---------------------------------------------------------------------------------------

  class Service {
    const store: Store
    const accessTtl: Time
    const limit: nat
    const window: Time
    const names: map<string, UserId>
    var users: U.Table
    var attempts: map<string, Stored<nat>>
    /** The gate that the logins have passed, with the credential checks made behind it. */
    ghost var gate: G.World

    constructor (store: Store, users: U.Table, names: map<string, UserId>, accessTtl: Time, limit: nat, window: Time)
      requires store.Valid() && 0 < accessTtl && 0 < window && forall u | u in users :: users[u].id == u
      ensures Valid() && Gated() && gate.checks == [] && this.store == store && this.users == users && attempts == map[]
    {
      this.store, this.users, this.names, this.accessTtl := store, users, names, accessTtl;
      this.limit, this.window, attempts := limit, window, map[];
      gate := G.Start(limit, window, names, store.now);
      G.StartReachable(limit, window, names, store.now);
    }

    ghost predicate Valid()
      reads this, store
    {
      store.Valid() && 0 < accessTtl && forall u | u in users :: users[u].id == u
    }

    /** The counters and the checks are those of a run of the gate. */
    ghost predicate Gated()
      reads this`gate, this`attempts, store`now
    {
      && G.Reachable(gate) && Mirrors(gate, attempts, store.now)
      && gate.limit == limit && gate.window == window && 0 < window && gate.names == names
    }

    /** Time passes. */
    method Pass(elapsed: nat)
      requires Valid() && Gated()
      modifies this`gate, store
      ensures Valid() && Gated() && store.now == old(store.now) + elapsed
      ensures store.View() == Purge(old(store.View()), store.now) && gate.checks == old(gate.checks)
    {
      gate := PassedTime(gate, attempts, elapsed);
      store.Pass(elapsed);
    }

    /** Whatever logins and however much time have gone by: at most twice the limit of logins
        within one window have had their password checked against one row. */
    lemma ChecksBounded(row: UserId, from: Time)
      requires Gated() && G.OneName(names)
      ensures |G.ChecksIn(gate, row, from)| <= 2 * limit
    {
      G.ReachableInv(gate);
      G.RowBound(gate, row, from);
    }

    /** One more attempt under a key: let through while the count is within the limit. */
    method Allow(key: string) returns (ok: bool)
      modifies this`attempts
      ensures attempts == Attempted(old(attempts), key, store.now, window)
      ensures key in attempts && attempts == old(attempts)[key := attempts[key]]
      ensures
        if key in old(attempts) && store.now < old(attempts)[key].expiry
        then attempts[key] == Stored(old(attempts)[key].value + 1, old(attempts)[key].expiry)
        else attempts[key] == Stored(1, store.now + window)
      ensures ok <==> attempts[key].value <= limit
    {
      var count, expiry := 1, store.now + window;
      if key in attempts && store.now < attempts[key].expiry {
        count, expiry := attempts[key].value + 1, attempts[key].expiry;
      }
      attempts := attempts[key := Stored(count, expiry)];
      ok := count <= limit;
    }

    /** A password is compared with the digest stored for the folded name, and only one that matches
        is let through; a digest made with other parameters is then replaced by a new one, which
        leaves everything else in the row alone. */
    method VerifyCredentials(username: string, password: string, p: Passwords) returns (r: Result<U.User>)
      requires Valid()
      modifies this`users
      ensures Valid()
      ensures r.Ok? <==>
        && T.Folded(username) in names && names[T.Folded(username)] in old(users)
        && var row := old(users)[names[T.Folded(username)]];
        && p.check(password, row.password) == Some(true) && (p.stale(row.password) ==> p.hash(password).Some?)
      ensures r.Ok? ==>
        && T.Folded(username) in names && names[T.Folded(username)] in old(users)
        && var row := old(users)[names[T.Folded(username)]];
        && p.check(password, row.password) == Some(true)
        && (if p.stale(row.password)
            then p.hash(password).Some?
                 && r.value == row.(password := p.hash(password).value, updatedAt := store.now)
            else r.value == row)
        && users == old(users)[row.id := r.value]
      ensures r == InvalidCredentials <==>
        || T.Folded(username) !in names || names[T.Folded(username)] !in old(users)
        || p.check(password, old(users)[names[T.Folded(username)]].password) == Some(false)
      ensures !r.Ok? ==> users == old(users) && (r == InvalidCredentials || r == Failed)
    {
      var row := Row(names, users, username);
      if row.None? {
        return InvalidCredentials;
      }
      var current := row.value;
      var matched := p.check(password, current.password);
      if matched.None? {
        return Failed;
      }
      if !matched.value {
        return InvalidCredentials;
      }
      if p.stale(current.password) {
        var hash := p.hash(password);
        if hash.None? {
          return Failed;
        }
        current := U.WithPasswordHash(current, hash.value, store.now);
        users := users[current.id := current];
      }
      return Ok(current);
    }

    /** The session and the tokens of an account whose credentials are verified. */
    method Grants(account: U.User, id: SessionId, family: FamilyId, digest: Digest, signs: bool, records: bool)
      returns (r: Result<Grant>)
      requires Valid() && account.id in users && users[account.id] == account
      requires Unused(store.View(), id, digest)
      modifies this`users, store`sessions, store`tokens, store`index
      ensures Valid()
      ensures r.Ok? <==> account.status == U.Enabled && signs && records
      ensures r != RateLimited
      ensures r.Ok? ==> r.value.account == account && r.value.refresh == digest && Exchangeable(store.View(), digest)
      ensures r.Ok? ==>
        r.value.access == F.Claims(id, account.id, account.version, store.now, store.now + accessTtl)
      ensures r.Ok? ==> id in store.sessions && store.sessions[id] == Stored(
        Session(id, family, account.id, account.version, digest, store.now, store.now + store.ttl),
        store.now + store.ttl)
      ensures r.Ok? ==>
        && Live(store.View(), account.id)
           == (if account.multiple then Live(old(store.View()), account.id) else {}) + {id}
        && forall u | u != account.id :: Live(store.View(), u) == Live(old(store.View()), u)
      ensures r.Ok? ==>
        users == old(users)[account.id := account.(lastLogin := Some(store.now), updatedAt := store.now)]
      ensures !r.Ok? ==> users == old(users)
      ensures !r.Ok? ==> r == if account.status != U.Enabled then UserDisabled else Failed
      ensures account.status != U.Enabled ==> store.View() == old(store.View())
      ensures !r.Ok? ==> forall u :: Live(store.View(), u) <= Live(old(store.View()), u)
      ensures !r.Ok? && account.multiple ==> forall u :: Live(store.View(), u) == Live(old(store.View()), u)
    {
      if account.status != U.Enabled {
        return UserDisabled;
      }
      var session := NewSession(account, id, family, digest, store.now, store.ttl);
      ghost var k := if account.multiple then store.View() else Swept(store.View(), account.id);
      SweptRecords(store.View(), account.id);
      SweptCoherent(store.View(), account.id, store.now, store.ttl);
      store.Create(session, account.multiple);
      if !signs || !records {
        forall u ensures Live(Revoked(store.View(), session), u) == Live(k, u) {
          CreatedLive(k, session, store.now, store.ttl, u);
        }
        store.Revoke(id);
        return Failed;
      }
      users := users[account.id := U.WithLogin(account, store.now)];
      CreatedExchangeable(k, session, store.now, store.ttl);
      return Ok(Grant(F.Claims(id, account.id, account.version, store.now, store.now + accessTtl), digest, account));
    }

    /** The two counters of a login: the account's is left alone when the address is refused.  A
        login that is let through goes on to the check of its password. */
    method Admit(username: string, clientKey: string) returns (ok: bool)
      requires Gated()
      modifies this`attempts, this`gate
      ensures Gated()
      ensures ok <==> Passes(old(attempts), username, clientKey, store.now, window, limit)
      ensures ok <==>
        && (if G.AddressKey(clientKey) in old(attempts) && store.now < old(attempts)[G.AddressKey(clientKey)].expiry
            then old(attempts)[G.AddressKey(clientKey)].value + 1 else 1) <= limit
        && (if G.AccountKey(username) in old(attempts) && store.now < old(attempts)[G.AccountKey(username)].expiry
            then old(attempts)[G.AccountKey(username)].value + 1 else 1) <= limit
      ensures attempts == Admitted(old(attempts), username, clientKey, store.now, window, limit)
      ensures G.AddressKey(clientKey) in attempts
      ensures attempts[G.AddressKey(clientKey)].value > limit ==>
        !ok && attempts == old(attempts)[G.AddressKey(clientKey) := attempts[G.AddressKey(clientKey)]]
      ensures forall key | key != G.AddressKey(clientKey) && key != G.AccountKey(username) ::
        key in attempts <==> key in old(attempts)
      ensures forall key | key != G.AddressKey(clientKey) && key != G.AccountKey(username) && key in attempts ::
        attempts[key] == old(attempts)[key]
      ensures Checked(old(gate.checks), gate.checks, ok, username)
    {
      G.KeysApart(clientKey, username);
      ghost var passed := PassedGate(gate, attempts, username, clientKey);
      ok := Allow(G.AddressKey(clientKey));
      if ok {
        ok := Allow(G.AccountKey(username));
      }
      gate := passed;
    }

    /** One more check, of the name's row and at this instant, or none. */
    ghost predicate Checked(before: seq<G.Check>, after: seq<G.Check>, ok: bool, username: string)
      reads store`now
    {
      if ok then
        && |after| == |before| + 1 && after[..|before|] == before
        && after[|before|].row == (if T.Folded(username) in names then Some(names[T.Folded(username)]) else None)
        && after[|before|].at == store.now
      else after == before
    }

    /** The part of Login behind the counters. */
    method Enter(username: string, password: string, p: Passwords, id: SessionId, family: FamilyId, digest: Digest,
                 signs: bool, records: bool)
      returns (r: Result<Grant>)
      requires Valid()
      requires Unused(store.View(), id, digest)
      modifies this`users, store`sessions, store`tokens, store`index
      ensures Valid() && r != RateLimited
      ensures r.Ok? <==>
        && T.Folded(username) in names && names[T.Folded(username)] in old(users)
        && var row := old(users)[names[T.Folded(username)]];
        && p.check(password, row.password) == Some(true) && (p.stale(row.password) ==> p.hash(password).Some?)
        && row.status == U.Enabled && signs && records
      ensures r.Ok? ==>
        var row := old(users)[names[T.Folded(username)]];
        && r.value.account == (if p.stale(row.password)
                               then row.(password := p.hash(password).value, updatedAt := store.now) else row)
        && r.value.access == F.Claims(id, row.id, row.version, store.now, store.now + accessTtl)
        && Entered(old(users), old(store.View()), row, r.value, id, family, digest)
      ensures r == InvalidCredentials <==>
        || T.Folded(username) !in names || names[T.Folded(username)] !in old(users)
        || p.check(password, old(users)[names[T.Folded(username)]].password) == Some(false)
      ensures r == UserDisabled <==>
        && T.Folded(username) in names && names[T.Folded(username)] in old(users)
        && var row := old(users)[names[T.Folded(username)]];
        && p.check(password, row.password) == Some(true) && (p.stale(row.password) ==> p.hash(password).Some?)
        && row.status != U.Enabled
      ensures r == InvalidCredentials || r == UserDisabled ==> store.View() == old(store.View())
      ensures r == InvalidCredentials ==> users == old(users)
      ensures !r.Ok? ==> forall u :: Live(store.View(), u) <= Live(old(store.View()), u)
    {
      var account := VerifyCredentials(username, password, p);
      if !account.Ok? {
        return if account == InvalidCredentials then InvalidCredentials else Failed;
      }
      r := Grants(account.value, id, family, digest, signs, records);
    }

    /** Login: the address and then the account must be within their limits before any password
        is looked at. */
    method Login(username: string, password: string, clientKey: string, p: Passwords, id: SessionId, family: FamilyId,
                 digest: Digest, signs: bool, records: bool)
      returns (r: Result<Grant>)
      requires Valid() && Gated()
      requires Unused(store.View(), id, digest)
      modifies this`users, this`attempts, this`gate, store`sessions, store`tokens, store`index
      ensures Valid() && Gated()
      ensures r == RateLimited <==>
        || (if G.AddressKey(clientKey) in old(attempts) && store.now < old(attempts)[G.AddressKey(clientKey)].expiry
            then old(attempts)[G.AddressKey(clientKey)].value + 1 else 1) > limit
        || (if G.AccountKey(username) in old(attempts) && store.now < old(attempts)[G.AccountKey(username)].expiry
            then old(attempts)[G.AccountKey(username)].value + 1 else 1) > limit
      ensures attempts == Admitted(old(attempts), username, clientKey, store.now, window, limit)
      ensures Checked(old(gate.checks), gate.checks, r != RateLimited, username)
      ensures r == RateLimited ==> users == old(users) && store.View() == old(store.View())
      ensures r != RateLimited ==> (r.Ok? <==>
        && T.Folded(username) in names && names[T.Folded(username)] in old(users)
        && var row := old(users)[names[T.Folded(username)]];
        && p.check(password, row.password) == Some(true) && (p.stale(row.password) ==> p.hash(password).Some?)
        && row.status == U.Enabled && signs && records)
      ensures r.Ok? ==>
        var row := old(users)[names[T.Folded(username)]];
        && r.value.account == (if p.stale(row.password)
                               then row.(password := p.hash(password).value, updatedAt := store.now) else row)
        && r.value.access == F.Claims(id, row.id, row.version, store.now, store.now + accessTtl)
        && Entered(old(users), old(store.View()), row, r.value, id, family, digest)
      ensures r != RateLimited ==> (r == InvalidCredentials <==>
        || T.Folded(username) !in names || names[T.Folded(username)] !in old(users)
        || p.check(password, old(users)[names[T.Folded(username)]].password) == Some(false))
      ensures r != RateLimited ==> (r == UserDisabled <==>
        && T.Folded(username) in names && names[T.Folded(username)] in old(users)
        && var row := old(users)[names[T.Folded(username)]];
        && p.check(password, row.password) == Some(true) && (p.stale(row.password) ==> p.hash(password).Some?)
        && row.status != U.Enabled)
      ensures r == InvalidCredentials || r == UserDisabled ==> store.View() == old(store.View())
      ensures r == InvalidCredentials ==> users == old(users)
      ensures !r.Ok? ==> forall u :: Live(store.View(), u) <= Live(old(store.View()), u)
    {
      var admitted := Admit(username, clientKey);
      if !admitted {
        return RateLimited;
      }
      assert users == old(users) && store.View() == old(store.View());
      r := Enter(username, password, p, id, family, digest, signs, records);
    }

    /** The login is recorded in the row, its session is stored with the row's version for one ttl, next
        to the user's other sessions or alone, and its refresh token can be exchanged. */
    ghost predicate Entered(rows: U.Table, before: Keys, row: U.User, grant: Grant, id: SessionId, family: FamilyId,
                            digest: Digest)
      reads this, store
    {
      && grant.refresh == digest && Exchangeable(store.View(), digest)
      && users == rows[row.id := grant.account.(lastLogin := Some(store.now), updatedAt := store.now)]
      && id in store.sessions && store.sessions[id] == Stored(
           Session(id, family, row.id, row.version, digest, store.now, store.now + store.ttl), store.now + store.ttl)
      && Live(store.View(), row.id) == (if row.multiple then Live(before, row.id) else {}) + {id}
      && forall u | u != row.id :: Live(store.View(), u) == Live(before, u)
    }

    /** The part of Refresh behind the exchange. */
    method Settle(answer: RotateReply, next: Digest, found: bool, signs: bool) returns (r: Result<Grant>)
      requires Valid() && (answer.Rotated? ==> Lookup(store.View(), answer.session.id) == Some(answer.session))
      modifies store`sessions, store`tokens, store`index
      ensures Valid()
      ensures Settled(answer, old(store.View()), store.View(), users, found, signs, r)
      ensures r.Ok? <==>
        && answer.Rotated? && found && signs
        && answer.session.user in users && users[answer.session.user].status == U.Enabled
        && users[answer.session.user].version == answer.session.version
      ensures r.Ok? ==>
        var s := answer.session;
        r.value.access == F.Claims(s.id, s.user, s.version, store.now, store.now + accessTtl)
      ensures r.Ok? ==> r.value.refresh == next && r.value.account == users[r.value.access.user]
    {
      match answer
      case Rejected => return InvalidToken;
      case Reused => return RefreshReuse;
      case Rotated(session) =>
        if !found || !F.Accepts(users, session.user, session.version) {
          store.Revoke(session.id);
          return InvalidToken;
        }
        if !signs {
          return Failed;
        }
        r := Ok(Grant(F.Claims(session.id, session.user, session.version, store.now, store.now + accessTtl), next,
                      users[session.user]));
    }

    /** Refresh: the exchange comes first; a refusal by the account then ends the session.
        `answer` and `rotated` are what the script answered and the keys it left. */
    method Refresh(given: Digest, next: Digest, found: bool, signs: bool)
      returns (r: Result<Grant>, ghost answer: RotateReply, ghost rotated: Keys)
      requires Valid() && next !in store.tokens
      modifies store`sessions, store`tokens, store`index
      ensures Valid()
      ensures answer == RotateAnswer(old(store.View()), given, next, old(store.now) + store.ttl)
      ensures rotated
              == RotateKeys(old(store.View()), given, next, old(store.now) + store.ttl, old(store.now), store.ttl)
      ensures Settled(answer, rotated, store.View(), users, found, signs, r)
      ensures r == RefreshReuse <==> given in old(store.tokens) && old(store.tokens)[given].value.state == Spent
      ensures given in old(store.tokens) && (r == RefreshReuse || r == InvalidToken) ==>
        old(store.tokens)[given].value.session !in store.sessions
        || old(store.sessions)[old(store.tokens)[given].value.session].value.digest != given
      ensures r == Failed ==> !signs
      ensures r.Ok? <==>
        && found && signs
        && given in old(store.tokens) && old(store.tokens)[given].value.state == Active
        && var id := old(store.tokens)[given].value.session;
        && id in old(store.sessions) && old(store.sessions)[id].value.digest == given
        && var s := old(store.sessions)[id].value;
        && s.user in users && users[s.user].status == U.Enabled && users[s.user].version == s.version
      ensures r.Ok? ==>
        var s := old(store.sessions)[old(store.tokens)[given].value.session].value;
        && r.value.access == F.Claims(s.id, s.user, s.version, store.now, store.now + accessTtl)
        && s.id in store.sessions && store.sessions[s.id] == Stored(
             s.(digest := next, expiresAt := store.now + store.ttl), store.now + store.ttl)
      ensures r.Ok? ==> r.value.refresh == next && r.value.account == users[r.value.access.user]
      ensures r.Ok? ==> Exchangeable(store.View(), next)
    {
      var reply := store.Rotate(given, next, store.now + store.ttl);
      answer, rotated := reply, store.View();
      r := Settle(reply, next, found, signs);
    }

    /** Authenticate lets exactly the authentic tokens through. */
    method Authenticate(access: F.Claims) returns (r: Result<(U.User, SessionId)>)
      requires Valid()
      ensures access.expires <= store.now || store.now < access.notBefore ==> r == InvalidToken
      ensures r.Ok? <==>
        && access.notBefore <= store.now < access.expires
        && access.session in store.sessions
        && store.sessions[access.session].value.user == access.user
        && store.sessions[access.session].value.version == access.version
        && access.user in users && users[access.user].status == U.Enabled
        && users[access.user].version == access.version
      ensures r.Ok? ==> r.value == (users[access.user], access.session)
      ensures r.Ok? || r == InvalidToken
    {
      if store.now < access.notBefore || access.expires <= store.now {
        return InvalidToken;
      }
      var session := store.Get(access.session);
      if session.None? {
        return InvalidToken;
      }
      assert SessionCoherent(store.View(), access.session);
      if session.value.user != access.user || session.value.version != access.version {
        return InvalidToken;
      }
      if !F.Accepts(users, access.user, access.version) {
        return InvalidToken;
      }
      return Ok((users[access.user], session.value.id));
    }

    method Logout(id: SessionId)
      requires Valid()
      modifies store`sessions, store`tokens, store`index
      ensures Valid() && id !in store.sessions && store.sessions == old(store.sessions) - {id}
      ensures store.tokens == if id in old(store.sessions)
                              then old(store.tokens) - {old(store.sessions)[id].value.digest} else old(store.tokens)
      ensures forall u :: Live(store.View(), u) == Live(old(store.View()), u) - {id}
    {
      ghost var k := store.View();
      if id in store.sessions {
        assert SessionCoherent(k, id);
        forall u ensures Live(Revoked(k, k.sessions[id].value), u) == Live(k, u) - {id} {
          RevokedLive(k, k.sessions[id].value, u);
        }
      }
      store.Revoke(id);
      assert old(store.sessions) - {id} == store.sessions;
    }

    /** A user ends one of its own sessions; a session of another user is as good as none. */
    method RevokeSession(user: UserId, id: SessionId) returns (r: Result<()>)
      requires Valid()
      modifies store`sessions, store`tokens, store`index
      ensures Valid()
      ensures r == if id in Live(old(store.View()), user) then Ok(()) else SessionNotFound
      ensures r.Ok? <==> id in old(store.sessions) && old(store.sessions)[id].value.user == user
      ensures r.Ok? ==> store.sessions == old(store.sessions) - {id}
      ensures !r.Ok? ==> store.View() == old(store.View())
      ensures Live(store.View(), user) == Live(old(store.View()), user) - {id}
      ensures forall u | u != user :: Live(store.View(), u) == Live(old(store.View()), u)
    {
      var session := store.Get(id);
      if session.None? || session.value.user != user {
        return SessionNotFound;
      }
      Logout(id);
      return Ok(());
    }

    /** Only the current session, if it is one of the user's, is left. */
    method RevokeOtherSessions(user: UserId, current: SessionId)
      requires Valid()
      modifies store`sessions, store`tokens, store`index
      ensures Valid()
      ensures Live(store.View(), user) == Live(old(store.View()), user) * {current}
      ensures forall id :: id in store.sessions <==>
        id in old(store.sessions) && (old(store.sessions)[id].value.user == user ==> id == current)
      ensures forall id | id in store.sessions :: store.sessions[id] == old(store.sessions)[id]
      ensures forall u | u != user :: Live(store.View(), u) == Live(old(store.View()), u)
    {
      ghost var k := store.View();
      var list := store.ListByUser(user);
      assert Lists(k, user, Live(k, user), list);
      for i := 0 to |list|
        invariant Valid()
        invariant store.sessions == k.sessions - Others(list[..i], current)
      {
        OthersStep(list, i, current);
        TakenTogether(k.sessions, Others(list[..i], current), {list[i].id});
        if list[i].id != current {
          Logout(list[i].id);
        }
      }
      assert list[..|list|] == list;
      OthersGone(k, store.View(), user, list, current);
    }

    /** The sessions of a user in their one order. */
    method ListSessions(user: UserId, current: SessionId, text: Text) returns (r: seq<Summary>)
      requires Valid() && Injective(text)
      modifies store`index
      ensures Valid()
      ensures Listing(store.View(), Live(store.View(), user), current, text, r)
      ensures forall i, j | 0 <= i < j < |r| :: r[i].createdAt >= r[j].createdAt
      ensures forall i | 0 <= i < |r| ::
        && r[i].id in store.sessions && store.sessions[r[i].id].value.user == user
        && r[i].createdAt == store.sessions[r[i].id].value.createdAt
        && r[i].expiresAt == store.sessions[r[i].id].value.expiresAt
        && (r[i].current <==> r[i].id == current)
      ensures forall id | id in store.sessions && store.sessions[id].value.user == user ::
        exists i :: 0 <= i < |r| && r[i].id == id
      ensures Live(store.View(), user) == Live(old(store.View()), user)
    {
      var list := store.ListByUser(user);
      var result: seq<Summary> := [];
      for i := 0 to |list|
        invariant |result| == i && forall j | 0 <= j < i :: result[j] == SummaryOf(list[j], current)
      {
        result := result + [SummaryOf(list[i], current)];
      }
      ListsHold(store.View(), user, list, current, result);
      ArrangeSorts(text, Summaries(store.View(), Live(store.View(), user), current), result);
      r := Arrange(text, result);
      ListingTells(store.View(), store.now, store.ttl, user, current, text, r);
    }
  }

  /** The access token of a login is let through, if nothing else happens, exactly while less than
      accessTtl and less than the session's ttl have passed since. */
  method LoginLasts(service: Service, username: string, password: string, clientKey: string, p: Passwords,
                    id: SessionId, family: FamilyId, digest: Digest, signs: bool, records: bool, elapsed: nat)
    returns (r: Result<Grant>, answer: Result<(U.User, SessionId)>)
    requires service.Valid() && service.Gated()
    requires Unused(service.store.View(), id, digest)
    modifies service, service.store
    ensures r.Ok? ==> (answer.Ok? <==> elapsed < service.accessTtl && elapsed < service.store.ttl)
    ensures r.Ok? && answer.Ok? ==> answer.value.0.id == r.value.account.id && answer.value.1 == id
  {
    r := service.Login(username, password, clientKey, p, id, family, digest, signs, records);
    service.Pass(elapsed);
    answer := InvalidToken;
    if r.Ok? {
      answer := service.Authenticate(r.value.access);
    }
  }

  /** So is the access token of a refresh. */
  method RefreshLasts(service: Service, given: Digest, next: Digest, found: bool, signs: bool, elapsed: nat)
    returns (r: Result<Grant>, answer: Result<(U.User, SessionId)>)
    requires service.Valid() && service.Gated() && next !in service.store.tokens
    modifies service, service.store
    ensures r.Ok? ==> (answer.Ok? <==> elapsed < service.accessTtl && elapsed < service.store.ttl)
  {
    ghost var reply, rotated;
    r, reply, rotated := service.Refresh(given, next, found, signs);
    service.Pass(elapsed);
    answer := InvalidToken;
    if r.Ok? {
      answer := service.Authenticate(r.value.access);
    }
  }

  /** The name that is counted is the name that is looked up. */
  lemma CountedIsLookedUp(names: map<string, UserId>, users: U.Table, username: string)
    ensures Row(names, users, T.Folded(username)) == Row(names, users, username)
  {
    T.FoldedTwice(username);
  }

  /** The ids of a list other than the current one. */
  function Others(list: seq<Session>, current: SessionId): set<SessionId> {
    set i | 0 <= i < |list| && list[i].id != current :: list[i].id
  }

  lemma TakenTogether<K, V>(m: map<K, V>, a: set<K>, b: set<K>)
    ensures m - (a + b) == m - a - b && m - (a + {}) == m - a
  {
    assert a + {} == a;
  }

  lemma OthersStep(list: seq<Session>, i: nat, current: SessionId)
    requires i < |list|
    ensures Others(list[..i + 1], current)
            == Others(list[..i], current) + (if list[i].id == current then {} else {list[i].id})
  {
    var more := list[..i + 1];
    forall id | id in Others(list[..i], current) ensures id in Others(more, current) {
      var j :| 0 <= j < i && list[j].id != current && list[j].id == id;
      assert more[j].id == id;
    }
    assert more[i] == list[i];
  }

  lemma OthersGone(k: Keys, k': Keys, user: UserId, list: seq<Session>, current: SessionId)
    requires Lists(k, user, Live(k, user), list) && k'.sessions == k.sessions - Others(list, current)
    ensures Live(k', user) == Live(k, user) * {current} && forall u | u != user :: Live(k', u) == Live(k, u)
    ensures forall id :: id in k'.sessions <==>
              id in k.sessions && (k.sessions[id].value.user == user ==> id == current)
    ensures forall id | id in k'.sessions :: k'.sessions[id] == k.sessions[id]
  {
    forall id | id in k.sessions
      ensures id in Others(list, current) <==> k.sessions[id].value.user == user && id != current
    {
      if id in Live(k, user) {
        var i :| 0 <= i < |list| && list[i].id == id;
      }
    }
  }

  /** What a listing of a user's live sessions shows. */
  lemma ListingTells(k: Keys, now: Time, ttl: Time, user: UserId, current: SessionId, text: Text, r: seq<Summary>)
    requires Injective(text) && Coherent(k, now, ttl) && Listing(k, Live(k, user), current, text, r)
    ensures forall i, j | 0 <= i < j < |r| :: r[i].createdAt >= r[j].createdAt
    ensures forall i | 0 <= i < |r| ::
              && r[i].id in k.sessions && k.sessions[r[i].id].value.user == user
              && r[i].createdAt == k.sessions[r[i].id].value.createdAt
              && r[i].expiresAt == k.sessions[r[i].id].value.expiresAt
              && (r[i].current <==> r[i].id == current)
    ensures forall id | id in k.sessions && k.sessions[id].value.user == user ::
              exists i :: 0 <= i < |r| && r[i].id == id
  {
    forall i, j | 0 <= i < j < |r| ensures r[i].createdAt >= r[j].createdAt { NewestFirst(text, r, i, j); }
    forall id | id in k.sessions ensures k.sessions[id].value.id == id { assert SessionCoherent(k, id); }
    ListingShows(k, Live(k, user), current, text, r);
  }

  /** The summaries of what ListByUser returns. */
  lemma ListsHold(k: Keys, user: UserId, list: seq<Session>, current: SessionId, r: seq<Summary>)
    requires Lists(k, user, Live(k, user), list)
    requires |r| == |list| && forall j | 0 <= j < |list| :: r[j] == SummaryOf(list[j], current)
    ensures Holds(Summaries(k, Live(k, user), current), r)
  {
    forall id | id in Summaries(k, Live(k, user), current) ensures exists i :: 0 <= i < |r| && r[i].id == id {
      var i :| 0 <= i < |list| && list[i].id == id;
      assert r[i].id == id;
    }
  }
}
