/** The version that stamps sessions and access tokens, across PostgreSQL and Redis.  Logins,
    refreshes and authentications of any number of clients interleave with each other, with
    account changes and with everything other clients do to the session store.
 */
module VersionFence {
  import opened Wrappers
  import opened KeySpace
  import opened SessionHistory
  import P = SessionProtocol
  import U = UserTable

  type Client = P.Client

  /** A verified access token: nothing but this record can be presented, since it is signed. */
  datatype Claims = Claims(session: SessionId, user: UserId, version: int, notBefore: Time, expires: Time)

  /** `LoggingIn`: Login with the active row that VerifyCredentials read.  `Signing`: about to
      sign.  `Refreshing`: Refresh after a successful Rotate.  `Authenticating`: Authenticate
      after a token and its session were found to agree. */
  datatype Pc =
    | Idle
    | LoggingIn(account: U.User)
    | Signing(claims: Claims)
    | Refreshing(session: Session)
    | Authenticating(claims: Claims)

  datatype Site = Site(store: P.World, users: U.Table, signed: set<Claims>, clients: map<Client, Pc>)

  datatype Change =
    | Status(status: U.Status)
    | Superuser(superuser: bool)
    | Multiple(multiple: bool)
    | Password(hash: string)

  datatype Action =
    | Redis(step: P.Action)
    | Register(row: U.User)
    | Alter(user: UserId, change: Change, now: Time)
    | Rehash(user: UserId, hash: string, now: Time)
    | RecordLogin(user: UserId, now: Time)
    | EditProfile(user: UserId, now: Time)
    | LoginRead(c: Client, user: UserId)
    | LoginCreate(c: Client, session: Session, now: Time, ttl: Time)
    | Sign(c: Client)
    | RefreshRotate(c: Client, given: Digest, next: Digest, expiresAt: Time)
    | RefreshRead(c: Client, now: Time, ttl: Time)
    | AuthGet(c: Client, claims: Claims, now: Time)
    | AuthRead(c: Client)
    | GiveUp(c: Client)

  function At(f: Site, c: Client): Pc {
    if c in f.clients then f.clients[c] else Idle
  }

  function Moved(f: Site, c: Client, pc: Pc): Site {
    f.(clients := f.clients[c := pc])
  }

  /** SetStatus and SetSuperuser leave the row alone when it has the value already; the other two
      always write. */
  function Altered(u: U.User, change: Change, now: Time): U.User {
    match change
    case Status(status) => if u.status == status then u else U.WithStatus(u, status, now)
    case Superuser(superuser) => if u.superuser == superuser then u else U.WithSuperuser(u, superuser, now)
    case Multiple(multiple) => U.WithMultiple(u, multiple, now)
    case Password(hash) => U.WithPassword(u, hash, now)
  }

  /** Which changes write the row: those of the status and of the superuser flag exactly if the value
      is another one, the others always; each writes its own column and the next version. */
  lemma AlteredExactly(u: U.User, change: Change, now: Time)
    ensures change.Status? ==> Altered(u, change, now) == if u.status == change.status then u else
              u.(status := change.status, archivedAt := if change.status == U.Archived then Some(now) else None,
                 version := u.version + 1, updatedAt := now)
    ensures change.Superuser? ==> Altered(u, change, now) == if u.superuser == change.superuser then u else
              u.(superuser := change.superuser, version := u.version + 1, updatedAt := now)
    ensures change.Multiple? ==>
              Altered(u, change, now) == u.(multiple := change.multiple, version := u.version + 1, updatedAt := now)
    ensures change.Password? ==>
              Altered(u, change, now) == u.(password := change.hash, passwordChangedAt := now,
                                            version := u.version + 1, updatedAt := now)
  {
  }

  /** What Refresh and Authenticate ask of the row they read. */
  predicate Accepts(users: U.Table, user: UserId, version: int) {
    user in users && users[user].status == U.Enabled && users[user].version == version
  }

  ghost predicate CanCreateFor(f: Site, c: Client, s: Session)
    requires At(f, c).LoggingIn?
  {
    var account := At(f, c).account;
    && s.user == account.id && s.version == account.version
    && P.At(f.store, c) == (if account.multiple then P.Idle else P.Cleared(account.id))
    && P.Enabled(f.store, P.CreateExec(c, s))
  }

  ghost predicate Enabled(f: Site, a: Action) {
    match a
    case Redis(step) => P.Enabled(f.store, step) && !step.CreateExec?
    case Register(u) => u.id !in f.users && u.version == 1
    case Alter(user, _, _) => user in f.users
    case Rehash(user, _, _) => user in f.users
    case RecordLogin(user, _) => user in f.users
    case EditProfile(user, _) => user in f.users
    case LoginRead(c, user) => At(f, c).Idle? && user in f.users
    case LoginCreate(c, s, _, _) => At(f, c).LoggingIn? && CanCreateFor(f, c, s)
    case Sign(c) => At(f, c).Signing?
    case RefreshRotate(c, given, next, expiresAt) =>
      At(f, c).Idle? && P.Enabled(f.store, P.RotateEval(given, next, expiresAt))
    case RefreshRead(c, _, _) => At(f, c).Refreshing?
    case AuthGet(c, claims, _) => At(f, c).Idle? && claims in f.signed
    case AuthRead(c) => At(f, c).Authenticating?
    case GiveUp(_) => true
  }

  function SessionAgrees(k: Keys, claims: Claims): bool {
    claims.session in k.sessions
    && k.sessions[claims.session].value.user == claims.user
    && k.sessions[claims.session].value.version == claims.version
  }

  function Next(f: Site, a: Action): Site
    requires Enabled(f, a)
  {
    match a
    case Redis(step) => f.(store := P.Next(f.store, step))
    case Register(u) => f.(users := f.users[u.id := u])
    case Alter(user, change, now) => f.(users := f.users[user := Altered(f.users[user], change, now)])
    case Rehash(user, hash, now) => f.(users := f.users[user := U.WithPasswordHash(f.users[user], hash, now)])
    case RecordLogin(user, now) => f.(users := f.users[user := U.WithLogin(f.users[user], now)])
    case EditProfile(user, now) => f.(users := f.users[user := U.WithProfile(f.users[user], now)])
    case LoginRead(c, user) => if f.users[user].status == U.Enabled then Moved(f, c, LoggingIn(f.users[user])) else f
    case LoginCreate(c, s, now, ttl) =>
      Moved(f.(store := P.Next(f.store, P.CreateExec(c, s))), c,
            Signing(Claims(s.id, s.user, s.version, now, now + ttl)))
    case Sign(c) => Moved(f.(signed := f.signed + {At(f, c).claims}), c, Idle)
    case RefreshRotate(c, given, next, expiresAt) =>
      var step := P.RotateEval(given, next, expiresAt);
      Moved(f.(store := P.Next(f.store, step)), c,
            match P.Answer(f.store, step) case Rotated(s) => Refreshing(s) case _ => Idle)
    case RefreshRead(c, now, ttl) =>
      var s := At(f, c).session;
      Moved(f, c, if Accepts(f.users, s.user, s.version) then Signing(Claims(s.id, s.user, s.version, now, now + ttl))
                  else Idle)
    case AuthGet(c, claims, now) =>
      Moved(f, c, if claims.notBefore <= now < claims.expires && SessionAgrees(f.store.core.keys, claims)
                  then Authenticating(claims) else Idle)
    case AuthRead(c) => Moved(f, c, Idle)
    case GiveUp(c) => Moved(f, c, Idle)
  }

  /** The stamp that a step lets through after reading the user's row: an authentication or a
      refresh that succeeds. */
  datatype Verdict = Nothing | Accepted(user: UserId, session: SessionId, version: int)

  function Decision(f: Site, a: Action): Verdict
    requires Enabled(f, a)
  {
    match a
    case AuthRead(c) =>
      var claims := At(f, c).claims;
      if Accepts(f.users, claims.user, claims.version) then Accepted(claims.user, claims.session, claims.version)
      else Nothing
    case RefreshRead(c, _, _) =>
      var s := At(f, c).session;
      if Accepts(f.users, s.user, s.version) then Accepted(s.user, s.id, s.version) else Nothing
    case _ => Nothing
  }

  ghost predicate Runs(f: Site, run: seq<Action>)
    decreases |run|
  {
    run == [] || (Enabled(f, run[0]) && Runs(Next(f, run[0]), run[1..]))
  }

  ghost function After(f: Site, run: seq<Action>): Site
    requires Runs(f, run)
    decreases |run|
  {
    if run == [] then f else After(Next(f, run[0]), run[1..])
  }

  function Start(ttl: Time, now: Time): Site {
    Site(P.Start(ttl, now), map[], {}, map[])
  }

  // ---------------------------------------------------------------------------------------
  // No stamp is ahead of its user's row
  // ---------------------------------------------------------------------------------------

  ghost predicate StampAtMost(users: U.Table, user: UserId, version: int) {
    user in users && version <= users[user].version
  }

  ghost predicate PcStamped(users: U.Table, pc: Pc) {
    match pc
    case Idle => true
    case LoggingIn(account) => StampAtMost(users, account.id, account.version)
    case Signing(claims) => StampAtMost(users, claims.user, claims.version)
    case Refreshing(s) => StampAtMost(users, s.user, s.version)
    case Authenticating(claims) => StampAtMost(users, claims.user, claims.version)
  }

  ghost predicate SessionsStamped(users: U.Table, k: Keys) {
    forall id | id in k.sessions :: StampAtMost(users, k.sessions[id].value.user, k.sessions[id].value.version)
  }

  ghost predicate Stamped(f: Site) {
    && (forall id | id in f.users :: f.users[id].id == id)
    && SessionsStamped(f.users, f.store.core.keys)
    && (forall x | x in f.signed :: StampAtMost(f.users, x.user, x.version))
    && (forall c | c in f.clients :: PcStamped(f.users, f.clients[c]))
  }

  /** Rows stay and versions never go down. */
  ghost predicate Ages(users: U.Table, users': U.Table) {
    forall id | id in users :: id in users' && users[id].version <= users'[id].version
  }

  lemma AgeKeeps(users: U.Table, users': U.Table, k: Keys)
    requires Ages(users, users') && SessionsStamped(users, k)
    ensures SessionsStamped(users', k)
  {
  }

  /** Nothing but a login puts a stamp into the store. */
  ghost predicate KeepsStamps(k: Keys, k': Keys) {
    forall id | id in k'.sessions ::
      && id in k.sessions
      && k'.sessions[id].value.user == k.sessions[id].value.user
      && k'.sessions[id].value.version == k.sessions[id].value.version
  }

  lemma RotateKeepsStamps(k: Keys, given: Digest, next: Digest, expiresAt: Time, now: Time, ttl: Time)
    ensures KeepsStamps(k, RotateKeys(k, given, next, expiresAt, now, ttl))
  {
  }

  lemma StoreKeepsStamps(w: P.World, step: P.Action)
    requires P.Enabled(w, step) && !step.CreateExec?
    ensures KeepsStamps(w.core.keys, P.Next(w, step).core.keys)
  {
    if step.RotateEval? {
      RotateKeepsStamps(w.core.keys, step.given, step.next, step.expiresAt, w.core.now, w.core.ttl);
    }
  }

  /** Whoever writes a row leaves its id and does not lower its version. */
  lemma RowAges(f: Site, a: Action, id: UserId)
    requires Enabled(f, a) && id in f.users && f.users[id].id == id
    ensures id in Next(f, a).users && Next(f, a).users[id].id == id
    ensures f.users[id].version <= Next(f, a).users[id].version
  {
  }

  lemma UsersAge(f: Site, a: Action)
    requires Stamped(f) && Enabled(f, a)
    ensures Ages(f.users, Next(f, a).users)
    ensures forall id | id in Next(f, a).users :: Next(f, a).users[id].id == id
  {
    forall id | id in f.users
      ensures id in Next(f, a).users && Next(f, a).users[id].id == id
      ensures f.users[id].version <= Next(f, a).users[id].version
    {
      RowAges(f, a, id);
    }
    NewRows(f, a);
  }

  lemma NewRows(f: Site, a: Action)
    requires Enabled(f, a)
    ensures forall id | id in Next(f, a).users :: id in f.users || (a.Register? && id == a.row.id)
    ensures a.Register? ==> Next(f, a).users[a.row.id] == a.row
  {
  }

  lemma SessionsStep(f: Site, a: Action)
    requires Stamped(f) && Enabled(f, a)
    ensures SessionsStamped(Next(f, a).users, Next(f, a).store.core.keys)
  {
    UsersAge(f, a);
    AgeKeeps(f.users, Next(f, a).users, f.store.core.keys);
    match a
    case Redis(step) => StoreKeepsStamps(f.store, step);
    case RefreshRotate(_, given, next, expiresAt) => StoreKeepsStamps(f.store, P.RotateEval(given, next, expiresAt));
    case LoginCreate(c, s, _, _) => assert PcStamped(f.users, f.clients[c]);
    case _ =>
  }

  /** The client that moved carries a stamp no newer than the row. */
  lemma PcStep(f: Site, a: Action, c: Client)
    requires Stamped(f) && Enabled(f, a) && c in Next(f, a).clients
    ensures PcStamped(Next(f, a).users, Next(f, a).clients[c])
  {
    UsersAge(f, a);
    if c in f.clients { assert PcStamped(f.users, f.clients[c]); }
  }

  lemma StepStamped(f: Site, a: Action)
    requires Stamped(f) && Enabled(f, a)
    ensures Stamped(Next(f, a)) && Ages(f.users, Next(f, a).users)
  {
    var f' := Next(f, a);
    UsersAge(f, a);
    SessionsStep(f, a);
    forall c | c in f'.clients ensures PcStamped(f'.users, f'.clients[c]) { PcStep(f, a, c); }
    if a.Sign? { assert PcStamped(f.users, f.clients[a.c]); }
  }

  lemma {:induction false} RunStamped(f: Site, run: seq<Action>)
    requires Stamped(f) && Runs(f, run)
    ensures Stamped(After(f, run)) && Ages(f.users, After(f, run).users)
    decreases |run|
  {
    if run != [] {
      StepStamped(f, run[0]);
      RunStamped(Next(f, run[0]), run[1..]);
    }
  }

  // ---------------------------------------------------------------------------------------
  // The fence
  // ---------------------------------------------------------------------------------------

  ghost predicate PcBelow(pc: Pc, user: UserId, version: int) {
    match pc
    case Idle => true
    case LoggingIn(account) => account.id == user ==> account.version < version
    case Signing(claims) => claims.user == user ==> claims.version < version
    case Refreshing(s) => s.user == user ==> s.version < version
    case Authenticating(claims) => claims.user == user ==> claims.version < version
  }

  /** Every session and token of the user, and everything in flight that could still become one,
      carries an older version: logins that have read the row, refreshes that have rotated. */
  ghost predicate AllOutdated(f: Site, user: UserId, version: int) {
    && (forall id | id in f.store.core.keys.sessions && f.store.core.keys.sessions[id].value.user == user ::
          f.store.core.keys.sessions[id].value.version < version)
    && (forall x | x in f.signed && x.user == user :: x.version < version)
    && (forall c | c in f.clients :: PcBelow(f.clients[c], user, version))
  }

  /** A change that writes the row outdates everything stamped before it. */
  lemma ChangeOutdatesAll(f: Site, a: Action)
    requires Stamped(f) && a.Alter? && Enabled(f, a)
    requires Altered(f.users[a.user], a.change, a.now) != f.users[a.user]
    ensures AllOutdated(Next(f, a), a.user, Next(f, a).users[a.user].version)
  {
    var f' := Next(f, a);
    var k, v := f.store.core.keys, f.users[a.user].version;
    assert f'.users[a.user].version == v + 1;
    forall id | id in k.sessions && k.sessions[id].value.user == a.user ensures k.sessions[id].value.version <= v {
      assert StampAtMost(f.users, k.sessions[id].value.user, k.sessions[id].value.version);
    }
    forall c | c in f'.clients ensures PcBelow(f'.clients[c], a.user, v + 1) {
      assert PcStamped(f.users, f.clients[c]);
    }
  }

  /** No other step outdates anything: logins, rehashes and edits of a profile leave the version and the
      status of every row as they are. */
  lemma OnlyAlterOutdates(f: Site, a: Action, id: UserId)
    requires Enabled(f, a) && id in f.users && !(a.Alter? && a.user == id)
    ensures id in Next(f, a).users && Next(f, a).users[id].version == f.users[id].version
    ensures Next(f, a).users[id].status == f.users[id].status && Next(f, a).users[id].multiple == f.users[id].multiple
  {
  }

  lemma FenceFrom(f: Site, a: Action, run: seq<Action>, last: Action)
    requires Stamped(f) && a.Alter? && Enabled(f, a)
    requires Altered(f.users[a.user], a.change, a.now) != f.users[a.user]
    requires Runs(Next(f, a), run) && Enabled(After(Next(f, a), run), last)
    ensures AllOutdated(Next(f, a), a.user, Next(f, a).users[a.user].version)
    ensures var d := Decision(After(Next(f, a), run), last);
            d.Accepted? && d.user == a.user ==> d.version >= Next(f, a).users[a.user].version
  {
    ChangeOutdatesAll(f, a);
    StepStamped(f, a);
    RunStamped(Next(f, a), run);
  }

  /** The fence: after a change that wrote the user's row, in every continuation, whether or not
      any revocation ever reaches Redis and whatever the status becomes later, no
      authentication or refresh that reads the row accepts a stamp older than the change; and at
      the change everything existing or in flight has such a stamp. */
  lemma FenceHolds(ttl: Time, now: Time, before: seq<Action>, a: Action, run: seq<Action>, last: Action)
    requires Runs(Start(ttl, now), before) && a.Alter? && Enabled(After(Start(ttl, now), before), a)
    requires var row := After(Start(ttl, now), before).users[a.user]; Altered(row, a.change, a.now) != row
    requires var f := Next(After(Start(ttl, now), before), a); Runs(f, run) && Enabled(After(f, run), last)
    ensures var f := Next(After(Start(ttl, now), before), a);
            && AllOutdated(f, a.user, f.users[a.user].version)
            && (Decision(After(f, run), last).Accepted? && Decision(After(f, run), last).user == a.user ==>
                  Decision(After(f, run), last).version >= f.users[a.user].version)
  {
    RunStamped(Start(ttl, now), before);
    FenceFrom(After(Start(ttl, now), before), a, run, last);
  }

  // ---------------------------------------------------------------------------------------
  // What was checked before a token is let through, and how long it lasts
  // ---------------------------------------------------------------------------------------

  lemma {:induction false} PrefixRuns(f: Site, run: seq<Action>, i: nat)
    requires Runs(f, run) && i <= |run|
    ensures Runs(f, run[..i]) && (i < |run| ==> Enabled(After(f, run[..i]), run[i]))
    decreases i
  {
    if i > 0 {
      assert run[..i][1..] == run[1..][..i - 1] && run[1..][..i - 1] == run[1..i];
      PrefixRuns(Next(f, run[0]), run[1..], i - 1);
    }
  }

  lemma PrefixAfter(f: Site, run: seq<Action>, i: nat)
    requires Runs(f, run) && 0 < i <= |run|
    ensures Runs(f, run[..i]) && Runs(Next(f, run[0]), run[1..][..i - 1])
    ensures After(f, run[..i]) == After(Next(f, run[0]), run[1..][..i - 1])
  {
    PrefixRuns(f, run, i);
    assert run[..i][1..] == run[1..][..i - 1];
  }

  /** The step after which a client stood where it stands at the end: before the run, or the step
      that took it there. */
  lemma {:induction false} CameBy(f: Site, run: seq<Action>, c: Client) returns (i: nat)
    requires Runs(f, run)
    ensures i <= |run| && Runs(f, run[..i])
    ensures i == |run| ==> At(After(f, run), c) == At(f, c)
    ensures i < |run| ==>
      && Enabled(After(f, run[..i]), run[i]) && Mover(run[i]) == Some(c)
      && At(Next(After(f, run[..i]), run[i]), c) == At(After(f, run), c)
    decreases |run|
  {
    if run == [] {
      i := 0;
    } else {
      var j := CameBy(Next(f, run[0]), run[1..], c);
      if j < |run[1..]| {
        i := j + 1;
        PrefixAfter(f, run, i);
      } else if Mover(run[0]) == Some(c) {
        i := 0;
      } else {
        OthersStay(f, run[0], c);
        i := |run|;
        assert run[..i] == run;
      }
    }
  }

  /** An authentication is let through exactly if its row is an active one of the token's version; and
      its client had found, at an instant within the validity of the token, which had been signed,
      that the session was stored with the token's user and version. */
  lemma AuthenticatedExactly(ttl: Time, now: Time, run: seq<Action>, last: Action) returns (i: nat)
    requires Runs(Start(ttl, now), run) && last.AuthRead? && Enabled(After(Start(ttl, now), run), last)
    ensures i < |run| && Runs(Start(ttl, now), run[..i])
    ensures
      var earlier, f := After(Start(ttl, now), run[..i]), After(Start(ttl, now), run);
      && At(f, last.c).Authenticating?
      && var x := At(f, last.c).claims;
      && run[i].AuthGet? && run[i].c == last.c && run[i].claims == x
      && x.notBefore <= run[i].now < x.expires && x in earlier.signed
      && x.session in earlier.store.core.keys.sessions
      && earlier.store.core.keys.sessions[x.session].value.user == x.user
      && earlier.store.core.keys.sessions[x.session].value.version == x.version
      && (Decision(f, last).Accepted? <==>
            x.user in f.users && f.users[x.user].status == U.Enabled && f.users[x.user].version == x.version)
      && (Decision(f, last).Accepted? ==> Decision(f, last) == Accepted(x.user, x.session, x.version))
  {
    i := CameBy(Start(ttl, now), run, last.c);
  }

  /** A refresh is let through exactly if its row is an active one of the session's version; and its
      client had exchanged a digest for that session. */
  lemma RefreshedExactly(ttl: Time, now: Time, run: seq<Action>, last: Action) returns (i: nat)
    requires Runs(Start(ttl, now), run) && last.RefreshRead? && Enabled(After(Start(ttl, now), run), last)
    ensures i < |run| && Runs(Start(ttl, now), run[..i])
    ensures
      var earlier, f := After(Start(ttl, now), run[..i]), After(Start(ttl, now), run);
      && At(f, last.c).Refreshing?
      && var s := At(f, last.c).session;
      && run[i].RefreshRotate? && run[i].c == last.c
      && RotateAnswer(earlier.store.core.keys, run[i].given, run[i].next, run[i].expiresAt) == Rotated(s)
      && (Decision(f, last).Accepted? <==>
            s.user in f.users && f.users[s.user].status == U.Enabled && f.users[s.user].version == s.version)
      && At(Next(f, last), last.c)
         == if Decision(f, last).Accepted? then Signing(Claims(s.id, s.user, s.version, last.now, last.now + last.ttl))
            else Idle
  {
    i := CameBy(Start(ttl, now), run, last.c);
  }

  lemma {:induction false} WhenSigned(f: Site, run: seq<Action>, x: Claims) returns (i: nat)
    requires Runs(f, run) && x in After(f, run).signed && x !in f.signed
    ensures i < |run| && Runs(f, run[..i]) && run[i].Sign? && At(After(f, run[..i]), run[i].c) == Signing(x)
    decreases |run|
  {
    if x in Next(f, run[0]).signed {
      i := 0;
    } else {
      var j := WhenSigned(Next(f, run[0]), run[1..], x);
      i := j + 1;
      PrefixAfter(f, run, i);
    }
  }

  /** Every token that was signed begins at the instant, and lasts for the lifetime, that its login or
      its refresh gave it, and a login is one of an account that was active and had the token's
      version when it was read. */
  lemma SignedExactly(ttl: Time, now: Time, run: seq<Action>, x: Claims) returns (i: nat)
    requires Runs(Start(ttl, now), run) && x in After(Start(ttl, now), run).signed
    ensures i < |run| && Runs(Start(ttl, now), run[..i])
    ensures run[i].LoginCreate? || run[i].RefreshRead?
    ensures x.notBefore == run[i].now && x.expires == run[i].now + run[i].ttl
    ensures run[i].LoginCreate? ==>
      var s := run[i].session;
      && x.session == s.id && x.user == s.user && x.version == s.version
      && At(After(Start(ttl, now), run[..i]), run[i].c).LoggingIn?
      && At(After(Start(ttl, now), run[..i]), run[i].c).account.status == U.Enabled
      && At(After(Start(ttl, now), run[..i]), run[i].c).account.version == x.version
  {
    var f0 := Start(ttl, now);
    var j := WhenSigned(f0, run, x);
    i := CameBy(f0, run[..j], run[j].c);
    assert run[..j][..i] == run[..i] && run[..j][i] == run[i];
    if run[i].LoginCreate? {
      PrefixRuns(f0, run, i);
      var k := CameBy(f0, run[..i], run[i].c);
    }
  }

  // ---------------------------------------------------------------------------------------
  // A session that a replay killed serves only those who had already found it
  // ---------------------------------------------------------------------------------------

  lemma StoreStep(f: Site, a: Action)
    requires P.WorldOk(f.store) && Enabled(f, a)
    ensures P.WorldOk(Next(f, a).store) && Grows(f.store.core, Next(f, a).store.core)
  {
    match a
    case Redis(step) => P.StepKeeps(f.store, step);
    case LoginCreate(c, s, _, _) => P.StepKeeps(f.store, P.CreateExec(c, s));
    case RefreshRotate(_, given, next, expiresAt) => P.StepKeeps(f.store, P.RotateEval(given, next, expiresAt));
    case _ =>
  }

  lemma {:induction false} StoreRuns(f: Site, run: seq<Action>)
    requires P.WorldOk(f.store) && Runs(f, run)
    ensures P.WorldOk(After(f, run).store) && Grows(f.store.core, After(f, run).store.core)
    decreases |run|
  {
    if run != [] {
      StoreStep(f, run[0]);
      StoreRuns(Next(f, run[0]), run[1..]);
    }
  }

  /** A client that has found the session and is about to read the user's row: Authenticate after
      its GET, Refresh after its Rotate. */
  predicate InFlight(pc: Pc, id: SessionId) {
    (pc.Authenticating? && pc.claims.session == id) || (pc.Refreshing? && pc.session.id == id)
  }

  /** The row that it is about to read, and the version it is about to ask for. */
  function Stamp(pc: Pc): (UserId, int)
    requires pc.Authenticating? || pc.Refreshing?
  {
    if pc.Authenticating? then (pc.claims.user, pc.claims.version) else (pc.session.user, pc.session.version)
  }

  /** The client whose program counter a step moves. */
  function Mover(a: Action): Option<Client> {
    match a
    case LoginRead(c, _) => Some(c)
    case LoginCreate(c, _, _, _) => Some(c)
    case Sign(c) => Some(c)
    case RefreshRotate(c, _, _, _) => Some(c)
    case RefreshRead(c, _, _) => Some(c)
    case AuthGet(c, _, _) => Some(c)
    case AuthRead(c) => Some(c)
    case GiveUp(c) => Some(c)
    case _ => None
  }

  /** The client makes no step in the run. */
  predicate Waits(run: seq<Action>, c: Client) {
    forall i | 0 <= i < |run| :: Mover(run[i]) != Some(c)
  }

  ghost predicate Dead(f: Site, id: SessionId) {
    P.WorldOk(f.store) && id in f.store.core.past.born && id !in f.store.core.keys.sessions
  }

  /** The answers of the store for a dead session. */
  lemma DeadUnanswered(f: Site, a: Action, id: SessionId)
    requires Dead(f, id) && Enabled(f, a)
    ensures a.AuthGet? && a.claims.session == id ==> At(Next(f, a), a.c) == Idle
    ensures a.RefreshRotate? && At(Next(f, a), a.c).Refreshing? ==> At(Next(f, a), a.c).session.id != id
  {
    P.DeadForGood(f.store, [], id);
  }

  lemma OthersStay(f: Site, a: Action, c: Client)
    requires Enabled(f, a) && Mover(a) != Some(c)
    ensures At(Next(f, a), c) == At(f, c)
  {
  }

  /** Nobody new gets hold of a dead session. */
  lemma StepInFlight(f: Site, a: Action, id: SessionId, c: Client)
    requires Dead(f, id) && Enabled(f, a)
    ensures InFlight(At(Next(f, a), c), id) <==> InFlight(At(f, c), id) && Mover(a) != Some(c)
    ensures Mover(a) != Some(c) ==> At(Next(f, a), c) == At(f, c)
  {
    if Mover(a) != Some(c) {
      OthersStay(f, a, c);
    } else {
      DeadUnanswered(f, a, id);
      MoverLeaves(f, a, id);
    }
  }

  lemma MoverLeaves(f: Site, a: Action, id: SessionId)
    requires Enabled(f, a) && Mover(a).Some?
    requires a.AuthGet? && a.claims.session == id ==> At(Next(f, a), a.c) == Idle
    requires a.RefreshRotate? && At(Next(f, a), a.c).Refreshing? ==> At(Next(f, a), a.c).session.id != id
    ensures !InFlight(At(Next(f, a), a.c), id)
  {
  }

  lemma StaysDead(f: Site, a: Action, id: SessionId)
    requires Dead(f, id) && Enabled(f, a)
    ensures Dead(Next(f, a), id)
  {
    StoreStep(f, a);
  }

  lemma {:induction false} RunInFlight(f: Site, run: seq<Action>, id: SessionId, c: Client)
    requires Dead(f, id) && Runs(f, run)
    ensures InFlight(At(After(f, run), c), id) <==> InFlight(At(f, c), id) && Waits(run, c)
    ensures Waits(run, c) ==> At(After(f, run), c) == At(f, c)
    decreases |run|
  {
    if run != [] {
      StepInFlight(f, run[0], id, c);
      StaysDead(f, run[0], id);
      RunInFlight(Next(f, run[0]), run[1..], id, c);
      WaitsOn(run, c);
    }
  }

  lemma WaitsOn(run: seq<Action>, c: Client)
    requires run != []
    ensures Waits(run, c) <==> Mover(run[0]) != Some(c) && Waits(run[1..], c)
  {
    if Mover(run[0]) != Some(c) && Waits(run[1..], c) {
      forall i | 0 <= i < |run| ensures Mover(run[i]) != Some(c) {
        if i > 0 { assert run[i] == run[1..][i - 1]; }
      }
    }
  }

  /** Who reads the row, and what is decided. */
  lemma DecisionOf(f: Site, last: Action, id: SessionId)
    requires Enabled(f, last)
    ensures Decision(f, last).Accepted? && Decision(f, last).session == id <==>
            && (last.AuthRead? || last.RefreshRead?) && InFlight(At(f, last.c), id)
            && Accepts(f.users, Stamp(At(f, last.c)).0, Stamp(At(f, last.c)).1)
  {
  }

  lemma DeadServesOnlyInFlight(f: Site, run: seq<Action>, last: Action, id: SessionId)
    requires Dead(f, id) && Runs(f, run) && Enabled(After(f, run), last)
    ensures var f' := After(f, run);
            Decision(f', last).Accepted? && Decision(f', last).session == id <==>
              && (last.AuthRead? || last.RefreshRead?) && InFlight(At(f, last.c), id) && Waits(run, last.c)
              && Accepts(f'.users, Stamp(At(f, last.c)).0, Stamp(At(f, last.c)).1)
  {
    DecisionOf(After(f, run), last, id);
    if last.AuthRead? || last.RefreshRead? {
      RunInFlight(f, run, id, last.c);
    }
  }

  /** A digest is presented that was exchanged less than one ttl ago, while its session lives. */
  ghost predicate Replays(f: Site, a: Action) {
    var past := f.store.core.past;
    && a.RefreshRotate? && Enabled(f, a)
    && a.given in past.owner && past.owner[a.given] in f.store.core.keys.sessions
    && a.given in past.spentAt && f.store.core.now < past.spentAt[a.given] + f.store.core.ttl
  }

  lemma RotateInSite(f: Site, a: Action)
    requires a.RefreshRotate? && Enabled(f, a)
    ensures Next(f, a).store.core == Rotate(f.store.core, a.given, a.next, a.expiresAt)
    ensures RotateAnswer(f.store.core.keys, a.given, a.next, a.expiresAt) == Reused ==> At(Next(f, a), a.c) == Idle
  {
  }

  lemma OwnerBorn(h: Past, d: Digest)
    requires PastOk(h) && d in h.owner
    ensures h.owner[d] in h.born
  {
    assert DigestOk(h, d);
  }

  lemma ReplayAnswered(f: Site, a: Action)
    requires P.WorldOk(f.store) && Replays(f, a)
    ensures At(Next(f, a), a.c) == Idle && Dead(Next(f, a), f.store.core.past.owner[a.given])
  {
    OwnerBorn(f.store.core.past, a.given);
    ReplayRecognised(f.store.core, a.given, a.next, a.expiresAt);
    RotateInSite(f, a);
    StoreStep(f, a);
  }

  /** A digest is replayed.  That refresh is refused.  Afterwards, in every continuation, an
      authentication or a refresh is accepted for the session exactly if its client had found the
      session before the replay, has waited ever since, and the row still accepts the stamp. */
  lemma ReplayedSessionServesOnlyInFlight(ttl: Time, now: Time, before: seq<Action>, a: Action, run: seq<Action>,
                                          last: Action)
    requires 0 < ttl && Runs(Start(ttl, now), before) && Replays(After(Start(ttl, now), before), a)
    requires var f := Next(After(Start(ttl, now), before), a); Runs(f, run) && Enabled(After(f, run), last)
    ensures var f0 := After(Start(ttl, now), before);
            var id, f, f' := f0.store.core.past.owner[a.given], Next(f0, a), After(Next(f0, a), run);
            && At(f, a.c) == Idle
            && (Decision(f', last).Accepted? && Decision(f', last).session == id <==>
                  && (last.AuthRead? || last.RefreshRead?) && InFlight(At(f, last.c), id) && Waits(run, last.c)
                  && Accepts(f'.users, Stamp(At(f, last.c)).0, Stamp(At(f, last.c)).1))
  {
    ReachableStore(ttl, now, before);
    var f0 := After(Start(ttl, now), before);
    ReplayAnswered(f0, a);
    DeadServesOnlyInFlight(Next(f0, a), run, last, f0.store.core.past.owner[a.given]);
  }

  /** The store of every site that is reached is in order. */
  lemma ReachableStore(ttl: Time, now: Time, run: seq<Action>)
    requires 0 < ttl && Runs(Start(ttl, now), run)
    ensures P.WorldOk(After(Start(ttl, now), run).store)
  {
    P.StartOk(ttl, now);
    StoreRuns(Start(ttl, now), run);
  }

  // ---------------------------------------------------------------------------------------
  // A run in which a replayed session still serves two clients
  // ---------------------------------------------------------------------------------------

  lemma FirstStep(f: Site, a: Action, rest: seq<Action>)
    requires Enabled(f, a) && Runs(Next(f, a), rest)
    ensures Runs(f, [a] + rest) && After(f, [a] + rest) == After(Next(f, a), rest)
  {
    assert ([a] + rest)[1..] == rest;
  }

  lemma ThreeSteps(f: Site, a: Action, b: Action, c: Action)
    requires Enabled(f, a) && Enabled(Next(f, a), b) && Enabled(Next(Next(f, a), b), c)
    ensures Runs(f, [a] + ([b] + [c])) && After(f, [a] + ([b] + [c])) == Next(Next(Next(f, a), b), c)
  {
    FirstStep(Next(Next(f, a), b), c, []);
    assert [c] + [] == [c];
    FirstStep(Next(f, a), b, [c]);
    FirstStep(f, a, [b] + [c]);
  }

  function ClaimsOf(s: Session): Claims {
    Claims(s.id, s.user, s.version, 0, 100)
  }

  /** Client 1 logs the user in. */
  function LogIn(u: U.User, s: Session): seq<Action> {
    [Register(u)] + ([LoginRead(1, u.id)] + ([LoginCreate(1, s, 0, 100)] + [Sign(1)]))
  }

  /** Client 2 presents the access token and gets as far as the session, client 3 exchanges the
      refresh token, and client 4 presents it again. */
  function Replay(s: Session, next: Digest, other: Digest): seq<Action> {
    [AuthGet(2, ClaimsOf(s), 0)] + ([RefreshRotate(3, s.digest, next, 10)] + [RefreshRotate(4, s.digest, other, 10)])
  }

  ghost predicate Newcomer(u: U.User, s: Session) {
    && u.version == 1 && u.status == U.Enabled && u.multiple
    && s.user == u.id && s.version == 1
  }

  /** Where the login ends. */
  function LoggedIn(u: U.User, s: Session): Site {
    Site(P.World(Create(Fresh(10, 0), s), map[1 := P.Idle]), map[u.id := u], {ClaimsOf(s)}, map[1 := Idle])
  }

  lemma LogInRuns(u: U.User, s: Session)
    requires Newcomer(u, s)
    ensures Runs(Start(10, 0), LogIn(u, s)) && After(Start(10, 0), LogIn(u, s)) == LoggedIn(u, s)
  {
    var f0 := Start(10, 0);
    var f1 := Site(f0.store, map[u.id := u], {}, map[]);
    var f2 := Site(f0.store, map[u.id := u], {}, map[1 := LoggingIn(u)]);
    var f3 := Site(P.World(Create(Fresh(10, 0), s), map[1 := P.Idle]), map[u.id := u], {},
                   map[1 := Signing(ClaimsOf(s))]);
    assert Next(f3, Sign(1)) == LoggedIn(u, s);
    FirstStep(f3, Sign(1), []);
    assert [Sign(1)] + [] == [Sign(1)];
    assert Next(f2, LoginCreate(1, s, 0, 100)) == f3;
    FirstStep(f2, LoginCreate(1, s, 0, 100), [Sign(1)]);
    assert Next(f1, LoginRead(1, u.id)) == f2;
    FirstStep(f1, LoginRead(1, u.id), [LoginCreate(1, s, 0, 100)] + [Sign(1)]);
    assert Next(f0, Register(u)) == f1;
    FirstStep(f0, Register(u), [LoginRead(1, u.id)] + ([LoginCreate(1, s, 0, 100)] + [Sign(1)]));
  }

  /** The store's answers to the exchange and to the replay. */
  lemma AnswersOf(s: Session, next: Digest, other: Digest)
    requires next != s.digest && other != s.digest && next != other
    ensures var c0 := Create(Fresh(10, 0), s);
            var s', c1 := s.(digest := next, expiresAt := 10), Rotate(c0, s.digest, next, 10);
            && s.id in c0.keys.sessions && c0.keys.sessions[s.id].value == s && c0.past.owner == map[s.digest := s.id]
            && RotateAnswer(c0.keys, s.digest, next, 10) == Rotated(s')
            && c1.past.owner.Keys == {s.digest, next}
            && RotateAnswer(c1.keys, s.digest, other, 10) == Reused
            && s.id !in Rotate(c1, s.digest, other, 10).keys.sessions
  {
  }

  lemma ReplayRuns(u: U.User, s: Session, next: Digest, other: Digest)
    requires next != s.digest && other != s.digest && next != other
    ensures Runs(LoggedIn(u, s), Replay(s, next, other))
    ensures var f' := After(LoggedIn(u, s), Replay(s, next, other));
            && f'.users == map[u.id := u] && s.id !in f'.store.core.keys.sessions
            && At(f', 2) == Authenticating(ClaimsOf(s))
            && At(f', 3) == Refreshing(s.(digest := next, expiresAt := 10))
  {
    AnswersOf(s, next, other);
    var f := LoggedIn(u, s);
    var f1 := Next(f, AuthGet(2, ClaimsOf(s), 0));
    assert At(f1, 2) == Authenticating(ClaimsOf(s)) && f1.store == f.store;
    var f2 := Next(f1, RefreshRotate(3, s.digest, next, 10));
    assert At(f2, 3) == Refreshing(s.(digest := next, expiresAt := 10));
    ThreeSteps(f, AuthGet(2, ClaimsOf(s), 0), RefreshRotate(3, s.digest, next, 10),
               RefreshRotate(4, s.digest, other, 10));
  }

  /** After that run the session is dead, and both the authentication and the refresh in flight
      are accepted. */
  lemma InFlightAccepted(u: U.User, s: Session, next: Digest, other: Digest)
    requires Newcomer(u, s) && next != s.digest && other != s.digest && next != other
    ensures Runs(Start(10, 0), LogIn(u, s)) && Runs(After(Start(10, 0), LogIn(u, s)), Replay(s, next, other))
    ensures var f := After(After(Start(10, 0), LogIn(u, s)), Replay(s, next, other));
            && s.id !in f.store.core.keys.sessions
            && Enabled(f, AuthRead(2)) && Decision(f, AuthRead(2)) == Accepted(u.id, s.id, 1)
            && Enabled(f, RefreshRead(3, 0, 100)) && Decision(f, RefreshRead(3, 0, 100)) == Accepted(u.id, s.id, 1)
  {
    LogInRuns(u, s);
    ReplayRuns(u, s, next, other);
  }
}
