/** The keys that internal/modules/auth/redis/store.go keeps in Redis, and what each
    atomic round trip of the store does to them.  A map holds a key exactly while the key
    has not expired; Purge is the passing of time.  JSON is read back as it was written.
 */
module KeySpace {
  import opened Wrappers

  // Identifiers and digests are opaque; only equality matters, and for listing the order of ids.
  type SessionId(==, !new, 0)
  type UserId(==, !new, 0)
  type FamilyId(==, !new, 0)
  type Digest(==, !new, 0)

  datatype Session = Session(
    id: SessionId, family: FamilyId, user: UserId, version: int,
    digest: Digest, createdAt: Time, expiresAt: Time)

  datatype State = Active | Spent

  /** A refresh record: the value stored under a token digest. */
  datatype Token = Token(session: SessionId, family: FamilyId, user: UserId, state: State)

  datatype Stored<+T> = Stored(value: T, expiry: Time)

  datatype Keys = Keys(
    sessions: map<SessionId, Stored<Session>>,
    tokens: map<Digest, Stored<Token>>,
    index: map<UserId, Stored<set<SessionId>>>)

  datatype RotateReply = Rejected | Reused | Rotated(session: Session)

  const NO_KEYS := Keys(map[], map[], map[])

  /** Drops every entry whose time to live has run out at `now`. */
  function Unexpired<K, V>(m: map<K, Stored<V>>, now: Time): map<K, Stored<V>> {
    map k | k in m && now < m[k].expiry :: m[k]
  }

  function Purge(k: Keys, now: Time): Keys {
    Keys(Unexpired(k.sessions, now), Unexpired(k.tokens, now), Unexpired(k.index, now))
  }

  /** SMEMBERS. */
  function Members(k: Keys, user: UserId): set<SessionId> {
    if user in k.index then k.index[user].value else {}
  }

  /** GET of a session key. */
  function Lookup(k: Keys, id: SessionId): Option<Session> {
    if id in k.sessions then Some(k.sessions[id].value) else None
  }

  /** SADD followed by EXPIRE in one transaction. */
  function Indexed(index: map<UserId, Stored<set<SessionId>>>, user: UserId, id: SessionId, expiry: Time)
    : map<UserId, Stored<set<SessionId>>>
  {
    var members := if user in index then index[user].value else {};
    index[user := Stored(members + {id}, expiry)]
  }

  /** SREM; Redis removes a set that becomes empty, and leaves the expiry of one that does not. */
  function Unindexed(index: map<UserId, Stored<set<SessionId>>>, user: UserId, ids: set<SessionId>)
    : map<UserId, Stored<set<SessionId>>>
  {
    if user !in index then index
    else if index[user].value - ids == {} then index - {user}
    else index[user := index[user].(value := index[user].value - ids)]
  }

  /** The MULTI/EXEC of Create. */
  function Created(k: Keys, s: Session, now: Time, ttl: Time): Keys {
    Keys(
      k.sessions[s.id := Stored(s, now + ttl)],
      k.tokens[s.digest := Stored(Token(s.id, s.family, s.user, Active), now + ttl)],
      Indexed(k.index, s.user, s.id, now + ttl))
  }

  /** The MULTI/EXEC of Revoke, which acts on the session value that an earlier GET returned. */
  function Revoked(k: Keys, read: Session): Keys {
    Keys(k.sessions - {read.id}, k.tokens - {read.digest}, Unindexed(k.index, read.user, {read.id}))
  }

  /** The reuse branch of rotate.lua: a spent digest was presented. */
  function Replayed(k: Keys, token: Token): Keys {
    Keys(
      k.sessions - {token.session},
      if token.session in k.sessions then k.tokens - {k.sessions[token.session].value.digest} else k.tokens,
      Unindexed(k.index, token.user, {token.session}))
  }

  /** The success branch of rotate.lua. */
  function Exchanged(k: Keys, given: Digest, next: Digest, expiresAt: Time, now: Time, ttl: Time): Keys
    requires given in k.tokens && k.tokens[given].value.session in k.sessions
  {
    var token := k.tokens[given].value;
    var session := k.sessions[token.session].value.(digest := next, expiresAt := expiresAt);
    Keys(
      k.sessions[token.session := Stored(session, now + ttl)],
      k.tokens[given := Stored(token.(state := Spent), now + ttl)]
              [next := Stored(token.(state := Active), now + ttl)],
      if token.user in k.index then k.index[token.user := k.index[token.user].(expiry := now + ttl)] else k.index)
  }

  /** What rotate.lua answers. */
  function RotateAnswer(k: Keys, given: Digest, next: Digest, expiresAt: Time): RotateReply {
    if given !in k.tokens then Rejected else
    var token := k.tokens[given].value;
    if token.state == Spent then Reused
    else if token.session !in k.sessions then Rejected
    else if k.sessions[token.session].value.digest != given then Rejected
    else Rotated(k.sessions[token.session].value.(digest := next, expiresAt := expiresAt))
  }

  /** The keys rotate.lua leaves behind. */
  function RotateKeys(k: Keys, given: Digest, next: Digest, expiresAt: Time, now: Time, ttl: Time): Keys {
    match RotateAnswer(k, given, next, expiresAt)
    case Rejected => k
    case Reused => Replayed(k, k.tokens[given].value)
    case Rotated(_) => Exchanged(k, given, next, expiresAt, now, ttl)
  }

  /** DEL of a user's index. */
  function Dropped(k: Keys, user: UserId): Keys {
    k.(index := k.index - {user})
  }

  /** SREM of ids found dead. */
  function Tidied(k: Keys, user: UserId, ids: set<SessionId>): Keys {
    k.(index := Unindexed(k.index, user, ids))
  }
}
