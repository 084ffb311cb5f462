/** The key space together with everything that was ever put into it.  Each operation here
    is one atomic round trip; the lemmas show that it keeps the invariant `Inv`, whoever
    performs it and however stale the values are that it acts on.
 */
module SessionHistory {
  import opened Wrappers
  import opened KeySpace

  datatype Birth = Birth(family: FamilyId, user: UserId)

  /** `born`: every session ever created.  `owner`: the session of every digest ever stored.
      `chain`: the digests of a session in the order they became current.  `touched`: the last
      creation or rotation.  `spentAt`: when a digest was exchanged. */
  datatype Past = Past(
    born: map<SessionId, Birth>,
    owner: map<Digest, SessionId>,
    chain: map<SessionId, seq<Digest>>,
    touched: map<SessionId, Time>,
    spentAt: map<Digest, Time>)

  /** `killed`: the sessions that a revocation or a replay removed. */
  datatype Core = Core(ttl: Time, now: Time, keys: Keys, past: Past, killed: set<SessionId>)

  function Fresh(ttl: Time, now: Time): Core {
    Core(ttl, now, NO_KEYS, Past(map[], map[], map[], map[], map[]), {})
  }

  function Last(s: seq<Digest>): Digest
    requires s != []
  {
    s[|s| - 1]
  }

  // ---------------------------------------------------------------------------------------
  // The invariant
  // ---------------------------------------------------------------------------------------

  /** A session's digests are its own, never repeat, and all but the last have been exchanged. */
  ghost predicate ChainOk(h: Past, id: SessionId)
    requires id in h.chain
  {
    var ds := h.chain[id];
    && ds != []
    && (forall i | 0 <= i < |ds| :: ds[i] in h.owner && h.owner[ds[i]] == id)
    && (forall i, j | 0 <= i < j < |ds| :: ds[i] != ds[j])
    && (forall i | 0 <= i < |ds| :: ds[i] in h.spentAt <==> i < |ds| - 1)
  }

  /** A digest that was never exchanged is the last of its session's chain. */
  ghost predicate DigestOk(h: Past, d: Digest)
    requires d in h.owner
  {
    var id := h.owner[d];
    id in h.chain && h.chain[id] != [] && (d !in h.spentAt ==> d == Last(h.chain[id]))
  }

  ghost predicate PastOk(h: Past) {
    && h.chain.Keys == h.born.Keys && h.touched.Keys == h.born.Keys
    && h.spentAt.Keys <= h.owner.Keys
    && (forall d | d in h.owner :: DigestOk(h, d))
    && (forall id | id in h.chain :: ChainOk(h, id))
  }

  /** A live session belongs to its birth, its digest is the last of its chain, and the record
      of that digest is active, agrees with it and expires with it. */
  ghost predicate SessionOk(c: Core, id: SessionId)
    requires id in c.keys.sessions
  {
    var e := c.keys.sessions[id];
    && id in c.past.born && id in c.past.chain && c.past.chain[id] != [] && id in c.past.touched
    && e.value.id == id && c.past.born[id] == Birth(e.value.family, e.value.user)
    && e.value.digest == Last(c.past.chain[id])
    && e.value.digest in c.keys.tokens
    && c.keys.tokens[e.value.digest] == Stored(Token(id, e.value.family, e.value.user, Active), e.expiry)
    && e.expiry == c.past.touched[id] + c.ttl && c.now < e.expiry
  }

  /** A record names the session its digest was issued for; it is spent exactly if the digest
      was exchanged, and then lives for one ttl from that instant. */
  ghost predicate TokenOk(c: Core, d: Digest)
    requires d in c.keys.tokens
  {
    var e := c.keys.tokens[d];
    && d in c.past.owner && c.past.owner[d] == e.value.session
    && e.value.session in c.past.born && c.past.born[e.value.session] == Birth(e.value.family, e.value.user)
    && c.now < e.expiry
    && (e.value.state == Spent <==> d in c.past.spentAt)
    && (d in c.past.spentAt ==> e.expiry == c.past.spentAt[d] + c.ttl)
  }

  ghost predicate IndexOk(c: Core, u: UserId)
    requires u in c.keys.index
  {
    var e := c.keys.index[u];
    && c.now < e.expiry && e.value != {}
    && forall id | id in e.value :: id in c.past.born && c.past.born[id].user == u
  }

  ghost predicate SessionsOk(c: Core) { forall id | id in c.keys.sessions :: SessionOk(c, id) }
  ghost predicate TokensOk(c: Core) { forall d | d in c.keys.tokens :: TokenOk(c, d) }
  ghost predicate IndexesOk(c: Core) { forall u | u in c.keys.index :: IndexOk(c, u) }

  /** An issued session is live exactly if nothing killed it and its ttl, counted from its last
      creation or rotation, has not run out. */
  ghost predicate Sliding(c: Core) {
    forall id | id in c.past.born ::
      && id in c.past.touched && c.past.touched[id] <= c.now
      && (id in c.keys.sessions <==> id !in c.killed && c.now < c.past.touched[id] + c.ttl)
  }

  /** While its session lives, a spent digest is remembered for one ttl. */
  ghost predicate Remembered(c: Core) {
    forall d | d in c.past.spentAt && d in c.past.owner ::
      c.past.owner[d] in c.keys.sessions && c.now < c.past.spentAt[d] + c.ttl ==> d in c.keys.tokens
  }

  ghost predicate Inv(c: Core) {
    && 0 < c.ttl && c.killed <= c.past.born.Keys
    && PastOk(c.past) && SessionsOk(c) && TokensOk(c) && IndexesOk(c) && Sliding(c) && Remembered(c)
  }

  // ---------------------------------------------------------------------------------------
  // The operations
  // ---------------------------------------------------------------------------------------

  function Later(c: Core, elapsed: nat): Core {
    c.(now := c.now + elapsed, keys := Purge(c.keys, c.now + elapsed))
  }

  /** The ids and digests of a new session come from a UUIDv7 and 32 random bytes. */
  ghost predicate CanCreate(c: Core, s: Session) {
    s.id !in c.past.born && s.digest !in c.past.owner
  }

  function Create(c: Core, s: Session): Core {
    var h := c.past;
    c.(keys := Created(c.keys, s, c.now, c.ttl),
       past := Past(h.born[s.id := Birth(s.family, s.user)], h.owner[s.digest := s.id],
                    h.chain[s.id := [s.digest]], h.touched[s.id := c.now], h.spentAt))
  }

  function Extended(h: Past, id: SessionId, given: Digest, next: Digest, now: Time): Past {
    Past(h.born, h.owner[next := id],
         h.chain[id := (if id in h.chain then h.chain[id] else []) + [next]],
         h.touched[id := now], h.spentAt[given := now])
  }

  function Rotate(c: Core, given: Digest, next: Digest, expiresAt: Time): Core {
    var after := c.(keys := RotateKeys(c.keys, given, next, expiresAt, c.now, c.ttl));
    match RotateAnswer(c.keys, given, next, expiresAt)
    case Rejected => c
    case Reused => after.(killed := c.killed + {c.keys.tokens[given].value.session})
    case Rotated(s) => after.(past := Extended(c.past, s.id, given, next, c.now))
  }

  /** A session value that some earlier GET returned. */
  ghost predicate WasRead(h: Past, s: Session) {
    s.id in h.born && h.born[s.id].user == s.user && s.digest in h.owner && h.owner[s.digest] == s.id
  }

  function Revoke(c: Core, read: Session): Core {
    c.(keys := Revoked(c.keys, read), killed := c.killed + {read.id})
  }

  function Drop(c: Core, user: UserId): Core {
    c.(keys := Dropped(c.keys, user))
  }

  function Tidy(c: Core, user: UserId, ids: set<SessionId>): Core {
    c.(keys := Tidied(c.keys, user, ids))
  }

  // ---------------------------------------------------------------------------------------
  // Every operation keeps the invariant, and nothing dead comes back
  // ---------------------------------------------------------------------------------------

  /** History only grows, users of sessions never change, and a dead session stays dead. */
  ghost predicate Grows(c: Core, c': Core) {
    && c.ttl == c'.ttl && c.now <= c'.now
    && (forall id | id in c.past.born :: id in c'.past.born && c'.past.born[id] == c.past.born[id])
    && (forall d | d in c.past.owner :: d in c'.past.owner && c'.past.owner[d] == c.past.owner[d])
    && (forall d | d in c.past.spentAt :: d in c'.past.spentAt && c'.past.spentAt[d] == c.past.spentAt[d])
    && (forall id | id in c.past.born && id !in c.keys.sessions :: id !in c'.keys.sessions)
  }

  /** Keys may go, in any combination that takes no record away from a session it leaves alive
      and forgets no exchange too early. */
  ghost predicate Shrinks(c: Core, c': Core) {
    && c'.ttl == c.ttl && c.now <= c'.now && c'.past == c.past
    && (forall id | id in c'.keys.sessions ::
          && id in c.keys.sessions && c'.keys.sessions[id] == c.keys.sessions[id]
          && c.keys.sessions[id].value.digest in c'.keys.tokens && c'.now < c.keys.sessions[id].expiry)
    && (forall d | d in c'.keys.tokens ::
          d in c.keys.tokens && c'.keys.tokens[d] == c.keys.tokens[d] && c'.now < c.keys.tokens[d].expiry)
  }

  lemma ShrinkKeeps(c: Core, c': Core)
    requires Inv(c) && Shrinks(c, c') && c'.killed <= c.past.born.Keys
    requires IndexesOk(c') && Sliding(c') && Remembered(c')
    ensures Inv(c') && Grows(c, c')
  {
    forall id | id in c'.keys.sessions ensures SessionOk(c', id) { assert SessionOk(c, id); }
    forall d | d in c'.keys.tokens ensures TokenOk(c', d) { assert TokenOk(c, d); }
  }

  lemma LaterKeeps(c: Core, elapsed: nat)
    requires Inv(c)
    ensures Inv(Later(c, elapsed)) && Grows(c, Later(c, elapsed))
  {
    var c' := Later(c, elapsed);
    forall id | id in c.keys.sessions
      ensures c.keys.sessions[id].expiry == c.past.touched[id] + c.ttl
      ensures c.keys.sessions[id].value.digest in c.keys.tokens
      ensures c.keys.tokens[c.keys.sessions[id].value.digest].expiry == c.keys.sessions[id].expiry
    {
      assert SessionOk(c, id);
    }
    forall u | u in c'.keys.index ensures IndexOk(c', u) { assert IndexOk(c, u); }
    assert Remembered(c') by {
      forall d | d in c.keys.tokens && d in c.past.spentAt
        ensures c.keys.tokens[d].expiry == c.past.spentAt[d] + c.ttl
      {
        assert TokenOk(c, d);
      }
    }
    ShrinkKeeps(c, c');
  }

  /** The history of a new session is consistent with the old one. */
  lemma BirthKeeps(c: Core, s: Session)
    requires PastOk(c.past) && CanCreate(c, s)
    ensures PastOk(Create(c, s).past)
  {
    var h, h' := c.past, Create(c, s).past;
    forall d | d in h'.owner ensures DigestOk(h', d) {
      if d != s.digest { assert DigestOk(h, d); }
    }
    forall id | id in h'.chain ensures ChainOk(h', id) {
      if id != s.id { assert ChainOk(h, id); }
    }
  }

  lemma CreateSessions(c: Core, s: Session)
    requires 0 < c.ttl && SessionsOk(c) && CanCreate(c, s)
    requires forall id | id in c.keys.sessions :: c.keys.sessions[id].value.digest in c.past.owner
    ensures SessionsOk(Create(c, s))
  {
    var c' := Create(c, s);
    forall id | id in c'.keys.sessions ensures SessionOk(c', id) {
      if id != s.id { assert SessionOk(c, id); }
    }
  }

  lemma CreateTokens(c: Core, s: Session)
    requires 0 < c.ttl && TokensOk(c) && CanCreate(c, s) && c.past.spentAt.Keys <= c.past.owner.Keys
    ensures TokensOk(Create(c, s))
  {
    var c' := Create(c, s);
    forall d | d in c'.keys.tokens ensures TokenOk(c', d) {
      if d != s.digest { assert TokenOk(c, d); }
    }
  }

  lemma CreateIndexes(c: Core, s: Session)
    requires 0 < c.ttl && IndexesOk(c) && CanCreate(c, s)
    ensures IndexesOk(Create(c, s))
  {
    var c' := Create(c, s);
    forall u | u in c'.keys.index ensures IndexOk(c', u) {
      if u in c.keys.index { assert IndexOk(c, u); }
    }
  }

  lemma CreateKeeps(c: Core, s: Session)
    requires Inv(c) && CanCreate(c, s)
    ensures Inv(Create(c, s)) && Grows(c, Create(c, s))
  {
    BirthKeeps(c, s);
    forall id | id in c.keys.sessions ensures c.keys.sessions[id].value.digest in c.past.owner {
      assert SessionOk(c, id) && TokenOk(c, c.keys.sessions[id].value.digest);
    }
    CreateSessions(c, s);
    CreateTokens(c, s);
    CreateIndexes(c, s);
    assert Remembered(Create(c, s)) by {
      forall d | d in c.past.spentAt ensures c.past.owner[d] != s.id { assert DigestOk(c.past, d); }
    }
  }

  /** The current digest of a live session is its own and recorded. */
  lemma OwnDigests(c: Core)
    requires SessionsOk(c) && TokensOk(c)
    ensures forall id | id in c.keys.sessions ::
              var d := c.keys.sessions[id].value.digest;
              && d in c.past.owner && c.past.owner[d] == id && d in c.keys.tokens && c.now < c.keys.sessions[id].expiry
    ensures forall d | d in c.keys.tokens :: c.now < c.keys.tokens[d].expiry
  {
    forall id | id in c.keys.sessions
      ensures c.keys.sessions[id].value.digest in c.past.owner
      ensures c.past.owner[c.keys.sessions[id].value.digest] == id
      ensures c.keys.sessions[id].value.digest in c.keys.tokens && c.now < c.keys.sessions[id].expiry
    {
      assert SessionOk(c, id) && TokenOk(c, c.keys.sessions[id].value.digest);
    }
    forall d | d in c.keys.tokens ensures c.now < c.keys.tokens[d].expiry { assert TokenOk(c, d); }
  }

  lemma RevokeShrinks(c: Core, read: Session)
    requires WasRead(c.past, read)
    requires forall id | id in c.keys.sessions ::
               var d := c.keys.sessions[id].value.digest;
               && d in c.past.owner && c.past.owner[d] == id && d in c.keys.tokens && c.now < c.keys.sessions[id].expiry
    requires forall d | d in c.keys.tokens :: c.now < c.keys.tokens[d].expiry
    ensures Shrinks(c, Revoke(c, read))
  {
  }

  lemma RevokeRemembers(c: Core, read: Session)
    requires Sliding(c) && Remembered(c) && WasRead(c.past, read)
    ensures Sliding(Revoke(c, read)) && Remembered(Revoke(c, read))
  {
  }

  /** Removing a session, one of its own digests and its index entry keeps the invariant. */
  lemma RevokeKeeps(c: Core, read: Session)
    requires Inv(c) && WasRead(c.past, read)
    ensures Inv(Revoke(c, read)) && Grows(c, Revoke(c, read))
  {
    var c' := Revoke(c, read);
    OwnDigests(c);
    RevokeShrinks(c, read);
    RevokeRemembers(c, read);
    IndexShrinks(c, c', read.user, {read.id});
    ShrinkKeeps(c, c');
  }

  /** SREM keeps the indexes consistent. */
  lemma IndexShrinks(c: Core, c': Core, user: UserId, ids: set<SessionId>)
    requires IndexesOk(c) && c'.past == c.past && c'.now == c.now
    requires c'.keys.index == Unindexed(c.keys.index, user, ids)
    ensures IndexesOk(c')
  {
    forall u | u in c'.keys.index ensures IndexOk(c', u) {
      assert IndexOk(c, u);
    }
  }

  /** A change of the index alone keeps the rest of the invariant. */
  lemma IndexOnly(c: Core, c': Core)
    requires Inv(c) && c' == c.(keys := c.keys.(index := c'.keys.index), killed := c'.killed) && IndexesOk(c')
    requires c.killed <= c'.killed <= c.past.born.Keys && c'.killed - c.killed !! c.keys.sessions.Keys
    ensures Inv(c') && Grows(c, c')
  {
    forall id | id in c.keys.sessions
      ensures c.keys.sessions[id].value.digest in c.keys.tokens
      ensures c.now < c.keys.sessions[id].expiry && id !in c'.killed
    {
      assert SessionOk(c, id);
      assert id in c'.killed ==> id in c'.killed - c.killed;
    }
    forall d | d in c.keys.tokens ensures c.now < c.keys.tokens[d].expiry { assert TokenOk(c, d); }
    ShrinkKeeps(c, c');
  }

  lemma DropKeeps(c: Core, user: UserId)
    requires Inv(c)
    ensures Inv(Drop(c, user)) && Grows(c, Drop(c, user))
  {
    forall u | u in Drop(c, user).keys.index ensures IndexOk(Drop(c, user), u) { assert IndexOk(c, u); }
    IndexOnly(c, Drop(c, user));
  }

  lemma TidyKeeps(c: Core, user: UserId, ids: set<SessionId>)
    requires Inv(c)
    ensures Inv(Tidy(c, user, ids)) && Grows(c, Tidy(c, user, ids))
  {
    IndexShrinks(c, Tidy(c, user, ids), user, ids);
    IndexOnly(c, Tidy(c, user, ids));
  }

  /** A replay does to the keys exactly what a revocation of the session would do; if the
      session is already dead it only tidies the index. */
  lemma ReplayKeeps(c: Core, given: Digest, next: Digest, expiresAt: Time)
    requires Inv(c) && RotateAnswer(c.keys, given, next, expiresAt).Reused?
    ensures Inv(Rotate(c, given, next, expiresAt)) && Grows(c, Rotate(c, given, next, expiresAt))
  {
    var token := c.keys.tokens[given].value;
    assert TokenOk(c, given);
    assert Rotate(c, given, next, expiresAt) == Replay(c, token);
    if token.session in c.keys.sessions {
      var s := c.keys.sessions[token.session].value;
      assert SessionOk(c, token.session) && TokenOk(c, s.digest);
      RevokeKeeps(c, s);
      assert Replay(c, token) == Revoke(c, s);
    } else {
      BuryKeeps(c, token);
    }
  }

  function Replay(c: Core, token: Token): Core {
    Core(c.ttl, c.now, Replayed(c.keys, token), c.past, c.killed + {token.session})
  }

  /** Replaying against a dead session only tidies the index. */
  lemma BuryKeeps(c: Core, token: Token)
    requires Inv(c) && token.session in c.past.born && token.session !in c.keys.sessions
    ensures Inv(Replay(c, token)) && Grows(c, Replay(c, token))
  {
    var c' := Replay(c, token);
    assert c.keys.sessions - {token.session} == c.keys.sessions;
    IndexShrinks(c, c', token.user, {token.session});
    IndexOnly(c, c');
  }

  lemma ExtendChain(h: Past, id: SessionId, given: Digest, next: Digest, now: Time, i: SessionId)
    requires PastOk(h) && id in h.chain && h.chain[id] != [] && given == Last(h.chain[id]) && next !in h.owner
    requires i in h.chain
    ensures i in Extended(h, id, given, next, now).chain && ChainOk(Extended(h, id, given, next, now), i)
  {
    assert ChainOk(h, id) && ChainOk(h, i);
  }

  lemma ExtendDigest(h: Past, id: SessionId, given: Digest, next: Digest, now: Time, d: Digest)
    requires id in h.chain && h.chain[id] != [] && given == Last(h.chain[id])
    requires d in h.owner ==> DigestOk(h, d)
    requires d in h.owner || d == next
    ensures d in Extended(h, id, given, next, now).owner && DigestOk(Extended(h, id, given, next, now), d)
  {
  }

  /** Exchanging the last digest of a chain extends the chain. */
  lemma ExtendKeeps(h: Past, id: SessionId, given: Digest, next: Digest, now: Time)
    requires PastOk(h) && id in h.chain && h.chain[id] != [] && given == Last(h.chain[id]) && next !in h.owner
    ensures PastOk(Extended(h, id, given, next, now))
  {
    var h' := Extended(h, id, given, next, now);
    assert ChainOk(h, id);
    forall d | d in h'.owner ensures DigestOk(h', d) { ExtendDigest(h, id, given, next, now, d); }
    forall i | i in h'.chain ensures ChainOk(h', i) { ExtendChain(h, id, given, next, now, i); }
  }

  function Exchange(c: Core, id: SessionId, given: Digest, next: Digest, expiresAt: Time): Core
    requires given in c.keys.tokens && c.keys.tokens[given].value.session == id && id in c.keys.sessions
  {
    Core(c.ttl, c.now, Exchanged(c.keys, given, next, expiresAt, c.now, c.ttl),
         Extended(c.past, id, given, next, c.now), c.killed)
  }

  lemma ExchangeSessions(c: Core, id: SessionId, given: Digest, next: Digest, expiresAt: Time)
    requires 0 < c.ttl && SessionsOk(c) && id in c.keys.sessions && given == c.keys.sessions[id].value.digest
    requires given in c.keys.tokens && c.keys.tokens[given].value.session == id
    requires next != given
    requires forall i | i in c.keys.sessions && i != id :: c.keys.sessions[i].value.digest !in {given, next}
    ensures SessionsOk(Exchange(c, id, given, next, expiresAt))
  {
    var c' := Exchange(c, id, given, next, expiresAt);
    assert SessionOk(c, id);
    forall i | i in c'.keys.sessions ensures SessionOk(c', i) {
      assert SessionOk(c, i);
      if i != id {
        assert c'.keys.sessions[i] == c.keys.sessions[i];
        var d := c.keys.sessions[i].value.digest;
        assert c'.keys.tokens[d] == c.keys.tokens[d];
      }
    }
  }

  lemma ExchangeTokens(c: Core, id: SessionId, given: Digest, next: Digest, expiresAt: Time)
    requires 0 < c.ttl && TokensOk(c) && given in c.keys.tokens && c.keys.tokens[given].value.session == id
    requires id in c.keys.sessions && next != given && next !in c.past.spentAt
    ensures TokensOk(Exchange(c, id, given, next, expiresAt))
  {
    var c' := Exchange(c, id, given, next, expiresAt);
    assert TokenOk(c, given);
    forall d | d in c'.keys.tokens ensures TokenOk(c', d) {
      if d != given && d != next {
        assert TokenOk(c, d);
        assert c'.keys.tokens[d] == c.keys.tokens[d];
      }
    }
  }

  lemma ExchangeIndexes(c: Core, id: SessionId, given: Digest, next: Digest, expiresAt: Time)
    requires 0 < c.ttl && IndexesOk(c) && given in c.keys.tokens && c.keys.tokens[given].value.session == id
    requires id in c.keys.sessions
    ensures IndexesOk(Exchange(c, id, given, next, expiresAt))
  {
    var c' := Exchange(c, id, given, next, expiresAt);
    forall u | u in c'.keys.index ensures IndexOk(c', u) { assert IndexOk(c, u); }
  }

  lemma ExchangeKeeps(c: Core, given: Digest, next: Digest, expiresAt: Time)
    requires Inv(c) && next !in c.past.owner && RotateAnswer(c.keys, given, next, expiresAt).Rotated?
    ensures Inv(Rotate(c, given, next, expiresAt)) && Grows(c, Rotate(c, given, next, expiresAt))
  {
    var id := c.keys.tokens[given].value.session;
    assert TokenOk(c, given) && SessionOk(c, id) && ChainOk(c.past, id);
    ExtendKeeps(c.past, id, given, next, c.now);
    OwnDigests(c);
    ExchangeSessions(c, id, given, next, expiresAt);
    ExchangeTokens(c, id, given, next, expiresAt);
    ExchangeIndexes(c, id, given, next, expiresAt);
    ExchangeRest(c, id, given, next, expiresAt);
    RotateIsExchange(c, given, next, expiresAt);
  }

  lemma RotateIsExchange(c: Core, given: Digest, next: Digest, expiresAt: Time)
    requires RotateAnswer(c.keys, given, next, expiresAt).Rotated?
    requires c.keys.sessions[c.keys.tokens[given].value.session].value.id == c.keys.tokens[given].value.session
    ensures Rotate(c, given, next, expiresAt) == Exchange(c, c.keys.tokens[given].value.session, given, next, expiresAt)
  {
  }

  lemma ExchangeRest(c: Core, id: SessionId, given: Digest, next: Digest, expiresAt: Time)
    requires 0 < c.ttl && Sliding(c) && Remembered(c) && c.past.spentAt.Keys <= c.past.owner.Keys
    requires next !in c.past.owner && given in c.past.owner && given !in c.past.spentAt
    requires given in c.keys.tokens && c.keys.tokens[given].value.session == id && id in c.keys.sessions
    ensures var c' := Exchange(c, id, given, next, expiresAt); Sliding(c') && Remembered(c') && Grows(c, c')
  {
    var c' := Exchange(c, id, given, next, expiresAt);
    assert c'.keys.sessions.Keys == c.keys.sessions.Keys;
    assert c.keys.tokens.Keys <= c'.keys.tokens.Keys;
  }

  /** A rotation appends to the chain of the session it answers for, and touches no other. */
  lemma RotateChain(c: Core, given: Digest, next: Digest, expiresAt: Time)
    requires Inv(c)
    ensures match RotateAnswer(c.keys, given, next, expiresAt)
            case Rotated(s) =>
              && s.id in c.past.chain
              && Rotate(c, given, next, expiresAt).past.chain == c.past.chain[s.id := c.past.chain[s.id] + [next]]
            case _ => Rotate(c, given, next, expiresAt).past == c.past
  {
    match RotateAnswer(c.keys, given, next, expiresAt)
    case Rotated(s) => assert SessionOk(c, c.keys.tokens[given].value.session);
    case _ =>
  }

  lemma RotateKeeps(c: Core, given: Digest, next: Digest, expiresAt: Time)
    requires Inv(c) && next !in c.past.owner
    ensures Inv(Rotate(c, given, next, expiresAt)) && Grows(c, Rotate(c, given, next, expiresAt))
  {
    match RotateAnswer(c.keys, given, next, expiresAt)
    case Rejected =>
    case Reused => ReplayKeeps(c, given, next, expiresAt);
    case Rotated(_) => ExchangeKeeps(c, given, next, expiresAt);
  }

  // ---------------------------------------------------------------------------------------
  // What the invariant says to a client
  // ---------------------------------------------------------------------------------------

  /** Exactly one record that names a live session is stored and active: the one of its current
      digest. */
  lemma OneActiveRecord(c: Core, id: SessionId, d: Digest)
    requires Inv(c) && id in c.keys.sessions
    ensures d in c.keys.tokens && c.keys.tokens[d].value.session == id && c.keys.tokens[d].value.state == Active
            <==> d == c.keys.sessions[id].value.digest
  {
    assert SessionOk(c, id) && ChainOk(c.past, id);
    if d in c.keys.tokens && c.keys.tokens[d].value.session == id {
      assert TokenOk(c, d) && DigestOk(c.past, d);
    }
  }

  /** Presenting a digest succeeds exactly if it is the current digest of a live session. */
  lemma OnlyCurrentDigestRotates(c: Core, d: Digest, next: Digest, expiresAt: Time)
    requires Inv(c)
    ensures RotateAnswer(c.keys, d, next, expiresAt).Rotated? <==>
            && d in c.past.owner && c.past.owner[d] in c.keys.sessions
            && c.keys.sessions[c.past.owner[d]].value.digest == d
  {
    if d in c.keys.tokens { assert TokenOk(c, d); }
    if d in c.past.owner && c.past.owner[d] in c.keys.sessions { assert SessionOk(c, c.past.owner[d]); }
  }

  lemma CurrentRotates(c: Core, id: SessionId, next: Digest, expiresAt: Time)
    requires id in c.keys.sessions && c.keys.sessions[id].value.digest in c.keys.tokens
    requires c.keys.tokens[c.keys.sessions[id].value.digest].value.session == id
    requires c.keys.tokens[c.keys.sessions[id].value.digest].value.state == Active
    ensures var s := c.keys.sessions[id].value;
            && RotateAnswer(c.keys, s.digest, next, expiresAt) == Rotated(s.(digest := next, expiresAt := expiresAt))
            && Rotate(c, s.digest, next, expiresAt).keys.sessions
               == c.keys.sessions[id := Stored(s.(digest := next, expiresAt := expiresAt), c.now + c.ttl)]
  {
  }

  /** The current digest of a live session is always accepted, and the exchange changes nothing
      of the session but its digest and expiry. */
  lemma CurrentDigestAlwaysAccepted(c: Core, id: SessionId, next: Digest, expiresAt: Time)
    requires Inv(c) && id in c.keys.sessions && next !in c.past.owner
    ensures var s := c.keys.sessions[id].value;
            && RotateAnswer(c.keys, s.digest, next, expiresAt) == Rotated(s.(digest := next, expiresAt := expiresAt))
            && Rotate(c, s.digest, next, expiresAt).keys.sessions
               == c.keys.sessions[id := Stored(s.(digest := next, expiresAt := expiresAt), c.now + c.ttl)]
  {
    assert SessionOk(c, id);
    CurrentRotates(c, id, next, expiresAt);
  }

  /** A digest presented less than one ttl after it was exchanged, while its session lives, is
      recognised, and the session dies in the same step. */
  lemma ReplayRecognised(c: Core, d: Digest, next: Digest, expiresAt: Time)
    requires Inv(c) && d in c.past.spentAt && c.now < c.past.spentAt[d] + c.ttl
    requires d in c.past.owner && c.past.owner[d] in c.keys.sessions
    ensures RotateAnswer(c.keys, d, next, expiresAt) == Reused
    ensures c.past.owner[d] !in Rotate(c, d, next, expiresAt).keys.sessions
  {
    assert TokenOk(c, d);
  }
}
