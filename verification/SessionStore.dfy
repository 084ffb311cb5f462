/** The session store run by one client at a time: the methods of
    internal/modules/auth/redis/store.go and the statements of rotate.lua, each proved
    against the functions of KeySpace.
 */
module SessionStore {
  import opened Wrappers
  import opened KeySpace

  /** What holds of the keys between operations that run one at a time. */
  ghost predicate SessionCoherent(k: Keys, id: SessionId)
    requires id in k.sessions
  {
    var e := k.sessions[id];
    && e.value.id == id
    && e.value.digest in k.tokens
    && k.tokens[e.value.digest] == Stored(Token(id, e.value.family, e.value.user, Active), e.expiry)
    && e.value.user in k.index && id in k.index[e.value.user].value && e.expiry <= k.index[e.value.user].expiry
  }

  ghost predicate IndexCoherent(k: Keys, u: UserId)
    requires u in k.index
  {
    k.index[u].value != {} && forall id | id in k.index[u].value && id in k.sessions :: k.sessions[id].value.user == u
  }

  ghost predicate Timely<K(!new), V>(m: map<K, Stored<V>>, now: Time, ttl: Time) {
    forall x | x in m :: now < m[x].expiry <= now + ttl
  }

  ghost predicate Coherent(k: Keys, now: Time, ttl: Time) {
    && Timely(k.sessions, now, ttl) && Timely(k.tokens, now, ttl) && Timely(k.index, now, ttl)
    && (forall id | id in k.sessions :: SessionCoherent(k, id))
    && (forall u | u in k.index :: IndexCoherent(k, u))
  }

  /** The live sessions of a user. */
  function Live(k: Keys, user: UserId): set<SessionId> {
    set id | id in k.sessions && k.sessions[id].value.user == user
  }

  /** The keys without the sessions in `ids` and without their current digests. */
  function Without(k: Keys, ids: set<SessionId>): Keys {
    Keys(k.sessions - ids,
         map d | d in k.tokens && !(k.tokens[d].value.session in ids && k.tokens[d].value.session in k.sessions
                                    && k.sessions[k.tokens[d].value.session].value.digest == d) :: k.tokens[d],
         k.index)
  }

  /** RevokeUser: every indexed session goes, with its current digest, and then the index. */
  function Swept(k: Keys, user: UserId): Keys {
    Dropped(Without(k, Members(k, user)), user)
  }

  /** An id and a digest never used before. */
  ghost predicate Unused(k: Keys, id: SessionId, digest: Digest) {
    && id !in k.sessions && digest !in k.tokens
    && (forall u | u in k.index :: id !in k.index[u].value)
    && (forall d | d in k.tokens :: k.tokens[d].value.session != id)
  }

  /** The ids leave the index of the user, which goes when it is empty and otherwise keeps its expiry;
      other users' indexes are as they were. */
  ghost predicate OneLess(before: map<UserId, Stored<set<SessionId>>>, after: map<UserId, Stored<set<SessionId>>>,
                          user: UserId, ids: set<SessionId>)
  {
    && after.Keys <= before.Keys
    && (forall u | u in before && u != user :: u in after && after[u] == before[u])
    && (user in after <==> user in before && before[user].value - ids != {})
    && (user in after ==> after[user] == Stored(before[user].value - ids, before[user].expiry))
  }

  // ---------------------------------------------------------------------------------------
  // Operations keep coherence
  // ---------------------------------------------------------------------------------------

  lemma CreatedCoherent(k: Keys, s: Session, now: Time, ttl: Time)
    requires Coherent(k, now, ttl) && Unused(k, s.id, s.digest) && 0 < ttl
    ensures Coherent(Created(k, s, now, ttl), now, ttl)
  {
    var k' := Created(k, s, now, ttl);
    forall id | id in k'.sessions ensures SessionCoherent(k', id) {
      if id != s.id { assert SessionCoherent(k, id); }
    }
    forall u | u in k'.index ensures IndexCoherent(k', u) {
      if u in k.index { assert IndexCoherent(k, u); }
    }
  }

  lemma CreatedLiveSets(k: Keys, s: Session, now: Time, ttl: Time)
    requires Unused(k, s.id, s.digest)
    ensures RecordsAgree(k) ==> RecordsAgree(Created(k, s, now, ttl))
    ensures Live(Created(k, s, now, ttl), s.user) == Live(k, s.user) + {s.id}
    ensures forall u | u != s.user :: Live(Created(k, s, now, ttl), u) == Live(k, u)
  {
  }

  lemma RevokedCoherent(k: Keys, id: SessionId, now: Time, ttl: Time)
    requires Coherent(k, now, ttl) && id in k.sessions
    ensures Coherent(Revoked(k, k.sessions[id].value), now, ttl)
    ensures Live(Revoked(k, k.sessions[id].value), k.sessions[id].value.user)
            == Live(k, k.sessions[id].value.user) - {id}
  {
    var k' := Revoked(k, k.sessions[id].value);
    assert SessionCoherent(k, id);
    forall i | i in k'.sessions ensures SessionCoherent(k', i) {
      assert SessionCoherent(k, i);
      var u := k.sessions[i].value.user;
      assert u == k.sessions[id].value.user ==> i in k.index[u].value - {id};
    }
    forall u | u in k'.index ensures IndexCoherent(k', u) { assert IndexCoherent(k, u); }
  }

  lemma SweptCoherent(k: Keys, user: UserId, now: Time, ttl: Time)
    requires Coherent(k, now, ttl)
    ensures Coherent(Swept(k, user), now, ttl)
    ensures Live(Swept(k, user), user) == {}
    ensures forall u | u != user :: Live(Swept(k, user), u) == Live(k, u)
  {
    var k' := Swept(k, user);
    forall id | id in k'.sessions ensures SessionCoherent(k', id) && id !in Live(k', user) {
      assert SessionCoherent(k, id);
    }
    assert |Live(k', user)| == 0;
    forall u | u in k'.index ensures IndexCoherent(k', u) { assert IndexCoherent(k, u); }
    forall id | id in k.sessions && k.sessions[id].value.user != user ensures id in k'.sessions {
      if user in k.index { assert IndexCoherent(k, user); }
    }
  }

  /** Exactly the user's sessions go, with the records of their current digests. */
  lemma SweptExactly(k: Keys, user: UserId, now: Time, ttl: Time)
    requires Coherent(k, now, ttl)
    ensures
      var k' := Swept(k, user);
      && (forall id :: id in k'.sessions <==> id in k.sessions && k.sessions[id].value.user != user)
      && (forall id | id in k'.sessions :: k'.sessions[id] == k.sessions[id])
      && (forall d :: d in k'.tokens <==>
            d in k.tokens && !exists id ::
              id in k.sessions && k.sessions[id].value.user == user && k.sessions[id].value.digest == d)
      && (forall d | d in k'.tokens :: k'.tokens[d] == k.tokens[d])
  {
    forall id | id in k.sessions
      ensures id in Members(k, user) <==> k.sessions[id].value.user == user
      ensures k.tokens[k.sessions[id].value.digest].value.session == id
    {
      assert SessionCoherent(k, id);
      if user in k.index { assert IndexCoherent(k, user); }
    }
  }

  lemma SweptRecords(k: Keys, user: UserId)
    ensures RecordsAgree(k) ==> RecordsAgree(Swept(k, user))
    ensures forall id, digest | Unused(k, id, digest) :: Unused(Swept(k, user), id, digest)
  {
  }

  lemma PurgedCoherent(k: Keys, now: Time, later: Time, ttl: Time)
    requires Coherent(k, now, ttl) && now <= later
    ensures Coherent(Purge(k, later), later, ttl)
    ensures RecordsAgree(k) ==> RecordsAgree(Purge(k, later))
  {
    var k' := Purge(k, later);
    forall id | id in k'.sessions ensures SessionCoherent(k', id) { assert SessionCoherent(k, id); }
    forall u | u in k'.index ensures IndexCoherent(k', u) { assert IndexCoherent(k, u); }
  }

  lemma TidiedCoherent(k: Keys, user: UserId, ids: set<SessionId>, now: Time, ttl: Time)
    requires Coherent(k, now, ttl) && forall id | id in ids :: id !in k.sessions
    ensures Coherent(Tidied(k, user, ids), now, ttl)
  {
    var k' := Tidied(k, user, ids);
    forall id | id in k'.sessions ensures SessionCoherent(k', id) {
      assert SessionCoherent(k, id);
      assert id in k.index[k.sessions[id].value.user].value - ids;
    }
    forall u | u in k'.index ensures IndexCoherent(k', u) { assert IndexCoherent(k, u); }
  }

  /** Records agree with the session they name. */
  ghost predicate RecordsAgree(k: Keys) {
    forall d | d in k.tokens && k.tokens[d].value.session in k.sessions ::
      var t, s := k.tokens[d].value, k.sessions[k.tokens[d].value.session].value;
      t.family == s.family && t.user == s.user
  }

  lemma WithoutNone(k: Keys)
    ensures Without(k, {}) == k
  {
    assert k.sessions - {} == k.sessions;
  }

  /** The keys while a sweep of `user` has revoked the sessions `done`: of the index nothing is
      known but that other users' sets are untouched. */
  ghost predicate SweepAt(k: Keys, k': Keys, user: UserId, done: set<SessionId>) {
    && k'.sessions == Without(k, done).sessions && k'.tokens == Without(k, done).tokens
    && k'.index - {user} == k.index - {user}
  }

  /** Revoking one more session of a set. */
  lemma WithoutOneMore(k: Keys, ids: set<SessionId>, id: SessionId, now: Time, ttl: Time)
    requires Coherent(k, now, ttl) && id in k.sessions && id !in ids
    ensures Without(k, ids + {id}).sessions == Without(k, ids).sessions - {id}
    ensures Without(k, ids + {id}).tokens == Without(k, ids).tokens - {k.sessions[id].value.digest}
  {
    assert SessionCoherent(k, id);
  }

  lemma WithoutDead(k: Keys, ids: set<SessionId>, id: SessionId)
    requires id !in k.sessions
    ensures Without(k, ids + {id}) == Without(k, ids)
  {
  }

  /** The Revoke inside a sweep. */
  lemma SweepOneMore(k: Keys, k': Keys, user: UserId, done: set<SessionId>, id: SessionId, now: Time, ttl: Time)
    requires Coherent(k, now, ttl) && SweepAt(k, k', user, done) && id !in done && id in Members(k, user)
    ensures SweepAt(k, if id in k'.sessions then Revoked(k', k'.sessions[id].value) else k', user, done + {id})
  {
    if id in k.sessions {
      assert SessionCoherent(k, id) && IndexCoherent(k, user);
      WithoutOneMore(k, done, id, now, ttl);
    } else {
      WithoutDead(k, done, id);
    }
  }

  lemma ExchangedCoherent(k: Keys, given: Digest, next: Digest, expiresAt: Time, now: Time, ttl: Time)
    requires Coherent(k, now, ttl) && RecordsAgree(k) && 0 < ttl && next !in k.tokens
    requires RotateAnswer(k, given, next, expiresAt).Rotated?
    ensures Coherent(Exchanged(k, given, next, expiresAt, now, ttl), now, ttl)
    ensures RecordsAgree(Exchanged(k, given, next, expiresAt, now, ttl))
  {
    var k' := Exchanged(k, given, next, expiresAt, now, ttl);
    forall id | id in k'.sessions ensures SessionCoherent(k', id) { assert SessionCoherent(k, id); }
    forall u | u in k'.index ensures IndexCoherent(k', u) { assert IndexCoherent(k, u); }
  }

  lemma ReplayedCoherent(k: Keys, token: Token, now: Time, ttl: Time)
    requires Coherent(k, now, ttl)
    requires token.session in k.sessions ==> token.user == k.sessions[token.session].value.user
    ensures Coherent(Replayed(k, token), now, ttl)
  {
    if token.session in k.sessions {
      assert SessionCoherent(k, token.session);
      RevokedCoherent(k, token.session, now, ttl);
      assert Replayed(k, token) == Revoked(k, k.sessions[token.session].value);
    } else {
      TidiedCoherent(k, token.user, {token.session}, now, ttl);
      assert k.sessions - {token.session} == k.sessions;
    }
  }

  /** `list` holds the stored value of each session in `ids`, once. */
  ghost predicate Lists(k: Keys, user: UserId, ids: set<SessionId>, list: seq<Session>) {
    && (forall i | 0 <= i < |list| ::
          && list[i].id in ids && list[i].id in k.sessions
          && k.sessions[list[i].id].value == list[i] && list[i].user == user)
    && (forall i, j | 0 <= i < j < |list| :: list[i].id != list[j].id)
    && (forall id | id in ids :: exists i :: 0 <= i < |list| && list[i].id == id)
  }

  lemma ListsOneMore(k: Keys, user: UserId, ids: set<SessionId>, list: seq<Session>, id: SessionId)
    requires Lists(k, user, ids, list) && id !in ids
    ensures id in k.sessions && k.sessions[id].value.id == id && k.sessions[id].value.user == user ==>
              Lists(k, user, ids + {id}, list + [k.sessions[id].value])
  {
    if id in k.sessions && k.sessions[id].value.id == id && k.sessions[id].value.user == user {
      var more := list + [k.sessions[id].value];
      forall i | i in ids + {id} ensures exists j :: 0 <= j < |more| && more[j].id == i {
        if i == id {
          assert more[|list|].id == i;
        } else {
          var j :| 0 <= j < |list| && list[j].id == i;
          assert more[j].id == i;
        }
      }
    }
  }

  /** The live sessions of a user are the live members of its index. */
  lemma LiveIsMembers(k: Keys, user: UserId)
    requires forall id | id in k.sessions :: SessionCoherent(k, id)
    requires forall u | u in k.index :: IndexCoherent(k, u)
    ensures Live(k, user) == Members(k, user) * k.sessions.Keys
  {
    forall id | id in Live(k, user) ensures id in Members(k, user) { assert SessionCoherent(k, id); }
    if user in k.index { assert IndexCoherent(k, user); }
  }

  lemma TidiedNothing(k: Keys, user: UserId)
    requires user in k.index ==> k.index[user].value != {}
    ensures Tidied(k, user, {}) == k
  {
    if user in k.index { assert k.index[user].value - {} == k.index[user].value; }
  }

  /** The new refresh token will be exchanged, whatever it is exchanged for. */
  ghost predicate Exchangeable(k: Keys, refresh: Digest) {
    forall next, expiresAt :: RotateAnswer(k, refresh, next, expiresAt).Rotated?
  }

  /** After an exchange the session that was answered is stored, and its new digest will be
      exchanged. */
  lemma ExchangedUsable(k: Keys, given: Digest, next: Digest, expiresAt: Time, now: Time, ttl: Time)
    requires RotateAnswer(k, given, next, expiresAt).Rotated?
    requires k.sessions[k.tokens[given].value.session].value.id == k.tokens[given].value.session
    ensures
      var session := RotateAnswer(k, given, next, expiresAt).session;
      var after := Exchanged(k, given, next, expiresAt, now, ttl);
      Exchangeable(after, next) && Lookup(after, session.id) == Some(session)
  {
  }

  class Store {
    const ttl: Time
    var now: Time
    var sessions: map<SessionId, Stored<Session>>
    var tokens: map<Digest, Stored<Token>>
    var index: map<UserId, Stored<set<SessionId>>>

    function View(): Keys
      reads this
    {
      Keys(sessions, tokens, index)
    }

    ghost predicate Valid()
      reads this
    {
      0 < ttl && Coherent(View(), now, ttl) && RecordsAgree(View())
    }

    constructor (ttl: Time, now: Time)
      requires 0 < ttl
      ensures Valid() && View() == NO_KEYS && this.ttl == ttl && this.now == now
      ensures sessions == map[] && tokens == map[] && index == map[]
    {
      this.ttl, this.now := ttl, now;
      sessions, tokens, index := map[], map[], map[];
    }

    /** An exchange: the session of `given` gets the next digest and the new expiry, `given` is spent,
        the next record is active, all of them and the index last one ttl from now, and nothing else
        has changed. */
    ghost predicate Handed(before: Keys, after: Keys, given: Digest, next: Digest, expiresAt: Time, session: Session)
      reads this
    {
      && given in before.tokens && before.tokens[given].value.session in before.sessions
      && var token := before.tokens[given].value;
      && session == before.sessions[token.session].value.(digest := next, expiresAt := expiresAt)
      && after.sessions == before.sessions[token.session := Stored(session, now + ttl)]
      && next in after.tokens && after.tokens[next] == Stored(token.(state := Active), now + ttl)
      && given in after.tokens && (given != next ==> after.tokens[given] == Stored(token.(state := Spent), now + ttl))
      && after.tokens.Keys == before.tokens.Keys + {next}
      && (forall d | d in before.tokens && d != given && d != next :: after.tokens[d] == before.tokens[d])
      && after.index.Keys == before.index.Keys
      && (forall u | u in before.index ::
            after.index[u] == if u == token.user then Stored(before.index[u].value, now + ttl) else before.index[u])
    }

    /** Time passes and keys expire. */
    method Pass(elapsed: nat)
      requires Valid()
      modifies this
      ensures Valid() && now == old(now) + elapsed
      ensures View() == Purge(old(View()), now)
      ensures forall id :: id in sessions <==> id in old(sessions) && now < old(sessions)[id].expiry
      ensures forall d :: d in tokens <==> d in old(tokens) && now < old(tokens)[d].expiry
      ensures forall u :: u in index <==> u in old(index) && now < old(index)[u].expiry
      ensures forall id | id in sessions :: sessions[id] == old(sessions)[id]
      ensures forall d | d in tokens :: tokens[d] == old(tokens)[d]
      ensures forall u | u in index :: index[u] == old(index)[u]
    {
      PurgedCoherent(View(), now, now + elapsed, ttl);
      Expire(now + elapsed);
    }

    /** Redis drops the keys whose time has run out. */
    method Expire(later: Time)
      modifies this
      ensures now == later && View() == Purge(old(View()), later)
    {
      now := later;
      sessions, tokens, index := Unexpired(sessions, now), Unexpired(tokens, now), Unexpired(index, now);
    }

    method Get(id: SessionId) returns (r: Option<Session>)
      ensures r == Lookup(View(), id)
      ensures r == if id in sessions then Some(sessions[id].value) else None
    {
      if id in sessions { r := Some(sessions[id].value); } else { r := None; }
    }

    method Revoke(id: SessionId)
      requires Valid()
      modifies this`sessions, this`tokens, this`index
      ensures Valid()
      ensures View() == if id in old(sessions) then Revoked(old(View()), old(sessions)[id].value) else old(View())
      ensures id in old(sessions) ==>
        var s := old(sessions)[id].value;
        && sessions == old(sessions) - {id} && tokens == old(tokens) - {s.digest}
        && OneLess(old(index), index, s.user, {id})
    {
      var read := Get(id);
      if read == None { return; }
      RevokedCoherent(View(), id, now, ttl);
      var session := read.value;
      assert SessionCoherent(View(), id);
      sessions := sessions - {session.id};
      tokens := tokens - {session.digest};
      index := Unindexed(index, session.user, {session.id});
    }

    method RevokeUser(user: UserId)
      requires Valid()
      modifies this`sessions, this`tokens, this`index
      ensures Valid()
      ensures View() == Swept(old(View()), user)
      ensures forall id :: id in sessions <==> id in old(sessions) && old(sessions)[id].value.user != user
      ensures forall id | id in sessions :: sessions[id] == old(sessions)[id]
      ensures forall d :: d in tokens <==>
        d in old(tokens) && !exists id ::
          id in old(sessions) && old(sessions)[id].value.user == user && old(sessions)[id].value.digest == d
      ensures forall d | d in tokens :: tokens[d] == old(tokens)[d]
      ensures index == old(index) - {user}
      ensures Live(View(), user) == {} && forall u | u != user :: Live(View(), u) == Live(old(View()), u)
    {
      ghost var k := View();
      var ids := Members(View(), user);
      var todo := ids;
      WithoutNone(k);
      while todo != {}
        invariant todo <= ids && Valid()
        invariant SweepAt(k, View(), user, ids - todo)
      {
        var id :| id in todo;
        SweepOneMore(k, View(), user, ids - todo, id, now, ttl);
        assert ids - (todo - {id}) == ids - todo + {id};
        Revoke(id);
        todo := todo - {id};
      }
      assert ids - {} == ids;
      SweptCoherent(k, user, now, ttl);
      SweptRecords(k, user);
      SweptExactly(k, user, now, ttl);
      index := index - {user};
      assert View() == Swept(k, user);
    }

    /** Create, for a user who may have several sessions or only one. */
    method Create(session: Session, allowMultiple: bool)
      requires Valid() && Unused(View(), session.id, session.digest)
      modifies this`sessions, this`tokens, this`index
      ensures Valid()
      ensures View()
              == Created(if allowMultiple then old(View()) else Swept(old(View()), session.user), session, now, ttl)
      ensures session.id in sessions && sessions[session.id] == Stored(session, now + ttl)
      ensures session.digest in tokens
              && tokens[session.digest]
                 == Stored(Token(session.id, session.family, session.user, Active), now + ttl)
      ensures session.user in index && session.id in index[session.user].value
              && index[session.user].expiry == now + ttl
      ensures forall id | id in sessions && id != session.id :: id in old(sessions) && sessions[id] == old(sessions)[id]
      ensures Live(View(), session.user)
              == (if allowMultiple then Live(old(View()), session.user) else {}) + {session.id}
      ensures forall u | u != session.user :: Live(View(), u) == Live(old(View()), u)
    {
      SweptRecords(View(), session.user);
      if !allowMultiple {
        RevokeUser(session.user);
      }
      CreatedCoherent(View(), session, now, ttl);
      CreatedLiveSets(View(), session, now, ttl);
      Insert(session);
    }

    /** The MULTI of Create. */
    method Insert(session: Session)
      modifies this`sessions, this`tokens, this`index
      ensures View() == Created(old(View()), session, now, ttl)
      ensures sessions == old(sessions)[session.id := Stored(session, now + ttl)]
      ensures tokens == old(tokens)[session.digest :=
        Stored(Token(session.id, session.family, session.user, Active), now + ttl)]
      ensures session.user in index && index == old(index)[session.user := index[session.user]]
      ensures index[session.user] == Stored(
        (if session.user in old(index) then old(index)[session.user].value else {}) + {session.id}, now + ttl)
    {
      var token := Token(session.id, session.family, session.user, Active);
      sessions := sessions[session.id := Stored(session, now + ttl)];
      tokens := tokens[session.digest := Stored(token, now + ttl)];
      index := Indexed(index, session.user, session.id, now + ttl);
    }

    /** The sessions of a user, each once, in the order in which SMEMBERS happened to give their
        ids; the ids of dead sessions leave the index. */
    method ListByUser(user: UserId) returns (list: seq<Session>)
      requires Valid()
      modifies this`index
      ensures Valid()
      ensures View() == Tidied(old(View()), user, Members(old(View()), user) - old(sessions).Keys)
      ensures OneLess(old(index), index, user,
        (if user in old(index) then old(index)[user].value else {}) - sessions.Keys)
      ensures Lists(View(), user, Live(View(), user), list)
    {
      ghost var k := View();
      var ids := Members(View(), user);
      var todo := ids;
      var stale: set<SessionId> := {};
      list := [];
      assert ids - todo == {};
      while todo != {}
        invariant todo <= ids && View() == k
        invariant stale == (ids - todo) - k.sessions.Keys
        invariant Lists(k, user, (ids - todo) * k.sessions.Keys, list)
      {
        var id :| id in todo;
        var read := Get(id);
        assert IndexCoherent(k, user);
        ListsOneMore(k, user, (ids - todo) * k.sessions.Keys, list, id);
        assert ids - (todo - {id}) == ids - todo + {id};
        if read == None {
          stale := stale + {id};
          assert (ids - (todo - {id})) * k.sessions.Keys == (ids - todo) * k.sessions.Keys;
        } else {
          assert SessionCoherent(k, id);
          if read.value.user != user {
            stale := stale + {id};
          } else {
            list := list + [read.value];
            assert (ids - (todo - {id})) * k.sessions.Keys == (ids - todo) * k.sessions.Keys + {id};
          }
        }
        todo := todo - {id};
      }
      assert ids - {} == ids;
      LiveIsMembers(k, user);
      TidiedCoherent(k, user, stale, now, ttl);
      if stale != {} {
        index := Unindexed(index, user, stale);
      } else {
        TidiedNothing(k, user);
      }
    }

    /** The reuse branch of rotate.lua. */
    method Replay(token: Token)
      requires Valid() && (token.session in sessions ==> token.user == sessions[token.session].value.user)
      modifies this`sessions, this`tokens, this`index
      ensures Valid() && View() == Replayed(old(View()), token)
      ensures sessions == old(sessions) - {token.session}
      ensures tokens == if token.session in old(sessions)
                        then old(tokens) - {old(sessions)[token.session].value.digest} else old(tokens)
      ensures OneLess(old(index), index, token.user, {token.session})
    {
      ReplayedCoherent(View(), token, now, ttl);
      if token.session in sessions {
        var session := sessions[token.session].value;
        tokens := tokens - {session.digest};
      }
      sessions := sessions - {token.session};
      index := Unindexed(index, token.user, {token.session});
      assert View() == Replayed(old(View()), token);
    }

    /** The statements of the success branch of rotate.lua. */
    method Exchange(given: Digest, next: Digest, expiresAt: Time) returns (session: Session)
      requires RotateAnswer(View(), given, next, expiresAt).Rotated?
      modifies this`sessions, this`tokens, this`index
      ensures View() == Exchanged(old(View()), given, next, expiresAt, old(now), ttl)
      ensures RotateAnswer(old(View()), given, next, expiresAt) == Rotated(session)
      ensures Handed(old(View()), View(), given, next, expiresAt, session)
    {
      ghost var goal := Exchanged(View(), given, next, expiresAt, now, ttl);
      var token := tokens[given].value;
      session := sessions[token.session].value;
      token := token.(state := Spent);
      tokens := tokens[given := Stored(token, now + ttl)];
      session := session.(digest := next);
      session := session.(expiresAt := expiresAt);
      var newToken := Token(token.session, token.family, token.user, Active);
      tokens := tokens[next := Stored(newToken, now + ttl)];
      sessions := sessions[token.session := Stored(session, now + ttl)];
      if token.user in index {
        index := index[token.user := index[token.user].(expiry := now + ttl)];
      }
      assert sessions == goal.sessions;
      assert tokens == goal.tokens;
      assert index == goal.index;
    }

    /** The success branch keeps the store valid and leaves a digest that can be exchanged. */
    method Turn(given: Digest, next: Digest, expiresAt: Time) returns (session: Session)
      requires Valid() && next !in tokens && RotateAnswer(View(), given, next, expiresAt).Rotated?
      modifies this`sessions, this`tokens, this`index
      ensures Valid() && View() == Exchanged(old(View()), given, next, expiresAt, old(now), ttl)
      ensures RotateAnswer(old(View()), given, next, expiresAt) == Rotated(session)
      ensures Exchangeable(View(), next) && Lookup(View(), session.id) == Some(session)
      ensures Handed(old(View()), View(), given, next, expiresAt, session)
    {
      assert SessionCoherent(View(), tokens[given].value.session);
      ExchangedUsable(View(), given, next, expiresAt, now, ttl);
      ExchangedCoherent(View(), given, next, expiresAt, now, ttl);
      session := Exchange(given, next, expiresAt);
    }

    /** The branches of rotate.lua. */
    method Rotate(given: Digest, next: Digest, expiresAt: Time) returns (reply: RotateReply)
      requires Valid() && next !in tokens
      modifies this`sessions, this`tokens, this`index
      ensures Valid()
      ensures reply == RotateAnswer(old(View()), given, next, expiresAt)
      ensures View() == RotateKeys(old(View()), given, next, expiresAt, old(now), ttl)
      ensures reply.Rotated? ==> Exchangeable(View(), next) && Lookup(View(), reply.session.id) == Some(reply.session)
      ensures reply == Reused <==> given in old(tokens) && old(tokens)[given].value.state == Spent
      ensures reply.Rotated? <==>
        && given in old(tokens) && old(tokens)[given].value.state == Active
        && old(tokens)[given].value.session in old(sessions)
        && old(sessions)[old(tokens)[given].value.session].value.digest == given
      ensures reply == Rejected ==> View() == old(View())
      ensures reply == Reused ==> sessions == old(sessions) - {old(tokens)[given].value.session}
      ensures reply.Rotated? ==> Handed(old(View()), View(), given, next, expiresAt, reply.session)
    {
      if given !in tokens { return Rejected; }
      var token := tokens[given].value;
      if token.state == Spent {
        Replay(token);
        return Reused;
      }
      if token.session !in sessions { return Rejected; }
      if sessions[token.session].value.digest != given { return Rejected; }
      var session := Turn(given, next, expiresAt);
      return Rotated(session);
    }
  }
}
