/** Users who may have only one session: Create first revokes the user's sessions and then, in a
    round trip of its own, stores the new one.
 */
module SingleSession {
  import opened Wrappers
  import opened KeySpace
  import opened SessionHistory
  import opened SessionProtocol
  import opened UserIndex

  /** The user has at most one live session. */
  ghost predicate AtMostOne(k: Keys, user: UserId) {
    forall i, j | LiveFor(k, i, user) && LiveFor(k, j, user) :: i == j
  }

  /** The session is the only live one of the user. */
  ghost predicate Sole(k: Keys, id: SessionId, user: UserId) {
    forall i :: LiveFor(k, i, user) <==> i == id
  }

  predicate NoneLive(k: Keys, ids: set<SessionId>) {
    forall id | id in ids :: id !in k.sessions
  }

  /** A login that began with its SMEMBERS leaves the new session as the user's only one exactly if
      no session that the index did not name then, or that was created for the user since, is
      still live. */
  lemma SoleExactly(w: World, c: Client, user: UserId, run: seq<Action>, s: Session)
    requires WorldOk(w) && Enabled(w, SweepMembers(c, user, true))
    requires Runs(Next(w, SweepMembers(c, user, true)), run) && NoRestart(run, c) && s.user == user
    requires var w' := After(Next(w, SweepMembers(c, user, true)), run);
             At(w', c) == Cleared(user) && Enabled(w', CreateExec(c, s))
    ensures var w' := After(Next(w, SweepMembers(c, user, true)), run);
            Sole(Next(w', CreateExec(c, s)).core.keys, s.id, user)
            <==> NoneLive(w'.core.keys, Missed(w.core.keys, user) + MadeIn(run, user))
  {
    var w' := After(Next(w, SweepMembers(c, user, true)), run);
    SweptExactly(w, c, user, true, run);
    StepKeeps(w, SweepMembers(c, user, true));
    RunKeeps(Next(w, SweepMembers(c, user, true)), run);
    CreatedSole(w'.core, s, Missed(w.core.keys, user) + MadeIn(run, user));
  }

  lemma NewIdIsNew(c: Core, s: Session)
    requires Inv(c) && CanCreate(c, s)
    ensures s.id !in c.keys.sessions
  {
    forall id | id in c.keys.sessions ensures id in c.past.born { assert SessionOk(c, id); }
  }

  lemma CreatedSole(c: Core, s: Session, made: set<SessionId>)
    requires Inv(c) && CanCreate(c, s)
    requires forall id :: LiveFor(c.keys, id, s.user) <==> id in made && id in c.keys.sessions
    ensures Sole(Create(c, s).keys, s.id, s.user) <==> NoneLive(c.keys, made)
  {
    var k' := Create(c, s).keys;
    NewIdIsNew(c, s);
    assert LiveFor(k', s.id, s.user);
    forall id | id != s.id ensures LiveFor(k', id, s.user) <==> LiveFor(c.keys, id, s.user) {}
    forall id | id in made && id in c.keys.sessions ensures LiveFor(k', id, s.user) && id != s.id {
      assert LiveFor(c.keys, id, s.user);
    }
  }

  // ---------------------------------------------------------------------------------------
  // Runs in which logins of the user do not overlap
  // ---------------------------------------------------------------------------------------

  /** Every session of the user is created by a client that has just swept, while no other client
      sweeps the user's sessions or has swept them. */
  ghost predicate Alone(w: World, a: Action, user: UserId) {
    Made(a, user) != {} ==>
      At(w, a.c) == Cleared(user) && forall d | d in w.clients && d != a.c :: !Clearing(w.clients[d], user)
  }

  ghost predicate LoginsApart(w: World, run: seq<Action>, user: UserId)
    requires Runs(w, run)
    decreases |run|
  {
    run == [] || (Alone(w, run[0], user) && LoginsApart(Next(w, run[0]), run[1..], user))
  }

  ghost predicate SingleInv(w: World, user: UserId) {
    && WorldOk(w) && Covered(w.core.keys, user) && AtMostOne(w.core.keys, user)
    && forall c | c in w.clients && Clearing(w.clients[c], user) :: LeftOver(w.core.keys, w.clients[c], user, {})
  }

  lemma ClientsStep(w: World, a: Action, user: UserId, c: Client)
    requires SingleInv(w, user) && Enabled(w, a) && Alone(w, a, user)
    requires c in Next(w, a).clients && Clearing(Next(w, a).clients[c], user)
    ensures LeftOver(Next(w, a).core.keys, Next(w, a).clients[c], user, {})
  {
    if a.SweepMembers? && a.c == c {
      MembersLeftOver(w, c, user, a.thenCreate);
      NoneMissed(w.core.keys, user);
    } else {
      assert Clearing(At(w, c), user);
      StepLeftOver(w, a, c, user, {});
    }
  }

  lemma CoveredStep(w: World, a: Action, user: UserId)
    requires SingleInv(w, user) && Enabled(w, a)
    ensures Covered(Next(w, a).core.keys, user)
  {
    if a.SweepDel? && At(w, a.c).user == user {
      assert LeftOver(w.core.keys, w.clients[a.c], user, {});
      DropCoversExactly(w.core, user);
    } else {
      OnlyDelUncovers(w, a, user);
    }
  }

  lemma ClearedOut(w: World, c: Client, user: UserId)
    requires SingleInv(w, user) && At(w, c) == Cleared(user)
    ensures forall id :: !LiveFor(w.core.keys, id, user)
  {
    assert LeftOver(w.core.keys, w.clients[c], user, {});
  }

  lemma OneStep(w: World, a: Action, user: UserId)
    requires SingleInv(w, user) && Enabled(w, a) && Alone(w, a, user)
    ensures AtMostOne(Next(w, a).core.keys, user)
  {
    var k, k' := w.core.keys, Next(w, a).core.keys;
    if Made(a, user) != {} {
      ClearedOut(w, a.c, user);
      forall i | LiveFor(k', i, user) ensures i == a.session.id { assert i != a.session.id ==> LiveFor(k, i, user); }
    } else if a.CreateExec? {
      forall i | LiveFor(k', i, user) ensures LiveFor(k, i, user) {}
    } else {
      StepNoneAppears(w, a);
      forall i | LiveFor(k', i, user) ensures LiveFor(k, i, user) {}
    }
  }

  lemma StepSingle(w: World, a: Action, user: UserId)
    requires SingleInv(w, user) && Enabled(w, a) && Alone(w, a, user)
    ensures SingleInv(Next(w, a), user)
  {
    var w' := Next(w, a);
    StepKeeps(w, a);
    CoveredStep(w, a, user);
    OneStep(w, a, user);
    forall c | c in w'.clients && Clearing(w'.clients[c], user)
      ensures LeftOver(w'.core.keys, w'.clients[c], user, {})
    {
      ClientsStep(w, a, user, c);
    }
  }

  lemma {:induction false} RunSingle(w: World, run: seq<Action>, user: UserId)
    requires SingleInv(w, user) && Runs(w, run) && LoginsApart(w, run, user)
    ensures SingleInv(After(w, run), user)
    decreases |run|
  {
    if run != [] {
      StepSingle(w, run[0], user);
      RunSingle(Next(w, run[0]), run[1..], user);
    }
  }

  /** In every such run a single-session user has at most one live session. */
  lemma OneSessionAtATime(ttl: Time, now: Time, run: seq<Action>, user: UserId)
    requires 0 < ttl && Runs(Start(ttl, now), run) && LoginsApart(Start(ttl, now), run, user)
    ensures AtMostOne(After(Start(ttl, now), run).core.keys, user)
  {
    StartOk(ttl, now);
    RunSingle(Start(ttl, now), run, user);
  }

  // ---------------------------------------------------------------------------------------
  // A run in which they do
  // ---------------------------------------------------------------------------------------

  lemma FirstStep(w: World, a: Action, rest: seq<Action>)
    requires Enabled(w, a) && Runs(Next(w, a), rest)
    ensures Runs(w, [a] + rest) && After(w, [a] + rest) == After(Next(w, a), rest)
  {
    assert ([a] + rest)[1..] == rest;
  }

  /** Two clients sweep the user's sessions, and then both create one. */
  function TwoLogins(s: Session, t: Session): seq<Action> {
    [SweepMembers(1, s.user, true)] + ([SweepDel(1)] + ([SweepMembers(2, s.user, true)] + ([SweepDel(2)]
      + ([CreateExec(1, s)] + [CreateExec(2, t)]))))
  }

  /** Both sessions are live at the end. */
  lemma TwoLoginsBothLive(s: Session, t: Session)
    requires s.user == t.user && s.id != t.id && s.digest != t.digest
    ensures Runs(Start(10, 0), TwoLogins(s, t))
    ensures !AtMostOne(After(Start(10, 0), TwoLogins(s, t)).core.keys, s.user)
  {
    var w0 := Start(10, 0);
    var w1 := Next(w0, SweepMembers(1, s.user, true));
    var w2 := Next(w1, SweepDel(1));
    var w3 := Next(w2, SweepMembers(2, s.user, true));
    var w4 := Next(w3, SweepDel(2));
    var w5 := Next(w4, CreateExec(1, s));
    var w6 := Next(w5, CreateExec(2, t));
    assert [CreateExec(2, t)] + [] == [CreateExec(2, t)];
    FirstStep(w5, CreateExec(2, t), []);
    FirstStep(w4, CreateExec(1, s), [CreateExec(2, t)]);
    FirstStep(w3, SweepDel(2), [CreateExec(1, s)] + [CreateExec(2, t)]);
    FirstStep(w2, SweepMembers(2, s.user, true), [SweepDel(2)] + ([CreateExec(1, s)] + [CreateExec(2, t)]));
    FirstStep(w1, SweepDel(1),
              [SweepMembers(2, s.user, true)] + ([SweepDel(2)] + ([CreateExec(1, s)] + [CreateExec(2, t)])));
    FirstStep(w0, SweepMembers(1, s.user, true),
              [SweepDel(1)] + ([SweepMembers(2, s.user, true)] + ([SweepDel(2)]
                + ([CreateExec(1, s)] + [CreateExec(2, t)]))));
    assert LiveFor(w6.core.keys, s.id, s.user) && LiveFor(w6.core.keys, t.id, s.user);
  }
}
