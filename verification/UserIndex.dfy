/** When the index of a user's sessions covers all of them.  It is a theorem of every run in
    which no Create for the user lands between a RevokeUser's SMEMBERS and its DEL, and it fails
    in a run where one does.
 */
module UserIndex {
  import opened Wrappers
  import opened KeySpace
  import opened SessionHistory
  import opened SessionProtocol

  /** A live session is in the index of its user, and the index does not expire before it. */
  ghost predicate CoveredAt(k: Keys, id: SessionId)
    requires id in k.sessions
  {
    var e := k.sessions[id];
    e.value.user in k.index && id in k.index[e.value.user].value && e.expiry <= k.index[e.value.user].expiry
  }

  predicate LiveFor(k: Keys, id: SessionId, user: UserId) {
    id in k.sessions && k.sessions[id].value.user == user
  }

  ghost predicate Covered(k: Keys, user: UserId) {
    forall id | LiveFor(k, id, user) :: CoveredAt(k, id)
  }

  /** A client that is sweeping the user's sessions, or has swept them and is about to create one. */
  predicate Clearing(pc: Pc, user: UserId) {
    (pc.Sweeping? || pc.Cleared?) && pc.user == user
  }

  /** The live sessions of the user that a sweep will not revoke are among `made`. */
  ghost predicate LeftOver(k: Keys, pc: Pc, user: UserId, made: set<SessionId>) {
    forall id | LiveFor(k, id, user) ::
      id in made || (pc.Sweeping? && (id in pc.todo || (pc.held.Some? && pc.held.value.id == id)))
  }

  // ---------------------------------------------------------------------------------------
  // Operations on the key space
  // ---------------------------------------------------------------------------------------

  /** What all steps but Create do to live sessions: none appears, and none changes its user. */
  ghost predicate NoneAppears(k: Keys, k': Keys) {
    forall id | id in k'.sessions :: id in k.sessions && k'.sessions[id].value.user == k.sessions[id].value.user
  }

  lemma RevokeCovers(c: Core, read: Session, id: SessionId)
    requires id in Revoke(c, read).keys.sessions && CoveredAt(c.keys, id)
    ensures CoveredAt(Revoke(c, read).keys, id)
  {
    var u := c.keys.sessions[id].value.user;
    assert u == read.user ==> id in c.keys.index[u].value - {read.id};
  }

  lemma LaterCovers(c: Core, elapsed: nat, id: SessionId)
    requires id in Later(c, elapsed).keys.sessions && CoveredAt(c.keys, id)
    ensures CoveredAt(Later(c, elapsed).keys, id)
  {
  }

  lemma CreateCovers(c: Core, s: Session, id: SessionId)
    requires Inv(c) && CanCreate(c, s) && id in Create(c, s).keys.sessions
    requires id in c.keys.sessions ==> CoveredAt(c.keys, id)
    ensures CoveredAt(Create(c, s).keys, id)
  {
    if id != s.id { assert SessionOk(c, id); }
  }

  lemma ReplayCovers(k: Keys, token: Token, id: SessionId)
    requires id in Replayed(k, token).sessions && CoveredAt(k, id)
    ensures CoveredAt(Replayed(k, token), id)
  {
    assert id in k.index[k.sessions[id].value.user].value - {token.session};
  }

  lemma ExchangeCovers(c: Core, given: Digest, next: Digest, expiresAt: Time, id: SessionId)
    requires RotateAnswer(c.keys, given, next, expiresAt).Rotated? && id in c.keys.sessions && CoveredAt(c.keys, id)
    requires var token := c.keys.tokens[given].value; token.user == c.keys.sessions[token.session].value.user
    requires c.keys.sessions[id].expiry <= c.now + c.ttl
    ensures CoveredAt(Exchanged(c.keys, given, next, expiresAt, c.now, c.ttl), id)
  {
  }

  lemma RotateCovers(c: Core, given: Digest, next: Digest, expiresAt: Time, id: SessionId)
    requires Inv(c) && id in c.keys.sessions && CoveredAt(c.keys, id)
    ensures var k := Rotate(c, given, next, expiresAt).keys; id in k.sessions ==> CoveredAt(k, id)
  {
    match RotateAnswer(c.keys, given, next, expiresAt)
    case Rejected =>
    case Reused =>
      var token := c.keys.tokens[given].value;
      if id in Replayed(c.keys, token).sessions { ReplayCovers(c.keys, token, id); }
    case Rotated(_) =>
      assert TokenOk(c, given) && SessionOk(c, c.keys.tokens[given].value.session) && SessionOk(c, id);
      ExchangeCovers(c, given, next, expiresAt, id);
  }

  lemma TidyCovers(c: Core, user: UserId, ids: set<SessionId>, id: SessionId)
    requires id in c.keys.sessions && CoveredAt(c.keys, id) && id !in ids
    ensures CoveredAt(Tidy(c, user, ids).keys, id)
  {
    assert id in c.keys.index[c.keys.sessions[id].value.user].value - ids;
  }

  lemma RotateNoneAppears(k: Keys, given: Digest, next: Digest, expiresAt: Time, now: Time, ttl: Time)
    ensures NoneAppears(k, RotateKeys(k, given, next, expiresAt, now, ttl))
  {
  }

  // ---------------------------------------------------------------------------------------
  // Steps
  // ---------------------------------------------------------------------------------------

  lemma StepNoneAppears(w: World, a: Action)
    requires Enabled(w, a) && !a.CreateExec?
    ensures NoneAppears(w.core.keys, Next(w, a).core.keys)
  {
    if a.RotateEval? {
      RotateNoneAppears(w.core.keys, a.given, a.next, a.expiresAt, w.core.now, w.core.ttl);
      assert Next(w, a).core.keys == RotateKeys(w.core.keys, a.given, a.next, a.expiresAt, w.core.now, w.core.ttl);
    }
  }

  lemma DropCovers(c: Core, user: UserId, id: SessionId)
    requires id in c.keys.sessions && CoveredAt(c.keys, id) && c.keys.sessions[id].value.user != user
    ensures CoveredAt(Drop(c, user).keys, id)
  {
  }

  lemma StaleIsDead(w: World, c: Client)
    requires WorldOk(w) && At(w, c).Listing?
    ensures forall id | id in At(w, c).stale :: id !in w.core.keys.sessions
  {
    assert PcOk(w.core, w.clients[c]);
  }

  /** The core after a step that takes keys away at the request of a client. */
  lemma TakeCovers(w: World, a: Action, id: SessionId)
    requires Enabled(w, a) && (a.RevokeExec? || a.SweepExec? || a.SweepDel?)
    requires id in w.core.keys.sessions && CoveredAt(w.core.keys, id) && id in Next(w, a).core.keys.sessions
    requires a.SweepDel? ==> At(w, a.c).user != w.core.keys.sessions[id].value.user
    ensures CoveredAt(Next(w, a).core.keys, id)
  {
    if a.RevokeExec? {
      RevokeCovers(w.core, At(w, a.c).read, id);
    } else if a.SweepExec? {
      RevokeCovers(w.core, At(w, a.c).held.value, id);
    } else {
      DropCovers(w.core, At(w, a.c).user, id);
    }
  }

  /** A step leaves a session covered, unless it deletes the index of its user. */
  lemma StepCoversAt(w: World, a: Action, id: SessionId)
    requires WorldOk(w) && Enabled(w, a) && id in Next(w, a).core.keys.sessions
    requires id in w.core.keys.sessions ==> CoveredAt(w.core.keys, id)
    requires !a.CreateExec? ==> id in w.core.keys.sessions
    requires a.SweepDel? ==> At(w, a.c).user != w.core.keys.sessions[id].value.user
    ensures CoveredAt(Next(w, a).core.keys, id)
  {
    if a.Tick? {
      LaterCovers(w.core, a.elapsed, id);
    } else if a.CreateExec? {
      CreateCovers(w.core, a.session, id);
    } else if a.RotateEval? {
      RotateCovers(w.core, a.given, a.next, a.expiresAt, id);
    } else if a.RevokeExec? || a.SweepExec? || a.SweepDel? {
      TakeCovers(w, a, id);
    } else if a.ListSrem? {
      StaleIsDead(w, a.c);
      TidyCovers(w.core, At(w, a.c).user, At(w, a.c).stale, id);
    }
  }

  /** Every step but the DEL of a RevokeUser for the user keeps the user's live sessions covered,
      whatever else is going on. */
  lemma OnlyDelUncovers(w: World, a: Action, user: UserId)
    requires WorldOk(w) && Enabled(w, a) && Covered(w.core.keys, user)
    requires a.SweepDel? ==> At(w, a.c).user != user
    ensures Covered(Next(w, a).core.keys, user)
  {
    if !a.CreateExec? { StepNoneAppears(w, a); }
    forall id | LiveFor(Next(w, a).core.keys, id, user) ensures CoveredAt(Next(w, a).core.keys, id) {
      if a.CreateExec? && id in w.core.keys.sessions { assert LiveFor(w.core.keys, id, user); }
      StepCoversAt(w, a, id);
    }
  }

  /** The sessions of the user that a step creates. */
  function Made(a: Action, user: UserId): set<SessionId> {
    if a.CreateExec? && a.session.user == user then {a.session.id} else {}
  }

  /** The live sessions of the user that its index does not name. */
  function Missed(k: Keys, user: UserId): set<SessionId> {
    set id | id in k.sessions && LiveFor(k, id, user) && id !in Members(k, user)
  }

  lemma NoneMissed(k: Keys, user: UserId)
    requires Covered(k, user)
    ensures Missed(k, user) == {}
  {
    forall id | LiveFor(k, id, user) ensures id in Members(k, user) { assert CoveredAt(k, id); }
  }

  lemma MembersLeftOver(w: World, c: Client, user: UserId, thenCreate: bool)
    requires Enabled(w, SweepMembers(c, user, thenCreate))
    ensures var w' := Next(w, SweepMembers(c, user, thenCreate));
            Clearing(At(w', c), user) && LeftOver(w'.core.keys, At(w', c), user, Missed(w.core.keys, user))
  {
  }

  lemma FewerLeftOver(k: Keys, k': Keys, pc: Pc, user: UserId, made: set<SessionId>)
    requires LeftOver(k, pc, user, made) && NoneAppears(k, k')
    ensures LeftOver(k', pc, user, made)
  {
    forall id | LiveFor(k', id, user)
      ensures id in made || (pc.Sweeping? && (id in pc.todo || (pc.held.Some? && pc.held.value.id == id)))
    {
      assert LiveFor(k, id, user);
    }
  }

  /** The step of the sweeping client itself. */
  lemma SweeperLeftOver(w: World, a: Action, user: UserId, made: set<SessionId>)
    requires WorldOk(w) && Enabled(w, a) && (a.SweepGet? || a.SweepExec? || a.SweepDel?)
    requires Clearing(At(w, a.c), user) && LeftOver(w.core.keys, At(w, a.c), user, made)
    requires Clearing(At(Next(w, a), a.c), user)
    ensures LeftOver(Next(w, a).core.keys, At(Next(w, a), a.c), user, made)
  {
    var k := w.core.keys;
    if a.SweepGet? && a.id in k.sessions { assert SessionOk(w.core, a.id); }
    forall id | LiveFor(Next(w, a).core.keys, id, user) ensures LiveFor(k, id, user) {}
  }

  lemma CreateLeftOver(c: Core, s: Session, pc: Pc, user: UserId, made: set<SessionId>)
    requires LeftOver(c.keys, pc, user, made)
    ensures LeftOver(Create(c, s).keys, pc, user, made + if s.user == user then {s.id} else {})
  {
    var k' := Create(c, s).keys;
    forall id | LiveFor(k', id, user) && id != s.id ensures LiveFor(c.keys, id, user) {}
  }

  /** A sweep goes on only by its own steps. */
  lemma PcStays(w: World, a: Action, c: Client, user: UserId)
    requires Enabled(w, a) && !(a.SweepMembers? && a.c == c)
    requires Clearing(At(w, c), user) && Clearing(At(Next(w, a), c), user)
    ensures At(Next(w, a), c) == At(w, c) || ((a.SweepGet? || a.SweepExec? || a.SweepDel?) && a.c == c)
  {
  }

  /** What a sweep leaves over grows only by the sessions that others create. */
  lemma StepLeftOver(w: World, a: Action, c: Client, user: UserId, made: set<SessionId>)
    requires WorldOk(w) && Enabled(w, a) && !(a.SweepMembers? && a.c == c)
    requires Clearing(At(w, c), user) && Clearing(At(Next(w, a), c), user)
    requires LeftOver(w.core.keys, At(w, c), user, made)
    ensures LeftOver(Next(w, a).core.keys, At(Next(w, a), c), user, made + Made(a, user))
  {
    assert made + {} == made;
    PcStays(w, a, c, user);
    if At(Next(w, a), c) != At(w, c) {
      SweeperLeftOver(w, a, user, made);
    } else if a.CreateExec? {
      CreateLeftOver(w.core, a.session, At(w, c), user, made);
    } else {
      StepNoneAppears(w, a);
      FewerLeftOver(w.core.keys, Next(w, a).core.keys, At(w, c), user, made);
    }
  }

  // ---------------------------------------------------------------------------------------
  // From the SMEMBERS of a sweep to its DEL
  // ---------------------------------------------------------------------------------------

  /** The sessions of the user that a run creates. */
  function MadeIn(run: seq<Action>, user: UserId): set<SessionId> {
    if run == [] then {} else Made(run[0], user) + MadeIn(run[1..], user)
  }

  /** The client does not start another sweep in the run. */
  predicate NoRestart(run: seq<Action>, c: Client) {
    forall i | 0 <= i < |run| :: !(run[i].SweepMembers? && run[i].c == c)
  }

  lemma RestartOn(run: seq<Action>, c: Client)
    requires run != [] && NoRestart(run, c)
    ensures !(run[0].SweepMembers? && run[0].c == c) && NoRestart(run[1..], c)
  {
    forall i | 0 <= i < |run[1..]| ensures !(run[1..][i].SweepMembers? && run[1..][i].c == c) {
      assert run[1..][i] == run[i + 1];
    }
  }

  /** Only an SMEMBERS starts a sweep. */
  lemma {:induction false} NotClearing(w: World, run: seq<Action>, c: Client, user: UserId)
    requires Runs(w, run) && NoRestart(run, c) && !Clearing(At(w, c), user)
    ensures !Clearing(At(After(w, run), c), user)
    decreases |run|
  {
    if run != [] {
      RestartOn(run, c);
      NotClearing(Next(w, run[0]), run[1..], c, user);
    }
  }

  lemma {:induction false} RunLeftOver(w: World, run: seq<Action>, c: Client, user: UserId, made: set<SessionId>)
    requires WorldOk(w) && Runs(w, run) && NoRestart(run, c)
    requires Clearing(At(w, c), user) && Clearing(At(After(w, run), c), user)
    requires LeftOver(w.core.keys, At(w, c), user, made)
    ensures LeftOver(After(w, run).core.keys, At(After(w, run), c), user, made + MadeIn(run, user))
    decreases |run|
  {
    if run == [] {
      assert made + {} == made;
    } else {
      var w' := Next(w, run[0]);
      RestartOn(run, c);
      if !Clearing(At(w', c), user) { NotClearing(w', run[1..], c, user); }
      StepKeeps(w, run[0]);
      StepLeftOver(w, run[0], c, user, made);
      RunLeftOver(w', run[1..], c, user, made + Made(run[0], user));
      assert made + Made(run[0], user) + MadeIn(run[1..], user) == made + MadeIn(run, user);
    }
  }

  /** Deleting an index keeps the user's live sessions covered exactly if there are none. */
  lemma DropCoversExactly(c: Core, user: UserId)
    ensures Covered(Drop(c, user).keys, user) <==> forall id :: !LiveFor(c.keys, id, user)
  {
    var k' := Drop(c, user).keys;
    forall id | LiveFor(c.keys, id, user) ensures LiveFor(k', id, user) && !CoveredAt(k', id) {}
    forall id | LiveFor(k', id, user) ensures LiveFor(c.keys, id, user) {}
  }

  lemma {:induction false} MadeBorn(w: World, run: seq<Action>, user: UserId, id: SessionId)
    requires WorldOk(w) && Runs(w, run) && id in MadeIn(run, user)
    ensures id in After(w, run).core.past.born && After(w, run).core.past.born[id].user == user
    decreases |run|
  {
    StepKeeps(w, run[0]);
    if id in Made(run[0], user) {
      RunKeeps(Next(w, run[0]), run[1..]);
    } else {
      MadeBorn(Next(w, run[0]), run[1..], user, id);
    }
  }

  /** At the end of a sweep the live sessions of the user are exactly the live ones among those
      that the index did not name at its SMEMBERS and those created since. */
  lemma SweptExactly(w: World, c: Client, user: UserId, thenCreate: bool, run: seq<Action>)
    requires WorldOk(w) && Enabled(w, SweepMembers(c, user, thenCreate))
    requires Runs(Next(w, SweepMembers(c, user, thenCreate)), run) && NoRestart(run, c)
    requires var pc := At(After(Next(w, SweepMembers(c, user, thenCreate)), run), c);
             Clearing(pc, user) && (pc.Sweeping? ==> pc.todo == {} && pc.held.None?)
    ensures var k := After(Next(w, SweepMembers(c, user, thenCreate)), run).core.keys;
            forall id :: LiveFor(k, id, user) <==>
              id in Missed(w.core.keys, user) + MadeIn(run, user) && id in k.sessions
  {
    var a := SweepMembers(c, user, thenCreate);
    StepKeeps(w, a);
    MembersLeftOver(w, c, user, thenCreate);
    RunLeftOver(Next(w, a), run, c, user, Missed(w.core.keys, user));
    RunKeeps(Next(w, a), run);
    var w' := After(Next(w, a), run);
    forall id | id in Missed(w.core.keys, user) + MadeIn(run, user) && id in w'.core.keys.sessions
      ensures LiveFor(w'.core.keys, id, user)
    {
      if id in MadeIn(run, user) { MadeBorn(Next(w, a), run, user, id); } else { assert SessionOk(w.core, id); }
      assert SessionOk(w'.core, id);
    }
  }

  /** The DEL of a RevokeUser leaves a live session uncovered exactly if a session that the index
      did not name at the SMEMBERS of this sweep, or one created since, is still live. */
  lemma DelUncoversExactly(w: World, c: Client, user: UserId, thenCreate: bool, run: seq<Action>)
    requires WorldOk(w) && Enabled(w, SweepMembers(c, user, thenCreate))
    requires Runs(Next(w, SweepMembers(c, user, thenCreate)), run) && NoRestart(run, c)
    requires var w' := After(Next(w, SweepMembers(c, user, thenCreate)), run);
             Enabled(w', SweepDel(c)) && At(w', c).user == user
    ensures var w' := After(Next(w, SweepMembers(c, user, thenCreate)), run);
            Covered(Next(w', SweepDel(c)).core.keys, user) <==>
              forall id | id in Missed(w.core.keys, user) + MadeIn(run, user) :: id !in w'.core.keys.sessions
  {
    var w' := After(Next(w, SweepMembers(c, user, thenCreate)), run);
    SweptExactly(w, c, user, thenCreate, run);
    DropCoversExactly(w'.core, user);
  }

  // ---------------------------------------------------------------------------------------
  // Runs without a creation inside a sweep
  // ---------------------------------------------------------------------------------------

  /** No client is between the SMEMBERS and the DEL of a RevokeUser for this user. */
  ghost predicate NoSweep(w: World, user: UserId) {
    forall c | c in w.clients :: !(w.clients[c].Sweeping? && w.clients[c].user == user)
  }

  ghost predicate CoverInv(w: World, user: UserId) {
    && WorldOk(w) && Covered(w.core.keys, user)
    && forall c | c in w.clients && w.clients[c].Sweeping? && w.clients[c].user == user ::
         LeftOver(w.core.keys, w.clients[c], user, {})
  }

  /** The sweep of any client after a step. */
  lemma SweepsStep(w: World, a: Action, user: UserId, c: Client)
    requires CoverInv(w, user) && Enabled(w, a) && (Made(a, user) != {} ==> NoSweep(w, user))
    requires c in Next(w, a).clients && At(Next(w, a), c).Sweeping? && At(Next(w, a), c).user == user
    ensures LeftOver(Next(w, a).core.keys, Next(w, a).clients[c], user, {})
  {
    if a.SweepMembers? && a.c == c {
      MembersLeftOver(w, c, user, a.thenCreate);
      NoneMissed(w.core.keys, user);
    } else {
      assert At(w, c).Sweeping? && At(w, c).user == user;
      StepLeftOver(w, a, c, user, {});
    }
  }

  lemma KeysCovered(w: World, a: Action, user: UserId)
    requires CoverInv(w, user) && Enabled(w, a)
    ensures Covered(Next(w, a).core.keys, user)
  {
    if a.SweepDel? && At(w, a.c).user == user {
      assert LeftOver(w.core.keys, w.clients[a.c], user, {});
      DropCoversExactly(w.core, user);
    } else {
      OnlyDelUncovers(w, a, user);
    }
  }

  lemma StepCovers(w: World, a: Action, user: UserId)
    requires CoverInv(w, user) && Enabled(w, a) && (Made(a, user) != {} ==> NoSweep(w, user))
    ensures CoverInv(Next(w, a), user)
  {
    var w' := Next(w, a);
    StepKeeps(w, a);
    KeysCovered(w, a, user);
    forall c | c in w'.clients && w'.clients[c].Sweeping? && w'.clients[c].user == user
      ensures LeftOver(w'.core.keys, w'.clients[c], user, {})
    {
      SweepsStep(w, a, user, c);
    }
  }

  /** No session of the user is created while a RevokeUser of that user is under way. */
  ghost predicate NoCreateInSweep(w: World, run: seq<Action>, user: UserId)
    requires Runs(w, run)
    decreases |run|
  {
    run == [] || ((Made(run[0], user) != {} ==> NoSweep(w, user)) && NoCreateInSweep(Next(w, run[0]), run[1..], user))
  }

  lemma {:induction false} RunCovers(w: World, run: seq<Action>, user: UserId)
    requires CoverInv(w, user) && Runs(w, run) && NoCreateInSweep(w, run, user)
    ensures CoverInv(After(w, run), user)
    decreases |run|
  {
    if run != [] {
      StepCovers(w, run[0], user);
      RunCovers(Next(w, run[0]), run[1..], user);
    }
  }

  /** A RevokeUser about to delete the index has revoked every session of the user. */
  lemma SweepComplete(k: Keys, pc: Pc, user: UserId)
    requires LeftOver(k, pc, user, {}) && pc.Sweeping? && pc.todo == {} && pc.held.None?
    ensures forall id :: !LiveFor(k, id, user)
  {
  }

  /** The SweepDel of the client is next. */
  predicate AboutToDelete(pc: Pc, user: UserId) {
    pc.Sweeping? && pc.user == user && pc.todo == {} && pc.held.None?
  }

  lemma SweepsComplete(w: World, c: Client, user: UserId)
    requires CoverInv(w, user)
    ensures AboutToDelete(At(w, c), user) ==> forall id :: !LiveFor(w.core.keys, id, user)
  {
    if AboutToDelete(At(w, c), user) {
      SweepComplete(w.core.keys, w.clients[c], user);
    }
  }

  /** In every such run every live session of the user is in the user's index, which outlives it;
      and a RevokeUser that reaches its DEL leaves no live session of the user. */
  lemma IndexCoversLiveSessions(ttl: Time, now: Time, run: seq<Action>, user: UserId, c: Client)
    requires 0 < ttl && Runs(Start(ttl, now), run) && NoCreateInSweep(Start(ttl, now), run, user)
    ensures Covered(After(Start(ttl, now), run).core.keys, user)
    ensures var w := After(Start(ttl, now), run);
            AboutToDelete(At(w, c), user) ==> forall id :: !LiveFor(w.core.keys, id, user)
  {
    StartOk(ttl, now);
    RunCovers(Start(ttl, now), run, user);
    SweepsComplete(After(Start(ttl, now), run), c, user);
  }

  /** Without that restriction coverage fails: client 1 reads the empty index of a user, client 2
      logs the user in, and client 1 deletes the index that now names the new session. */
  lemma CreateInSweepUncovers(s: Session)
    ensures var run := [SweepMembers(1, s.user, false), CreateExec(2, s), SweepDel(1)];
            && Runs(Start(10, 0), run)
            && !Covered(After(Start(10, 0), run).core.keys, s.user)
  {
    var a, b, c := SweepMembers(1, s.user, false), CreateExec(2, s), SweepDel(1);
    var w0 := Start(10, 0);
    var w1 := Next(w0, a);
    var w2 := Next(w1, b);
    var w3 := Next(w2, c);
    assert [a, b, c][1..] == [b, c] && [b, c][1..] == [c] && [c][1..] == [];
    assert After(w2, [c]) == After(w3, []) == w3;
    assert After(w1, [b, c]) == After(w2, [c]);
    assert After(w0, [a, b, c]) == After(w1, [b, c]);
    assert LiveFor(w3.core.keys, s.id, s.user) && !CoveredAt(w3.core.keys, s.id);
  }
}
