/** What ListByUser lists, and what RevokeOtherSessions leaves, while other clients go on.
 */
module Listings {
  import opened Wrappers
  import opened KeySpace
  import opened SessionHistory
  import opened SessionProtocol
  import opened UserIndex

  // ---------------------------------------------------------------------------------------
  // ListByUser
  // ---------------------------------------------------------------------------------------

  predicate Lists(found: seq<Session>, id: SessionId) {
    exists i :: 0 <= i < |found| && found[i].id == id
  }

  /** A listing that read `members`: what it has dealt with is listed, once, or dead. */
  ghost predicate ListingOk(core: Core, pc: Pc, user: UserId, members: set<SessionId>) {
    && pc.Listing? && pc.user == user && pc.todo <= members
    && (forall id | id in members :: id in pc.todo || Lists(pc.found, id) || id in pc.stale)
    && (forall id | id in pc.stale :: id in members && id !in core.keys.sessions)
    && (forall i | 0 <= i < |pc.found| :: pc.found[i].id in members - pc.todo)
    && (forall i, j | 0 <= i < j < |pc.found| :: pc.found[i].id != pc.found[j].id)
    && (forall id | id in members :: id in core.past.born && core.past.born[id].user == user)
  }

  lemma ListingStarts(w: World, c: Client, user: UserId)
    requires WorldOk(w) && Enabled(w, ListMembers(c, user))
    ensures var w' := Next(w, ListMembers(c, user));
            ListingOk(w'.core, At(w', c), user, Members(w.core.keys, user))
  {
    MembersBorn(w.core, user);
  }

  /** What others do can only make more of the members dead. */
  lemma ListingStays(core: Core, core': Core, pc: Pc, user: UserId, members: set<SessionId>)
    requires ListingOk(core, pc, user, members) && Grows(core, core')
    ensures ListingOk(core', pc, user, members)
  {
  }

  lemma ListsMore(found: seq<Session>, s: Session, id: SessionId)
    ensures Lists(found + [s], id) <==> Lists(found, id) || s.id == id
  {
    if Lists(found, id) {
      var i :| 0 <= i < |found| && found[i].id == id;
      assert (found + [s])[i].id == id;
    }
    if s.id == id { assert (found + [s])[|found|].id == id; }
  }

  lemma ListingFound(core: Core, pc: Pc, user: UserId, members: set<SessionId>, s: Session)
    requires ListingOk(core, pc, user, members) && s.id in pc.todo
    ensures ListingOk(core, pc.(todo := pc.todo - {s.id}, found := pc.found + [s]), user, members)
  {
    forall other ensures Lists(pc.found + [s], other) <==> Lists(pc.found, other) || s.id == other {
      ListsMore(pc.found, s, other);
    }
  }

  /** One GET of the listing. */
  lemma ListingGoesOn(core: Core, pc: Pc, user: UserId, members: set<SessionId>, id: SessionId)
    requires Inv(core) && ListingOk(core, pc, user, members) && id in pc.todo
    ensures ListingOk(core, Listed(pc, core.keys, id), user, members)
  {
    if id in core.keys.sessions {
      assert SessionOk(core, id);
      ListingFound(core, pc, user, members, core.keys.sessions[id].value);
    }
  }

  /** The client does not start another listing in the run. */
  predicate OneListing(run: seq<Action>, c: Client) {
    forall i | 0 <= i < |run| :: !(run[i].ListMembers? && run[i].c == c)
  }

  lemma OneListingOn(run: seq<Action>, c: Client)
    requires run != [] && OneListing(run, c)
    ensures !(run[0].ListMembers? && run[0].c == c) && OneListing(run[1..], c)
  {
    forall i | 0 <= i < |run[1..]| ensures !(run[1..][i].ListMembers? && run[1..][i].c == c) {
      assert run[1..][i] == run[i + 1];
    }
  }

  lemma {:induction false} NotListing(w: World, run: seq<Action>, c: Client)
    requires Runs(w, run) && OneListing(run, c) && !At(w, c).Listing?
    ensures !At(After(w, run), c).Listing?
    decreases |run|
  {
    if run != [] {
      OneListingOn(run, c);
      NotListing(Next(w, run[0]), run[1..], c);
    }
  }

  /** A listing goes on only by its own GETs. */
  lemma ListingPc(w: World, a: Action, c: Client)
    requires Enabled(w, a) && At(w, c).Listing? && At(Next(w, a), c).Listing? && !(a.ListMembers? && a.c == c)
    ensures At(Next(w, a), c) == At(w, c) || (a.ListGet? && a.c == c)
  {
  }

  lemma ListingStep(w: World, a: Action, c: Client, user: UserId, members: set<SessionId>)
    requires WorldOk(w) && Enabled(w, a) && !(a.ListMembers? && a.c == c)
    requires ListingOk(w.core, At(w, c), user, members) && At(Next(w, a), c).Listing?
    ensures ListingOk(Next(w, a).core, At(Next(w, a), c), user, members)
  {
    ListingPc(w, a, c);
    if a.ListGet? && a.c == c {
      ListingGoesOn(w.core, At(w, c), user, members, a.id);
    } else {
      StepKeeps(w, a);
      ListingStays(w.core, Next(w, a).core, At(w, c), user, members);
    }
  }

  lemma {:induction false} ListingRun(w: World, run: seq<Action>, c: Client, user: UserId, members: set<SessionId>)
    requires WorldOk(w) && Runs(w, run) && OneListing(run, c)
    requires ListingOk(w.core, At(w, c), user, members) && At(After(w, run), c).Listing?
    ensures ListingOk(After(w, run).core, At(After(w, run), c), user, members)
    decreases |run|
  {
    if run != [] {
      OneListingOn(run, c);
      if !At(Next(w, run[0]), c).Listing? { NotListing(Next(w, run[0]), run[1..], c); }
      StepKeeps(w, run[0]);
      ListingStep(w, run[0], c, user, members);
      ListingRun(Next(w, run[0]), run[1..], c, user, members);
    }
  }

  /** A listing is complete under every interleaving: it lists a session at most once, and only
      sessions that the index named at its SMEMBERS; of these it lists every one that is live when its
      last GET is done, and those it does not list are dead and about to be taken from the index. */
  lemma ListingComplete(w: World, c: Client, user: UserId, run: seq<Action>)
    requires WorldOk(w) && Enabled(w, ListMembers(c, user))
    requires Runs(Next(w, ListMembers(c, user)), run) && OneListing(run, c)
    requires var pc := At(After(Next(w, ListMembers(c, user)), run), c); pc.Listing? && pc.todo == {}
    ensures var w' := After(Next(w, ListMembers(c, user)), run);
            var found := At(w', c).found;
            && (forall i, j | 0 <= i < j < |found| :: found[i].id != found[j].id)
            && (forall i | 0 <= i < |found| :: found[i].id in Members(w.core.keys, user))
            && (forall id | id in Members(w.core.keys, user) && id in w'.core.keys.sessions :: Lists(found, id))
            && (forall id | id in Members(w.core.keys, user) :: Lists(found, id) || id in At(w', c).stale)
            && (forall id | id in At(w', c).stale :: id !in w'.core.keys.sessions)
  {
    StepKeeps(w, ListMembers(c, user));
    ListingStarts(w, c, user);
    ListingRun(Next(w, ListMembers(c, user)), run, c, user, Members(w.core.keys, user));
  }

  // ---------------------------------------------------------------------------------------
  // RevokeOtherSessions
  // ---------------------------------------------------------------------------------------

  /** The client makes no step in the run. */
  predicate Rests(run: seq<Action>, c: Client) {
    forall i | 0 <= i < |run| :: run[i].Tick? || run[i].RotateEval? || run[i].c != c
  }

  lemma RestsOn(run: seq<Action>, c: Client)
    requires run != [] && Rests(run, c)
    ensures (run[0].Tick? || run[0].RotateEval? || run[0].c != c) && Rests(run[1..], c)
  {
    forall i | 0 <= i < |run[1..]| ensures run[1..][i].Tick? || run[1..][i].RotateEval? || run[1..][i].c != c {
      assert run[1..][i] == run[i + 1];
    }
  }

  lemma {:induction false} RestingPc(w: World, run: seq<Action>, c: Client)
    requires Runs(w, run) && Rests(run, c)
    ensures At(After(w, run), c) == At(w, c)
    decreases |run|
  {
    if run != [] {
      RestsOn(run, c);
      assert At(Next(w, run[0]), c) == At(w, c);
      RestingPc(Next(w, run[0]), run[1..], c);
    }
  }

  /** A Revoke that is not broken off leaves its session dead, whatever happens between its GET and
      its transaction. */
  lemma RevokeKills(w: World, c: Client, id: SessionId, run: seq<Action>)
    requires WorldOk(w) && Enabled(w, RevokeGet(c, id)) && id in w.core.past.born
    requires Runs(Next(w, RevokeGet(c, id)), run) && Rests(run, c)
    ensures var w' := After(Next(w, RevokeGet(c, id)), run);
            && (At(w', c).Idle? ==> id !in w'.core.keys.sessions)
            && (!At(w', c).Idle? ==>
                  Enabled(w', RevokeExec(c)) && id !in Next(w', RevokeExec(c)).core.keys.sessions)
  {
    var w1 := Next(w, RevokeGet(c, id));
    StepKeeps(w, RevokeGet(c, id));
    RestingPc(w1, run, c);
    RunKeeps(w1, run);
    if id in w.core.keys.sessions { LookupWasRead(w.core, id); }
  }

  /** What is dead stays dead, and what is new was created in the run. */
  lemma {:induction false} LiveSince(w: World, run: seq<Action>, user: UserId, id: SessionId)
    requires WorldOk(w) && Runs(w, run) && LiveFor(After(w, run).core.keys, id, user)
    ensures LiveFor(w.core.keys, id, user) || id in MadeIn(run, user)
    decreases |run|
  {
    if run != [] {
      StepKeeps(w, run[0]);
      LiveSince(Next(w, run[0]), run[1..], user, id);
      if LiveFor(Next(w, run[0]).core.keys, id, user) { LiveBefore(w, run[0], user, id); }
    }
  }

  lemma LiveBefore(w: World, a: Action, user: UserId, id: SessionId)
    requires Enabled(w, a) && LiveFor(Next(w, a).core.keys, id, user)
    ensures LiveFor(w.core.keys, id, user) || id in Made(a, user)
  {
    if !a.CreateExec? { StepNoneAppears(w, a); }
  }

  /** After RevokeOtherSessions has revoked every listed session but the current one, the live
      sessions of the user are the current one, those that the index did not name at its
      SMEMBERS, and those created since: no other session of the user is live. */
  lemma OthersRevoked(w: World, c: Client, user: UserId, run: seq<Action>, rest: seq<Action>, current: SessionId)
    requires WorldOk(w) && Enabled(w, ListMembers(c, user))
    requires Runs(Next(w, ListMembers(c, user)), run) && OneListing(run, c)
    requires var pc := At(After(Next(w, ListMembers(c, user)), run), c); pc.Listing? && pc.todo == {}
    requires Runs(After(Next(w, ListMembers(c, user)), run), rest)
    requires var w1 := After(Next(w, ListMembers(c, user)), run);
             forall i | 0 <= i < |At(w1, c).found| && At(w1, c).found[i].id != current ::
               At(w1, c).found[i].id !in After(w1, rest).core.keys.sessions
    ensures var w1 := After(Next(w, ListMembers(c, user)), run);
            forall id | LiveFor(After(w1, rest).core.keys, id, user) ::
              id == current || id in Missed(w.core.keys, user) + MadeIn(run, user) + MadeIn(rest, user)
  {
    var a := ListMembers(c, user);
    var w1 := After(Next(w, a), run);
    ListingComplete(w, c, user, run);
    StepKeeps(w, a);
    RunKeeps(Next(w, a), run);
    forall id | LiveFor(After(w1, rest).core.keys, id, user)
      ensures id == current || id in Missed(w.core.keys, user) + MadeIn(run, user) + MadeIn(rest, user)
    {
      LiveSince(w1, rest, user, id);
      if LiveFor(w1.core.keys, id, user) { LiveSince(Next(w, a), run, user, id); }
    }
  }
}
