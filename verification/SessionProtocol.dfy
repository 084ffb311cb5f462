/** Any number of clients of the session store, interleaved at every Redis round trip.  Each
    client carries the values it has read so far, which may be stale by the time it uses them.
    Time passes between any two steps, keys expire, and any client may stop part way.
 */
module SessionProtocol {
  import opened Wrappers
  import opened KeySpace
  import opened SessionHistory

  type Client = int

  /** Where a client stands between two round trips.
      `Deleting`: Revoke after its GET.  `Sweeping`: RevokeUser after SMEMBERS, with the ids it
      has still to revoke and, while inside one Revoke, the session that GET returned.
      `Cleared`: Create for a single-session user after its RevokeUser.
      `Listing`: ListByUser after SMEMBERS. */
  datatype Pc =
    | Idle
    | Deleting(read: Session)
    | Sweeping(user: UserId, todo: set<SessionId>, held: Option<Session>, thenCreate: bool)
    | Cleared(user: UserId)
    | Listing(user: UserId, todo: set<SessionId>, found: seq<Session>, stale: set<SessionId>)

  datatype World = World(core: Core, clients: map<Client, Pc>)

  datatype Action =
    | Tick(elapsed: nat)
    | CreateExec(c: Client, session: Session)
    | RotateEval(given: Digest, next: Digest, expiresAt: Time)
    | RevokeGet(c: Client, id: SessionId)
    | RevokeExec(c: Client)
    | SweepMembers(c: Client, user: UserId, thenCreate: bool)
    | SweepGet(c: Client, id: SessionId)
    | SweepExec(c: Client)
    | SweepDel(c: Client)
    | ListMembers(c: Client, user: UserId)
    | ListGet(c: Client, id: SessionId)
    | ListSrem(c: Client)
    | Abort(c: Client)

  function At(w: World, c: Client): Pc {
    if c in w.clients then w.clients[c] else Idle
  }

  function Moved(w: World, core: Core, c: Client, pc: Pc): World {
    World(core, w.clients[c := pc])
  }

  ghost predicate Enabled(w: World, a: Action) {
    match a
    case Tick(_) => true
    case CreateExec(c, s) => CanCreate(w.core, s) && (At(w, c) == Idle || At(w, c) == Cleared(s.user))
    case RotateEval(_, next, _) => next !in w.core.past.owner
    case RevokeGet(c, _) => At(w, c).Idle?
    case RevokeExec(c) => At(w, c).Deleting?
    case SweepMembers(c, _, _) => At(w, c).Idle?
    case SweepGet(c, id) => At(w, c).Sweeping? && At(w, c).held.None? && id in At(w, c).todo
    case SweepExec(c) => At(w, c).Sweeping? && At(w, c).held.Some?
    case SweepDel(c) => At(w, c).Sweeping? && At(w, c).held.None? && At(w, c).todo == {}
    case ListMembers(c, _) => At(w, c).Idle?
    case ListGet(c, id) => At(w, c).Listing? && id in At(w, c).todo
    case ListSrem(c) => At(w, c).Listing? && At(w, c).todo == {}
    case Abort(_) => true
  }

  /** What one GET of ListByUser adds to the list or to the stale ids. */
  function Listed(pc: Pc, k: Keys, id: SessionId): Pc
    requires pc.Listing?
  {
    match Lookup(k, id)
    case Some(s) =>
      if s.user == pc.user then pc.(todo := pc.todo - {id}, found := pc.found + [s])
      else pc.(todo := pc.todo - {id}, stale := pc.stale + {id})
    case None => pc.(todo := pc.todo - {id}, stale := pc.stale + {id})
  }

  function Next(w: World, a: Action): World
    requires Enabled(w, a)
  {
    var core := w.core;
    match a
    case Tick(elapsed) => w.(core := Later(core, elapsed))
    case CreateExec(c, s) => Moved(w, Create(core, s), c, Idle)
    case RotateEval(given, next, expiresAt) => w.(core := Rotate(core, given, next, expiresAt))
    case RevokeGet(c, id) =>
      Moved(w, core, c, match Lookup(core.keys, id) case Some(s) => Deleting(s) case None => Idle)
    case RevokeExec(c) => Moved(w, Revoke(core, At(w, c).read), c, Idle)
    case SweepMembers(c, user, thenCreate) =>
      Moved(w, core, c, Sweeping(user, Members(core.keys, user), None, thenCreate))
    case SweepGet(c, id) =>
      Moved(w, core, c, At(w, c).(todo := At(w, c).todo - {id}, held := Lookup(core.keys, id)))
    case SweepExec(c) => Moved(w, Revoke(core, At(w, c).held.value), c, At(w, c).(held := None))
    case SweepDel(c) =>
      Moved(w, Drop(core, At(w, c).user), c, if At(w, c).thenCreate then Cleared(At(w, c).user) else Idle)
    case ListMembers(c, user) => Moved(w, core, c, Listing(user, Members(core.keys, user), [], {}))
    case ListGet(c, id) => Moved(w, core, c, Listed(At(w, c), core.keys, id))
    case ListSrem(c) => Moved(w, Tidy(core, At(w, c).user, At(w, c).stale), c, Idle)
    case Abort(c) => Moved(w, core, c, Idle)
  }

  function Start(ttl: Time, now: Time): World {
    World(Fresh(ttl, now), map[])
  }

  ghost predicate Runs(w: World, run: seq<Action>)
    decreases |run|
  {
    run == [] || (Enabled(w, run[0]) && Runs(Next(w, run[0]), run[1..]))
  }

  ghost function After(w: World, run: seq<Action>): World
    requires Runs(w, run)
    decreases |run|
  {
    if run == [] then w else After(Next(w, run[0]), run[1..])
  }

  // ---------------------------------------------------------------------------------------
  // The invariant of every reachable world
  // ---------------------------------------------------------------------------------------

  /** What a client has read was true once: sessions keep their user and digests their session,
      and an id found dead is dead. */
  ghost predicate PcOk(core: Core, pc: Pc) {
    match pc
    case Idle => true
    case Deleting(s) => WasRead(core.past, s)
    case Sweeping(user, todo, held, _) =>
      && (forall id | id in todo :: id in core.past.born && core.past.born[id].user == user)
      && (held.Some? ==> WasRead(core.past, held.value) && held.value.user == user)
    case Cleared(_) => true
    case Listing(user, todo, found, stale) =>
      && (forall id | id in todo :: id in core.past.born && core.past.born[id].user == user)
      && (forall s | s in found :: WasRead(core.past, s) && s.user == user)
      && (forall id | id in stale :: id in core.past.born && id !in core.keys.sessions)
  }

  ghost predicate WorldOk(w: World) {
    Inv(w.core) && forall c | c in w.clients :: PcOk(w.core, w.clients[c])
  }

  lemma StartOk(ttl: Time, now: Time)
    requires 0 < ttl
    ensures WorldOk(Start(ttl, now))
  {
  }

  /** What a client has read stays as good as it was, whatever anyone does. */
  lemma PcStays(core: Core, core': Core, pc: Pc)
    requires Grows(core, core') && PcOk(core, pc)
    ensures PcOk(core', pc)
  {
  }

  lemma LookupWasRead(core: Core, id: SessionId)
    requires Inv(core) && id in core.keys.sessions
    ensures WasRead(core.past, core.keys.sessions[id].value) && core.keys.sessions[id].value.id == id
  {
    assert SessionOk(core, id) && TokenOk(core, core.keys.sessions[id].value.digest);
  }

  lemma MembersBorn(core: Core, user: UserId)
    requires Inv(core)
    ensures forall id | id in Members(core.keys, user) :: id in core.past.born && core.past.born[id].user == user
  {
    if user in core.keys.index { assert IndexOk(core, user); }
  }

  /** The core of a step, with the operation it is an instance of. */
  lemma CoreStep(w: World, a: Action)
    requires WorldOk(w) && Enabled(w, a)
    ensures Inv(Next(w, a).core) && Grows(w.core, Next(w, a).core)
  {
    var core := w.core;
    match a
    case Tick(elapsed) => LaterKeeps(core, elapsed);
    case CreateExec(c, s) => CreateKeeps(core, s);
    case RotateEval(given, next, expiresAt) => RotateKeeps(core, given, next, expiresAt);
    case RevokeExec(c) => assert PcOk(core, w.clients[c]); RevokeKeeps(core, At(w, c).read);
    case SweepExec(c) => assert PcOk(core, w.clients[c]); RevokeKeeps(core, At(w, c).held.value);
    case SweepDel(c) => DropKeeps(core, At(w, c).user);
    case ListSrem(c) => TidyKeeps(core, At(w, c).user, At(w, c).stale);
    case _ =>
  }

  lemma ListedOk(core: Core, pc: Pc, id: SessionId)
    requires Inv(core) && pc.Listing? && PcOk(core, pc) && id in pc.todo
    ensures PcOk(core, Listed(pc, core.keys, id))
  {
    if id in core.keys.sessions { LookupWasRead(core, id); }
  }

  /** The client that made the step has read only what was true. */
  lemma PcStep(w: World, a: Action)
    requires WorldOk(w) && Enabled(w, a) && !a.Tick? && !a.RotateEval?
    ensures a.c in Next(w, a).clients && PcOk(Next(w, a).core, Next(w, a).clients[a.c])
  {
    CoreStep(w, a);
    if a.c in w.clients {
      assert PcOk(w.core, w.clients[a.c]);
      PcStays(w.core, Next(w, a).core, w.clients[a.c]);
    }
    match a
    case RevokeGet(c, id) => if id in w.core.keys.sessions { LookupWasRead(w.core, id); }
    case SweepMembers(c, user, _) => MembersBorn(w.core, user);
    case SweepGet(c, id) => if id in w.core.keys.sessions { LookupWasRead(w.core, id); }
    case ListMembers(c, user) => MembersBorn(w.core, user);
    case ListGet(c, id) => ListedOk(w.core, At(w, c), id);
    case _ =>
  }

  /** Every step of every client keeps the invariant. */
  lemma StepKeeps(w: World, a: Action)
    requires WorldOk(w) && Enabled(w, a)
    ensures WorldOk(Next(w, a)) && Grows(w.core, Next(w, a).core)
  {
    var w' := Next(w, a);
    CoreStep(w, a);
    forall c | c in w'.clients ensures PcOk(w'.core, w'.clients[c]) {
      if !a.Tick? && !a.RotateEval? && c == a.c {
        PcStep(w, a);
      } else {
        PcStays(w.core, w'.core, w.clients[c]);
      }
    }
  }

  lemma {:induction false} RunKeeps(w: World, run: seq<Action>)
    requires WorldOk(w) && Runs(w, run)
    ensures WorldOk(After(w, run)) && Grows(w.core, After(w, run).core)
    decreases |run|
  {
    if run != [] {
      StepKeeps(w, run[0]);
      RunKeeps(Next(w, run[0]), run[1..]);
    }
  }

  // ---------------------------------------------------------------------------------------
  // Each refresh digest is exchanged at most once
  // ---------------------------------------------------------------------------------------

  datatype Exchange = Exchange(session: SessionId, given: Digest, next: Digest)

  function Answer(w: World, a: Action): RotateReply
    requires a.RotateEval?
  {
    RotateAnswer(w.core.keys, a.given, a.next, a.expiresAt)
  }

  /** The successful rotations of a run, in order, as the clients saw them. */
  ghost function Successes(w: World, run: seq<Action>): seq<Exchange>
    requires Runs(w, run)
    decreases |run|
  {
    if run == [] then [] else Success(w, run[0]) + Successes(Next(w, run[0]), run[1..])
  }

  /** The exchange a single step makes, if it makes one. */
  function Success(w: World, a: Action): seq<Exchange> {
    if a.RotateEval? && Answer(w, a).Rotated? then [Exchange(Answer(w, a).session.id, a.given, a.next)] else []
  }

  /** A step that exchanges a digest spends it, and it was the last of its session's chain. */
  lemma SuccessSpends(w: World, a: Action)
    requires WorldOk(w) && Enabled(w, a) && Success(w, a) != []
    ensures var x := Success(w, a)[0];
            && x.given in w.core.past.owner && w.core.past.owner[x.given] == x.session
            && x.given !in w.core.past.spentAt && x.given in Next(w, a).core.past.spentAt
            && x.session in w.core.past.chain && w.core.past.chain[x.session] != []
            && x.given == Last(w.core.past.chain[x.session])
  {
    var id := w.core.keys.tokens[a.given].value.session;
    assert TokenOk(w.core, a.given) && SessionOk(w.core, id);
  }

  /** What a rotation appends to the chain of a session. */
  lemma ChainRotation(w: World, a: Action, id: SessionId)
    requires WorldOk(w) && a.RotateEval? && Enabled(w, a) && id in w.core.past.chain
    ensures id in Next(w, a).core.past.chain
    ensures Next(w, a).core.past.chain[id] == w.core.past.chain[id] + Handed(Success(w, a), id)
  {
    var chain := w.core.past.chain[id];
    RotateChain(w.core, a.given, a.next, a.expiresAt);
    assert chain + [] == chain;
    if Answer(w, a).Rotated? {
      var x := Exchange(Answer(w, a).session.id, a.given, a.next);
      HandedFirst(x, [], id);
      assert [x] + [] == [x] && [a.next] + [] == [a.next];
    }
  }

  /** Chains of existing sessions change only by the digest an exchange hands out. */
  lemma ChainStep(w: World, a: Action, id: SessionId)
    requires WorldOk(w) && Enabled(w, a) && id in w.core.past.chain
    ensures id in Next(w, a).core.past.chain
    ensures Next(w, a).core.past.chain[id] == w.core.past.chain[id] + Handed(Success(w, a), id)
  {
    if a.RotateEval? {
      ChainRotation(w, a, id);
    } else {
      assert Success(w, a) == [] && w.core.past.chain[id] + [] == w.core.past.chain[id];
      PastStays(w, a);
    }
  }

  /** Only rotations and creations write history. */
  lemma PastStays(w: World, a: Action)
    requires Enabled(w, a) && !a.RotateEval?
    ensures a.CreateExec? ==> Next(w, a).core.past.chain == w.core.past.chain[a.session.id := [a.session.digest]]
    ensures a.CreateExec? ==> a.session.id !in w.core.past.born
    ensures !a.CreateExec? ==> Next(w, a).core.past == w.core.past
  {
  }

  /** Under every interleaving, a digest is exchanged at most once, and never if it had been
      exchanged before the run. */
  lemma {:induction false} ExchangedAtMostOnce(w: World, run: seq<Action>)
    requires WorldOk(w) && Runs(w, run)
    ensures forall i | 0 <= i < |Successes(w, run)| :: Successes(w, run)[i].given !in w.core.past.spentAt
    ensures forall i, j | 0 <= i < j < |Successes(w, run)| :: Successes(w, run)[i].given != Successes(w, run)[j].given
    decreases |run|
  {
    if run != [] {
      var w' := Next(w, run[0]);
      StepKeeps(w, run[0]);
      ExchangedAtMostOnce(w', run[1..]);
      if Success(w, run[0]) != [] {
        SuccessSpends(w, run[0]);
      }
      OnceMore(Success(w, run[0]), Successes(w', run[1..]), w.core.past.spentAt.Keys, w'.core.past.spentAt.Keys);
    }
  }

  lemma OnceMore(step: seq<Exchange>, later: seq<Exchange>, before: set<Digest>, spent: set<Digest>)
    requires |step| <= 1 && before <= spent
    requires step != [] ==> step[0].given !in before && step[0].given in spent
    requires forall i | 0 <= i < |later| :: later[i].given !in spent
    requires forall i, j | 0 <= i < j < |later| :: later[i].given != later[j].given
    ensures forall i | 0 <= i < |step + later| :: (step + later)[i].given !in before
    ensures forall i, j | 0 <= i < j < |step + later| :: (step + later)[i].given != (step + later)[j].given
  {
  }

  /** The digests that successive exchanges gave to one session. */
  function Handed(xs: seq<Exchange>, id: SessionId): seq<Digest> {
    if xs == [] then [] else (if xs[0].session == id then [xs[0].next] else []) + Handed(xs[1..], id)
  }

  /** The exchanges of a session form one unforked chain: each gives up the digest the previous
      one handed out, beginning with `first`. */
  ghost predicate Unforked(xs: seq<Exchange>, id: SessionId, first: Digest) {
    xs != [] ==>
      if xs[0].session == id then xs[0].given == first && Unforked(xs[1..], id, xs[0].next)
      else Unforked(xs[1..], id, first)
  }

  function Gift(x: Exchange, id: SessionId): seq<Digest> {
    if x.session == id then [x.next] else []
  }

  lemma UnforkedFirst(chain: seq<Digest>, x: Exchange, later: seq<Exchange>, id: SessionId)
    requires chain != [] && (x.session == id ==> x.given == Last(chain))
    requires Unforked(later, id, Last(chain + Gift(x, id)))
    ensures Unforked([x] + later, id, Last(chain))
  {
    assert ([x] + later)[1..] == later;
    if x.session != id {
      assert chain + [] == chain;
    }
  }

  lemma GiftFirst(chain: seq<Digest>, x: Exchange, later: seq<Exchange>, id: SessionId)
    ensures chain + Handed([x], id) == chain + Gift(x, id)
    ensures chain + Gift(x, id) + Handed(later, id) == chain + Handed([x] + later, id)
  {
    HandedFirst(x, [], id);
    HandedFirst(x, later, id);
    assert [x] + [] == [x] && Gift(x, id) + [] == Gift(x, id);
    assert chain + Gift(x, id) + Handed(later, id) == chain + (Gift(x, id) + Handed(later, id));
  }

  /** One more exchange at the front of an unforked chain. */
  lemma ChainGlue(chain: seq<Digest>, step: seq<Exchange>, later: seq<Exchange>, id: SessionId, final: seq<Digest>)
    requires chain != [] && |step| <= 1
    requires final == chain + Handed(step, id) + Handed(later, id)
    requires step != [] && step[0].session == id ==> step[0].given == Last(chain)
    requires Unforked(later, id, Last(chain + Handed(step, id)))
    ensures Unforked(step + later, id, Last(chain))
    ensures final == chain + Handed(step + later, id)
  {
    if step == [] {
      assert step + later == later && chain + [] == chain;
    } else {
      var x := step[0];
      assert step == [x];
      GiftFirst(chain, x, later, id);
      UnforkedFirst(chain, x, later, id);
    }
  }

  lemma HandedFirst(x: Exchange, later: seq<Exchange>, id: SessionId)
    ensures Handed([x] + later, id) == Gift(x, id) + Handed(later, id)
  {
    assert ([x] + later)[1..] == later;
  }

  /** Every exchange of an existing session continues its chain, and the chain that results is
      the digests handed out, in order. */
  lemma {:induction false} ChainNeverForks(w: World, run: seq<Action>, id: SessionId)
    requires WorldOk(w) && Runs(w, run) && id in w.core.past.chain && w.core.past.chain[id] != []
    ensures Unforked(Successes(w, run), id, Last(w.core.past.chain[id]))
    ensures id in After(w, run).core.past.chain
    ensures After(w, run).core.past.chain[id] == w.core.past.chain[id] + Handed(Successes(w, run), id)
    decreases |run|
  {
    if run != [] {
      var w', step := Next(w, run[0]), Success(w, run[0]);
      StepKeeps(w, run[0]);
      ChainStep(w, run[0], id);
      if step != [] { SuccessSpends(w, run[0]); }
      ChainNeverForks(w', run[1..], id);
      ChainGlue(w.core.past.chain[id], step, Successes(w', run[1..]), id, After(w, run).core.past.chain[id]);
    }
  }

  // ---------------------------------------------------------------------------------------
  // Replay kills for good, and a session once dead stays dead
  // ---------------------------------------------------------------------------------------

  /** Nothing brings a dead session back: no GET finds it and no exchange answers for it. */
  lemma DeadForGood(w: World, run: seq<Action>, id: SessionId)
    requires WorldOk(w) && Runs(w, run) && id in w.core.past.born && id !in w.core.keys.sessions
    ensures Lookup(After(w, run).core.keys, id).None?
    ensures forall given, next, expiresAt ::
              var reply := RotateAnswer(After(w, run).core.keys, given, next, expiresAt);
              reply.Rotated? ==> reply.session.id != id
  {
    RunKeeps(w, run);
    var w' := After(w, run);
    forall given, next, expiresAt | RotateAnswer(w'.core.keys, given, next, expiresAt).Rotated?
      ensures RotateAnswer(w'.core.keys, given, next, expiresAt).session.id != id
    {
      assert SessionOk(w'.core, w'.core.keys.tokens[given].value.session);
    }
  }

  /** A digest presented again within one ttl of its exchange, while its session lives, is
      answered as reused; from then on, in every continuation, the session is gone. */
  lemma ReplayKillsForGood(w: World, a: Action, run: seq<Action>)
    requires WorldOk(w) && a.RotateEval? && Enabled(w, a) && Runs(Next(w, a), run)
    requires a.given in w.core.past.spentAt && w.core.now < w.core.past.spentAt[a.given] + w.core.ttl
    requires a.given in w.core.past.owner && w.core.past.owner[a.given] in w.core.keys.sessions
    ensures Answer(w, a) == Reused
    ensures Lookup(After(Next(w, a), run).core.keys, w.core.past.owner[a.given]).None?
    ensures forall given, next, expiresAt ::
              var reply := RotateAnswer(After(Next(w, a), run).core.keys, given, next, expiresAt);
              reply.Rotated? ==> reply.session.id != w.core.past.owner[a.given]
  {
    var id := w.core.past.owner[a.given];
    assert DigestOk(w.core.past, a.given);
    ReplayRecognised(w.core, a.given, a.next, a.expiresAt);
    StepKeeps(w, a);
    DeadForGood(Next(w, a), run, id);
  }

  /** In every reachable world an issued session is live exactly if no revocation or replay hit
      it and less than one ttl has passed since it was created or last rotated. */
  lemma LiveExactlyWhileSliding(ttl: Time, now: Time, run: seq<Action>, id: SessionId)
    requires 0 < ttl && Runs(Start(ttl, now), run) && id in After(Start(ttl, now), run).core.past.born
    ensures var core := After(Start(ttl, now), run).core;
            && id in core.past.touched
            && (id in core.keys.sessions <==> id !in core.killed && core.now < core.past.touched[id] + core.ttl)
  {
    StartOk(ttl, now);
    RunKeeps(Start(ttl, now), run);
  }

  /** Taking dead ids out of one index leaves every live id where it was. */
  lemma TidiedMembers(k: Keys, user: UserId, stale: set<SessionId>, u: UserId, id: SessionId)
    requires id !in stale
    ensures id in Members(k, u) <==> id in Members(Tidied(k, user, stale), u)
  {
  }

  /** The clean-up of ListByUser takes the ids it found dead out of the index, never removes the index
      entry of a session that is live when the SREM executes, and every session it lists is one of
      the user's own. */
  lemma TidyingIsSafe(w: World, c: Client)
    requires WorldOk(w) && Enabled(w, ListSrem(c))
    ensures forall id | id in At(w, c).stale :: id !in w.core.keys.sessions
    ensures forall id | id in At(w, c).stale ::
              id !in Members(Next(w, ListSrem(c)).core.keys, At(w, c).user)
    ensures forall u, id | id in w.core.keys.sessions ::
              id in Members(w.core.keys, u) <==> id in Members(Next(w, ListSrem(c)).core.keys, u)
    ensures forall s | s in At(w, c).found ::
              s.user == At(w, c).user && s.id in w.core.past.born && w.core.past.born[s.id].user == s.user
  {
    assert PcOk(w.core, w.clients[c]);
    forall u, id | id in w.core.keys.sessions
      ensures id in Members(w.core.keys, u) <==> id in Members(Next(w, ListSrem(c)).core.keys, u)
    {
      TidiedMembers(w.core.keys, At(w, c).user, At(w, c).stale, u, id);
    }
  }
}
