/** The cache-aside list of public configuration: readers fill the one cached list, writers
    commit to the database and then delete it.  Readers and writers interleave at every step;
    reads, fills and deletes of the cache may fail, and anyone may stop part way.
 */
module ConfigCache {
  import opened Wrappers

  type Client = int
  type List(==, !new, 0)

  /** The public list the database held from an instant on. */
  datatype Committed = Committed(list: List, since: Time)

  /** A cached list, with the instant its reader took it from the database.  `version`: the place
      in the history of the list it took.  `commits` and `step`: how many lists had been committed,
      and how many steps made, when it was put. */
  datatype Cached = Cached(list: List, readAt: Time, putAt: Time, version: nat, commits: nat, step: nat)

  /** `Missed`: a reader after a miss, or a failed read, of the cache.  `Filling`: a reader that
      has the database's list.  `Deleting`: a writer after its commit. */
  datatype Pc = Idle | Missed | Filling(list: List, readAt: Time, version: nat) | Deleting(version: nat)

  /** How the delete after a commit ended, and at which step. */
  datatype Closing = Closing(deleted: bool, step: nat)

  /** `steps`: the number of steps made.  `closings`: the commits whose writer is done. */
  datatype World = World(
    ttl: Time, now: Time, steps: nat, history: seq<Committed>, closings: map<nat, Closing>, cache: Option<Cached>,
    clients: map<Client, Pc>)

  datatype Action =
    | Tick(elapsed: nat)
    | GetHit(c: Client)
    | GetMiss(c: Client)
    | ReadDb(c: Client)
    | Put(c: Client)
    | PutFails(c: Client)
    | Commit(c: Client, list: List)
    | Delete(c: Client)
    | DeleteFails(c: Client)

  function At(w: World, c: Client): Pc {
    if c in w.clients then w.clients[c] else Idle
  }

  function Moved(w: World, c: Client, pc: Pc): World {
    w.(clients := w.clients[c := pc])
  }

  predicate Fresh(w: World) {
    w.cache.Some? && w.now < w.cache.value.putAt + w.ttl
  }

  /** The list the database holds now. */
  function Current(w: World): List
    requires w.history != []
  {
    w.history[|w.history| - 1].list
  }

  predicate Enabled(w: World, a: Action) {
    match a
    case Tick(_) => true
    case GetHit(c) => At(w, c) == Idle && Fresh(w)
    case GetMiss(c) => At(w, c) == Idle
    case ReadDb(c) => At(w, c) == Missed
    case Put(c) => At(w, c).Filling?
    case PutFails(c) => At(w, c).Filling?
    case Commit(c, _) => At(w, c) == Idle
    case Delete(c) => At(w, c).Deleting?
    case DeleteFails(c) => At(w, c).Deleting?
  }

  function Effect(w: World, a: Action): World
    requires w.history != [] && Enabled(w, a)
  {
    match a
    case Tick(elapsed) => w.(now := w.now + elapsed)
    case GetHit(c) => w
    case GetMiss(c) => Moved(w, c, Missed)
    case ReadDb(c) => Moved(w, c, Filling(Current(w), w.now, |w.history| - 1))
    case Put(c) =>
      var pc := At(w, c);
      Moved(w, c, Idle).(cache := Some(Cached(pc.list, pc.readAt, w.now, pc.version, |w.history|, w.steps)))
    case PutFails(c) => Moved(w, c, Idle)
    case Commit(c, list) => Moved(w, c, Deleting(|w.history|)).(history := w.history + [Committed(list, w.now)])
    case Delete(c) =>
      Moved(w, c, Idle).(cache := None, closings := w.closings[At(w, c).version := Closing(true, w.steps)])
    case DeleteFails(c) =>
      Moved(w, c, Idle).(closings := w.closings[At(w, c).version := Closing(false, w.steps)])
  }

  function Next(w: World, a: Action): World
    requires w.history != [] && Enabled(w, a)
  {
    Effect(w, a).(steps := w.steps + 1)
  }

  /** What ListPublic returns to its caller in this step: the cached list on a hit, the list read
      from the database when the fill has been tried. */
  function Returned(w: World, a: Action): Option<List>
    requires Enabled(w, a)
  {
    match a
    case GetHit(_) => Some(w.cache.value.list)
    case Put(c) => Some(At(w, c).list)
    case PutFails(c) => Some(At(w, c).list)
    case _ => None
  }

  function Start(ttl: Time, now: Time, list: List): World {
    World(ttl, now, 0, [Committed(list, now)], map[], None, map[])
  }

  ghost predicate Runs(w: World, run: seq<Action>)
    requires w.history != []
    decreases |run|
  {
    run == [] || (Enabled(w, run[0]) && Runs(Next(w, run[0]), run[1..]))
  }

  ghost function After(w: World, run: seq<Action>): World
    requires w.history != [] && Runs(w, run)
    decreases |run|
  {
    if run == [] then w else After(Next(w, run[0]), run[1..])
  }

  // ---------------------------------------------------------------------------------------
  // Every list returned was the committed list at one instant
  // ---------------------------------------------------------------------------------------

  /** `list` was what the database held at the instant `t`. */
  ghost predicate HeldAt(history: seq<Committed>, list: List, t: Time) {
    exists i :: 0 <= i < |history| && history[i].list == list && history[i].since <= t
                && (i + 1 < |history| ==> t <= history[i + 1].since)
  }

  ghost predicate PcOk(w: World, pc: Pc) {
    pc.Filling? ==> HeldAt(w.history, pc.list, pc.readAt) && pc.readAt <= w.now
  }

  ghost predicate Inv(w: World) {
    && w.history != []
    && (forall i | 0 <= i < |w.history| :: w.history[i].since <= w.now)
    && (w.cache.Some? ==>
          var e := w.cache.value;
          HeldAt(w.history, e.list, e.readAt) && e.readAt <= e.putAt <= w.now)
    && (forall c | c in w.clients :: PcOk(w, w.clients[c]))
  }

  /** A commit does not change what was held at an instant before it. */
  lemma HeldStays(history: seq<Committed>, list: List, t: Time, next: Committed)
    requires HeldAt(history, list, t) && t <= next.since
    ensures HeldAt(history + [next], list, t)
  {
    var i :| 0 <= i < |history| && history[i].list == list && history[i].since <= t
             && (i + 1 < |history| ==> t <= history[i + 1].since);
    var h := history + [next];
    assert h[i] == history[i];
    assert i + 1 < |h| ==> t <= h[i + 1].since;
  }

  lemma CurrentHeld(w: World)
    requires Inv(w)
    ensures HeldAt(w.history, Current(w), w.now)
  {
    assert w.history[|w.history| - 1].list == Current(w);
  }

  lemma StepKeeps(w: World, a: Action)
    requires Inv(w) && Enabled(w, a)
    ensures Inv(Next(w, a)) && w.ttl == Next(w, a).ttl
  {
    var w' := Next(w, a);
    if a.Put? { assert PcOk(w, w.clients[a.c]); }
    if a.Commit? && w.cache.Some? {
      HeldStays(w.history, w.cache.value.list, w.cache.value.readAt, Committed(a.list, w.now));
    }
    if a.ReadDb? { CurrentHeld(w); }
    forall c | c in w'.clients ensures PcOk(w', w'.clients[c]) {
      if c in w.clients {
        assert PcOk(w, w.clients[c]);
        if a.Commit? && w.clients[c].Filling? {
          HeldStays(w.history, w.clients[c].list, w.clients[c].readAt, Committed(a.list, w.now));
        }
      }
    }
  }

  lemma {:induction false} RunKeeps(w: World, run: seq<Action>)
    requires Inv(w) && Runs(w, run)
    ensures Inv(After(w, run)) && w.ttl == After(w, run).ttl
    decreases |run|
  {
    if run != [] {
      StepKeeps(w, run[0]);
      RunKeeps(Next(w, run[0]), run[1..]);
    }
  }

  /** Under every interleaving, a list that ListPublic returns is the whole committed list of one
      instant; on a hit that instant is less than ttl plus the filling reader's gap between its
      read and its put ago. */
  lemma ReturnedWasCommitted(ttl: Time, now: Time, list: List, run: seq<Action>, a: Action)
    requires Runs(Start(ttl, now, list), run) && After(Start(ttl, now, list), run).history != []
    requires Enabled(After(Start(ttl, now, list), run), a)
    ensures var w := After(Start(ttl, now, list), run);
            && (Returned(w, a).Some? <==> a.GetHit? || a.Put? || a.PutFails?)
            && (a.Put? || a.PutFails? ==> At(w, a.c).Filling? && Returned(w, a) == Some(At(w, a.c).list))
    ensures var w := After(Start(ttl, now, list), run);
            Returned(w, a).Some? ==> exists t :: t <= w.now && HeldAt(w.history, Returned(w, a).value, t)
    ensures var w := After(Start(ttl, now, list), run);
            a.GetHit? ==>
              var e := w.cache.value;
              HeldAt(w.history, e.list, e.readAt) && w.now - e.readAt < ttl + (e.putAt - e.readAt)
  {
    assert HeldAt([Committed(list, now)], list, now) by { assert [Committed(list, now)][0].list == list; }
    RunKeeps(Start(ttl, now, list), run);
    var w := After(Start(ttl, now, list), run);
    if a.Put? || a.PutFails? { assert PcOk(w, w.clients[a.c]); }
  }

  // ---------------------------------------------------------------------------------------
  // Without overlap a hit is the current list
  // ---------------------------------------------------------------------------------------

  /** No reader is between its read of the database and its put. */
  predicate NoFill(w: World) {
    forall c | c in w.clients :: !w.clients[c].Filling?
  }

  /** No writer is between its commit and its delete. */
  predicate NoWrite(w: World) {
    forall c | c in w.clients :: !w.clients[c].Deleting?
  }

  /** The steps of runs in which no commit lands inside a fill and no delete fails. */
  predicate Orderly(w: World, a: Action) {
    (a.Commit? ==> NoFill(w)) && !a.DeleteFails?
  }

  ghost predicate OrderlyRun(w: World, run: seq<Action>)
    requires w.history != [] && Runs(w, run)
    decreases |run|
  {
    run == [] || (Orderly(w, run[0]) && OrderlyRun(Next(w, run[0]), run[1..]))
  }

  /** A fill carries the current list, and the cached list can be old only while some writer has
      yet to delete it. */
  ghost predicate Agrees(w: World) {
    && w.history != []
    && (forall c | c in w.clients && w.clients[c].Filling? :: w.clients[c].list == Current(w))
    && (w.cache.Some? && w.cache.value.list != Current(w) ==> !NoWrite(w))
  }

  lemma StepAgrees(w: World, a: Action)
    requires Agrees(w) && Enabled(w, a) && Orderly(w, a)
    ensures Agrees(Next(w, a))
  {
    var w' := Next(w, a);
    if a.Commit? {
      assert w'.clients[a.c].Deleting?;
    } else if w.cache.Some? && w.cache.value.list != Current(w) && !a.Delete? && !a.Put? {
      var c :| c in w.clients && w.clients[c].Deleting?;
      assert w'.clients[c].Deleting?;
    }
  }

  lemma {:induction false} RunAgrees(w: World, run: seq<Action>)
    requires Agrees(w) && Runs(w, run) && OrderlyRun(w, run)
    ensures Agrees(After(w, run))
    decreases |run|
  {
    if run != [] {
      StepAgrees(w, run[0]);
      RunAgrees(Next(w, run[0]), run[1..]);
    }
  }

  /** In such runs, whenever no writer is between commit and delete, a hit returns exactly the
      list the database holds. */
  lemma HitIsCurrent(ttl: Time, now: Time, list: List, run: seq<Action>, c: Client)
    requires Runs(Start(ttl, now, list), run) && OrderlyRun(Start(ttl, now, list), run)
    ensures After(Start(ttl, now, list), run).history != []
    ensures
      var w := After(Start(ttl, now, list), run);
      Enabled(w, GetHit(c)) && NoWrite(w) ==> Returned(w, GetHit(c)) == Some(Current(w))
  {
    RunAgrees(Start(ttl, now, list), run);
  }

  // ---------------------------------------------------------------------------------------
  // When exactly an entry is old
  // ---------------------------------------------------------------------------------------

  /** Another list was committed after the cached one was read. */
  predicate Old(w: World) {
    w.cache.Some? && w.cache.value.version + 1 < |w.history|
  }

  /** A list was committed between the read and the put of the entry, and its writer was done
      before the put. */
  ghost predicate FilledLate(w: World)
    requires w.cache.Some?
  {
    var e := w.cache.value;
    exists i :: i in w.closings && e.version < i < e.commits && w.closings[i].step < e.step
  }

  /** A delete failed, and nothing has replaced the entry since. */
  ghost predicate DeleteMissed(w: World)
    requires w.cache.Some?
  {
    var e := w.cache.value;
    exists i :: i in w.closings && e.version < i && !w.closings[i].deleted && e.step < w.closings[i].step
  }

  ghost predicate CachedOk(w: World, e: Cached) {
    && e.version < e.commits <= |w.history| && w.history[e.version].list == e.list && e.step < w.steps
    && (forall i | i in w.closings :: w.closings[i].step != e.step)
    && (forall i | i in w.closings && w.closings[i].step < e.step :: i < e.commits)
    && (forall i | i in w.closings && w.closings[i].deleted :: w.closings[i].step < e.step)
  }

  ghost predicate FillOk(w: World, pc: Pc) {
    match pc
    case Filling(list, _, version) => version < |w.history| && w.history[version].list == list
    case Deleting(version) => 0 < version < |w.history|
    case _ => true
  }

  /** Every commit's writer is done or still has to delete. */
  ghost predicate Tracked(w: World) {
    && w.history != []
    && (forall i | i in w.closings :: 0 < i < |w.history| && w.closings[i].step < w.steps)
    && (forall i | 0 < i < |w.history| && i !in w.closings :: exists c :: c in w.clients && w.clients[c] == Deleting(i))
    && (forall c | c in w.clients :: FillOk(w, w.clients[c]))
    && (w.cache.Some? ==> CachedOk(w, w.cache.value))
  }

  lemma StillOpen(w: World, a: Action, i: nat)
    requires Tracked(w) && Enabled(w, a) && 0 < i < |Next(w, a).history| && i !in Next(w, a).closings
    ensures exists c :: c in Next(w, a).clients && Next(w, a).clients[c] == Deleting(i)
  {
    var w' := Next(w, a);
    if i < |w.history| {
      var c :| c in w.clients && w.clients[c] == Deleting(i);
      assert w'.clients[c] == Deleting(i);
    } else {
      assert w'.clients[a.c] == Deleting(i);
    }
  }

  lemma StepCached(w: World, a: Action)
    requires Tracked(w) && Enabled(w, a) && Next(w, a).cache.Some?
    ensures CachedOk(Next(w, a), Next(w, a).cache.value)
  {
  }

  lemma StepTracked(w: World, a: Action)
    requires Tracked(w) && Enabled(w, a)
    ensures Tracked(Next(w, a))
  {
    var w' := Next(w, a);
    forall i | 0 < i < |w'.history| && i !in w'.closings
      ensures exists c :: c in w'.clients && w'.clients[c] == Deleting(i)
    {
      StillOpen(w, a, i);
    }
    if w'.cache.Some? { StepCached(w, a); }
  }

  lemma {:induction false} RunTracked(w: World, run: seq<Action>)
    requires Tracked(w) && Runs(w, run)
    ensures Tracked(After(w, run))
    decreases |run|
  {
    if run != [] {
      StepTracked(w, run[0]);
      RunTracked(Next(w, run[0]), run[1..]);
    }
  }

  /** Only two steps turn a cache without an old entry into one with an old entry: the put of a
      reader after whose read another list was committed, and a commit while something is
      cached. */
  lemma OldArises(w: World, a: Action)
    requires Tracked(w) && Enabled(w, a) && !Old(w)
    ensures Old(Next(w, a)) <==>
            (a.Put? && At(w, a.c).version + 1 < |w.history|) || (a.Commit? && w.cache.Some?)
  {
  }

  /** Unless its delete fails, a commit leaves nothing old behind. */
  lemma DeleteClears(w: World, c: Client)
    requires w.history != [] && Enabled(w, Delete(c))
    ensures !Old(Next(w, Delete(c)))
  {
  }

  /** In every run, when no writer is between commit and delete, the cached entry is old exactly
      if it was put after the end of a write that its fill overlaps, or a delete failed and
      nothing has replaced the entry since. */
  lemma OldExactly(ttl: Time, now: Time, list: List, run: seq<Action>)
    requires Runs(Start(ttl, now, list), run) && NoWrite(After(Start(ttl, now, list), run))
    requires After(Start(ttl, now, list), run).cache.Some?
    ensures
      var w := After(Start(ttl, now, list), run);
      Old(w) <==> FilledLate(w) || DeleteMissed(w)
  {
    RunTracked(Start(ttl, now, list), run);
    OldHasCause(After(Start(ttl, now, list), run));
  }

  lemma OldHasCause(w: World)
    requires Tracked(w) && NoWrite(w) && w.cache.Some?
    ensures Old(w) <==> FilledLate(w) || DeleteMissed(w)
  {
    var e := w.cache.value;
    if Old(w) {
      var i := e.version + 1;
      assert i in w.closings;
      if w.closings[i].step < e.step {
        assert i < e.commits;
      } else {
        assert !w.closings[i].deleted;
      }
    }
  }

  /** What a hit returns: the current list if the entry is not old, and otherwise the list of an
      earlier commit, which may be the same list. */
  lemma HitReturns(ttl: Time, now: Time, list: List, run: seq<Action>, c: Client)
    requires Runs(Start(ttl, now, list), run) && After(Start(ttl, now, list), run).history != []
    requires Enabled(After(Start(ttl, now, list), run), GetHit(c))
    ensures
      var w := After(Start(ttl, now, list), run);
      && (!Old(w) ==> Returned(w, GetHit(c)) == Some(Current(w)))
      && (Old(w) ==> exists i :: 0 <= i < |w.history| - 1 && Returned(w, GetHit(c)) == Some(w.history[i].list))
  {
    RunTracked(Start(ttl, now, list), run);
    var w := After(Start(ttl, now, list), run);
    assert w.history[w.cache.value.version].list == w.cache.value.list;
  }

  lemma FirstStep(w: World, a: Action, rest: seq<Action>)
    requires w.history != [] && Enabled(w, a) && Runs(Next(w, a), rest)
    ensures Runs(w, [a] + rest) && After(w, [a] + rest) == After(Next(w, a), rest)
  {
    assert ([a] + rest)[1..] == rest;
  }

  /** Reader 1 reads the database, writer 2 commits and deletes, and reader 1 fills the cache with
      what it read. */
  function Overlap(committed: List): seq<Action> {
    [GetMiss(1)] + ([ReadDb(1)] + ([Commit(2, committed)] + ([Delete(2)] + [Put(1)])))
  }

  /** Where that run ends: the older list is cached, and both clients are done. */
  function Overlapped(before: List, committed: List): World {
    World(10, 0, 5, [Committed(before, 0), Committed(committed, 0)], map[1 := Closing(true, 3)],
          Some(Cached(before, 0, 0, 0, 2, 4)), map[1 := Idle, 2 := Idle])
  }

  lemma OverlapEnds(before: List, committed: List)
    ensures Runs(Start(10, 0, before), Overlap(committed))
    ensures After(Start(10, 0, before), Overlap(committed)) == Overlapped(before, committed)
  {
    var w0 := Start(10, 0, before);
    var w1 := Next(w0, GetMiss(1));
    var w2 := Next(w1, ReadDb(1));
    var w3 := Next(w2, Commit(2, committed));
    var w4 := Next(w3, Delete(2));
    assert Next(w4, Put(1)) == Overlapped(before, committed);
    FirstStep(w4, Put(1), []);
    assert [Put(1)] + [] == [Put(1)];
    FirstStep(w3, Delete(2), [Put(1)]);
    FirstStep(w2, Commit(2, committed), [Delete(2)] + [Put(1)]);
    FirstStep(w1, ReadDb(1), [Commit(2, committed)] + ([Delete(2)] + [Put(1)]));
    FirstStep(w0, GetMiss(1), [ReadDb(1)] + ([Commit(2, committed)] + ([Delete(2)] + [Put(1)])));
  }

  /** With overlap a hit can be old though every writer is done. */
  lemma OverlapServesOldList(before: List, committed: List)
    requires before != committed
    ensures Runs(Start(10, 0, before), Overlap(committed))
    ensures
      var w := After(Start(10, 0, before), Overlap(committed));
      && w.history != [] && NoWrite(w) && Enabled(w, GetHit(3))
      && Returned(w, GetHit(3)) == Some(before) && Current(w) == committed
  {
    OverlapEnds(before, committed);
  }

  // ---------------------------------------------------------------------------------------
  // The service run by one client at a time
  // ---------------------------------------------------------------------------------------

  datatype Entry = Entry(list: List, putAt: Time)

  datatype Outcome = Done | NotCommitted | PostCommit

  /** What a write does, in order. */
  datatype Mark = DatabaseCommitted | CacheDeleted | CacheDeleteFailed | EventPublished

  class Service {
    const ttl: Time
    var now: Time
    var database: List
    var cache: Option<Entry>
    ghost var trace: seq<Mark>
    /** A delete failed after a commit and nothing has been put since. */
    ghost var outdated: bool

    ghost predicate Valid()
      reads this
    {
      cache.Some? && !outdated ==> cache.value.list == database
    }

    constructor (ttl: Time, now: Time, database: List)
      ensures Valid() && this.ttl == ttl && this.now == now && this.database == database && cache == None && !outdated
    {
      this.ttl, this.now, this.database := ttl, now, database;
      cache, trace, outdated := None, [], false;
    }

    predicate Hit()
      reads this
    {
      cache.Some? && now < cache.value.putAt + ttl
    }

    method Pass(elapsed: nat)
      requires Valid()
      modifies this`now
      ensures Valid() && now == old(now) + elapsed
    {
      now := now + elapsed;
    }

    /** The current list, unless a failed delete has left an older one that has not expired. */
    method ListPublic(cacheReads: bool, databaseReads: bool, puts: bool) returns (r: Option<List>)
      requires Valid()
      modifies this`cache, this`outdated
      ensures Valid()
      ensures r.None? <==> !(cacheReads && old(Hit())) && !databaseReads
      ensures old(cache).Some? && old(cache).value.putAt + ttl <= now && r.Some? ==> r.value == database
      ensures r.Some? && r.value != database ==>
        && cacheReads && old(outdated) && old(cache).Some? && now < old(cache).value.putAt + ttl
        && r.value == old(cache).value.list
      ensures old(cache).Some? && now < old(cache).value.putAt + ttl && cacheReads ==>
        r == Some(old(cache).value.list) && cache == old(cache)
      ensures r.Some? && !(old(outdated) && cacheReads && old(Hit())) ==> r.value == database
      ensures r.Some? && cacheReads && old(Hit()) ==> r == Some(old(cache).value.list) && cache == old(cache)
      ensures !puts ==> cache == old(cache)
      ensures r.Some? && !(cacheReads && old(Hit())) && puts ==> cache == Some(Entry(database, now)) && !outdated
    {
      if cacheReads && Hit() {
        return Some(cache.value.list);
      }
      if !databaseReads {
        return None;
      }
      r := Some(database);
      if puts {
        cache, outdated := Some(Entry(database, now)), false;
      }
    }

    /** Create, Update and Delete: commit, then delete the cached list, then publish. */
    method Write(list: List, commits: bool, deletes: bool) returns (r: Outcome)
      requires Valid()
      modifies this`database, this`cache, this`trace, this`outdated
      ensures Valid()
      ensures r == if !commits then NotCommitted else if deletes then Done else PostCommit
      ensures database == if commits then list else old(database)
      ensures trace == old(trace) + if !commits then [] else
        [DatabaseCommitted, if deletes then CacheDeleted else CacheDeleteFailed, EventPublished]
      ensures r == Done ==> cache == None && !outdated
      ensures r == PostCommit ==> cache == old(cache)
      ensures r == NotCommitted ==> cache == old(cache) && outdated == old(outdated)
    {
      if !commits {
        return NotCommitted;
      }
      database, trace := list, trace + [DatabaseCommitted];
      if deletes {
        cache, outdated, trace := None, false, trace + [CacheDeleted];
      } else {
        outdated, trace := true, trace + [CacheDeleteFailed];
      }
      trace := trace + [EventPublished];
      r := if deletes then Done else PostCommit;
    }
  }
}
