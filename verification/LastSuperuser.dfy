/** Any number of READ COMMITTED transactions of protectLastSuperuser, interleaved with each
    other and with the operations that do not take the advisory lock.  Each statement sees what
    is committed when it runs; an update becomes visible when its transaction commits; the lock
    is held from LockSuperuserChanges to the end of the transaction.
 */
module LastSuperuser {
  import opened Wrappers
  import opened KeySpace
  import opened UserTable

  type TxId = int

  datatype Request = SetStatus(status: Status) | SetSuperuser(superuser: bool)

  /** `Begun`: waiting for the lock.  `Locked`: holding it.  `Looked`: has read the row.
      `Counted`: the guard has let the change through.  `Written`: has run its UPDATE. */
  datatype Stage = Begun | Locked | Looked(row: User) | Counted(row: User) | Written

  datatype Tx = Tx(user: UserId, request: Request, now: Time, stage: Stage, writes: bool)

  datatype Db = Db(users: Table, lock: Option<TxId>, open: map<TxId, Tx>)

  datatype Action =
    | Begin(t: TxId, user: UserId, request: Request, now: Time)
    | Lock(t: TxId)
    | Look(t: TxId)
    | Count(t: TxId)
    | Change(t: TxId)
    | Commit(t: TxId)
    | Rollback(t: TxId)
    | Create(row: User)
    | Other(user: UserId, row: User)

  /** SetStatus and SetSuperuser may take an active superuser away only in these cases. */
  predicate MayRemove(request: Request) {
    match request
    case SetStatus(status) => status != Enabled
    case SetSuperuser(superuser) => !superuser
  }

  /** The callback's early return: the row has the value already. */
  predicate Unchanged(row: User, request: Request) {
    match request
    case SetStatus(status) => row.status == status
    case SetSuperuser(superuser) => row.superuser == superuser
  }

  function Apply(row: User, request: Request, now: Time): User {
    match request
    case SetStatus(status) => WithStatus(row, status, now)
    case SetSuperuser(superuser) => WithSuperuser(row, superuser, now)
  }

  function Supers(users: Table): set<UserId> {
    set u | u in users && ActiveSuperuser(users[u])
  }

  /** The guard of protectLastSuperuser: what it does when the count comes back. */
  predicate Refused(users: Table, row: User, request: Request) {
    MayRemove(request) && ActiveSuperuser(row) && |Supers(users)| <= 1
  }

  ghost predicate Possible(db: Db, a: Action) {
    match a
    case Begin(t, _, _, _) => t !in db.open
    case Lock(t) => t in db.open && db.open[t].stage == Begun && db.lock == None
    case Look(t) => t in db.open && db.open[t].stage == Locked
    case Count(t) => t in db.open && db.open[t].stage.Looked?
    case Change(t) => t in db.open && db.open[t].stage.Counted?
    case Commit(t) => t in db.open && (db.open[t].stage == Written)
    case Rollback(t) => t in db.open
    case Create(row) => row.id !in db.users
    case Other(user, row) =>
      user in db.users && row.status == db.users[user].status && row.superuser == db.users[user].superuser
  }

  function Staged(db: Db, t: TxId, stage: Stage): Db
    requires t in db.open
  {
    db.(open := db.open[t := db.open[t].(stage := stage)])
  }

  function Ended(db: Db, t: TxId): Db {
    db.(open := db.open - {t}, lock := if db.lock == Some(t) then None else db.lock)
  }

  function Next(db: Db, a: Action): Db
    requires Possible(db, a)
  {
    match a
    case Begin(t, user, request, now) => db.(open := db.open[t := Tx(user, request, now, Begun, false)])
    case Lock(t) => Staged(db, t, Locked).(lock := Some(t))
    case Look(t) =>
      if db.open[t].user in db.users then Staged(db, t, Looked(db.users[db.open[t].user])) else Ended(db, t)
    case Count(t) =>
      var tx := db.open[t];
      if Refused(db.users, tx.stage.row, tx.request) then Ended(db, t) else Staged(db, t, Counted(tx.stage.row))
    case Change(t) =>
      var tx := db.open[t];
      db.(open := db.open[t := tx.(stage := Written, writes := !Unchanged(tx.stage.row, tx.request))])
    case Commit(t) =>
      var tx := db.open[t];
      var users := if tx.writes && tx.user in db.users
                   then db.users[tx.user := Apply(db.users[tx.user], tx.request, tx.now)] else db.users;
      Ended(db.(users := users), t)
    case Rollback(t) => Ended(db, t)
    case Create(row) => db.(users := db.users[row.id := row])
    case Other(user, row) => db.(users := db.users[user := row])
  }

  // ---------------------------------------------------------------------------------------
  // The invariant
  // ---------------------------------------------------------------------------------------

  /** A transaction past its lock holds the lock; what it has read of the row's status still
      stands; and once past the guard it may remove an active superuser only if there is
      another. */
  ghost predicate TxOk(db: Db, t: TxId)
    requires t in db.open
  {
    var tx := db.open[t];
    && (tx.stage != Begun <==> db.lock == Some(t))
    && (tx.stage.Looked? || tx.stage.Counted? || tx.stage == Written ==> tx.user in db.users)
    && (tx.stage.Looked? || tx.stage.Counted? ==>
          && tx.stage.row.status == db.users[tx.user].status && tx.stage.row.superuser == db.users[tx.user].superuser)
    && ((tx.stage.Counted? || tx.stage == Written) && MayRemove(tx.request) && tx.user in Supers(db.users) ==>
          2 <= |Supers(db.users)|)
    && (tx.stage == Written ==> tx.user in db.users && (tx.writes <==> !Unchanged(db.users[tx.user], tx.request)))
  }

  ghost predicate Inv(db: Db) {
    (db.lock.Some? ==> db.lock.value in db.open) && forall t | t in db.open :: TxOk(db, t)
  }

  /** Adding rows or changing other columns removes no active superuser. */
  lemma MoreSupers(users: Table, users': Table)
    requires forall u | u in Supers(users) :: u in Supers(users')
    ensures |Supers(users)| <= |Supers(users')|
  {
    SubsetCard(Supers(users), Supers(users'));
  }

  lemma {:induction false} SubsetCard<T>(a: set<T>, b: set<T>)
    requires a <= b
    ensures |a| <= |b|
  {
    if a != {} {
      var x :| x in a;
      SubsetCard(a - {x}, b - {x});
    }
  }

  lemma LeavesOne(users: Table, users': Table, u: UserId)
    requires forall v | v in Supers(users) && v != u :: v in Supers(users')
    requires u in Supers(users) ==> 2 <= |Supers(users)| || u in Supers(users')
    requires 1 <= |Supers(users)|
    ensures 1 <= |Supers(users')|
  {
    SubsetCard(Supers(users) - {u}, Supers(users'));
    if u in Supers(users') { SubsetCard({u}, Supers(users')); }
  }

  /** What a commit does to the active superusers. */
  lemma CommitLeavesOne(db: Db, t: TxId)
    requires Inv(db) && Possible(db, Commit(t)) && 1 <= |Supers(db.users)|
    ensures 1 <= |Supers(Next(db, Commit(t)).users)|
  {
    assert TxOk(db, t);
    LeavesOne(db.users, Next(db, Commit(t)).users, db.open[t].user);
  }

  /** A transaction other than the one that moved is where it was. */
  lemma OthersStay(db: Db, a: Action, t: TxId)
    requires Inv(db) && Possible(db, a) && t in db.open && t in Next(db, a).open && db.open[t] == Next(db, a).open[t]
    ensures TxOk(Next(db, a), t)
  {
    var db' := Next(db, a);
    assert TxOk(db, t);
    match a
    case Commit(s) => assert TxOk(db, s);
    case Rollback(s) => assert TxOk(db, s);
    case Look(s) => assert TxOk(db, s);
    case Count(s) => assert TxOk(db, s);
    case Lock(s) => assert TxOk(db, s);
    case Create(_) => MoreSupers(db.users, db'.users);
    case Other(_, _) => MoreSupers(db.users, db'.users);
    case _ =>
  }

  /** The transaction that moved keeps to the protocol. */
  lemma MoverOk(db: Db, a: Action)
    requires Inv(db) && Possible(db, a) && !a.Create? && !a.Other? && a.t in Next(db, a).open
    ensures TxOk(Next(db, a), a.t)
  {
    if !a.Begin? { assert TxOk(db, a.t); }
    if a.Count? && MayRemove(db.open[a.t].request) && db.open[a.t].user in Supers(db.users) {
      assert !Refused(db.users, db.open[a.t].stage.row, db.open[a.t].request);
    }
  }

  /** The step keeps the invariant, and never takes the last active superuser away. */
  lemma StepKeeps(db: Db, a: Action)
    requires Inv(db) && Possible(db, a)
    ensures Inv(Next(db, a))
    ensures 1 <= |Supers(db.users)| ==> 1 <= |Supers(Next(db, a).users)|
  {
    var db' := Next(db, a);
    forall t | t in db'.open ensures TxOk(db', t) {
      if !a.Create? && !a.Other? && t == a.t { MoverOk(db, a); } else { OthersStay(db, a, t); }
    }
    match a
    case Commit(t) => if 1 <= |Supers(db.users)| { CommitLeavesOne(db, t); }
    case Create(_) => MoreSupers(db.users, db'.users);
    case Other(_, _) => MoreSupers(db.users, db'.users);
    case _ =>
  }

  ghost predicate Runs(db: Db, run: seq<Action>)
    decreases |run|
  {
    run == [] || (Possible(db, run[0]) && Runs(Next(db, run[0]), run[1..]))
  }

  ghost function After(db: Db, run: seq<Action>): Db
    requires Runs(db, run)
    decreases |run|
  {
    if run == [] then db else After(Next(db, run[0]), run[1..])
  }

  lemma {:induction false} RunKeeps(db: Db, run: seq<Action>)
    requires Inv(db) && Runs(db, run)
    ensures Inv(After(db, run))
    ensures 1 <= |Supers(db.users)| ==> 1 <= |Supers(After(db, run).users)|
    decreases |run|
  {
    if run != [] {
      StepKeeps(db, run[0]);
      RunKeeps(Next(db, run[0]), run[1..]);
    }
  }

  /** A table without open transactions. */
  function Quiet(users: Table): Db {
    Db(users, None, map[])
  }

  /** However transactions interleave, commit or roll back: once there is an active superuser
      there always is one. */
  lemma SuperuserRemains(users: Table, run: seq<Action>, later: seq<Action>)
    requires Runs(Quiet(users), run) && Runs(After(Quiet(users), run), later)
    requires 1 <= |Supers(After(Quiet(users), run).users)|
    ensures 1 <= |Supers(After(After(Quiet(users), run), later).users)|
  {
    RunKeeps(Quiet(users), run);
    RunKeeps(After(Quiet(users), run), later);
  }

  /** When a transaction commits, its row has the value that was asked for, whatever happened between
      its statements: what was read at the start still stands, so a row that had the value already is
      left alone, and another one gets the columns of the UPDATE. */
  lemma CommitWrites(db: Db, t: TxId)
    requires Inv(db) && Possible(db, Commit(t))
    ensures
      var tx, users' := db.open[t], Next(db, Commit(t)).users;
      && tx.user in db.users && users' == db.users[tx.user := users'[tx.user]]
      && var row := db.users[tx.user];
      && (tx.request.SetStatus? ==>
            users'[tx.user] == if row.status == tx.request.status then row else
              row.(status := tx.request.status, version := row.version + 1, updatedAt := tx.now,
                   archivedAt := if tx.request.status == Archived then Some(tx.now) else None))
      && (tx.request.SetSuperuser? ==>
            users'[tx.user] == if row.superuser == tx.request.superuser then row else
              row.(superuser := tx.request.superuser, version := row.version + 1, updatedAt := tx.now))
  {
    assert TxOk(db, t);
  }

  /** Nothing but a commit, a new row and other updates touches the table, and a transaction that does
      not commit leaves it alone. */
  lemma OnlyCommitsWrite(db: Db, a: Action)
    requires Possible(db, a)
    ensures !a.Commit? && !a.Create? && !a.Other? ==> Next(db, a).users == db.users
  {
  }

  /** A change is refused exactly if committing it at that instant would leave no active
      superuser where there is one now. */
  lemma RefusedExactly(db: Db, t: TxId)
    requires Inv(db) && Possible(db, Count(t))
    ensures var tx := db.open[t];
            var users' := if Unchanged(tx.stage.row, tx.request) then db.users
                          else db.users[tx.user := Apply(db.users[tx.user], tx.request, tx.now)];
            && (Refused(db.users, tx.stage.row, tx.request) <==> |Supers(db.users)| >= 1 && |Supers(users')| == 0)
            && (t !in Next(db, Count(t)).open <==> |Supers(db.users)| >= 1 && |Supers(users')| == 0)
            && Next(db, Count(t)).users == db.users
  {
    var tx := db.open[t];
    assert TxOk(db, t);
    var users' := if Unchanged(tx.stage.row, tx.request) then db.users
                  else db.users[tx.user := Apply(db.users[tx.user], tx.request, tx.now)];
    if Refused(db.users, tx.stage.row, tx.request) {
      SubsetCard({tx.user}, Supers(db.users));
      forall v | v in Supers(users') ensures v in Supers(db.users) - {tx.user} {}
      SubsetCard(Supers(users'), Supers(db.users) - {tx.user});
    } else if |Supers(db.users)| >= 1 {
      LeavesOne(db.users, users', tx.user);
    }
  }
}
