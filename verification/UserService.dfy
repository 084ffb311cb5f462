/** Changes of an account run one at a time: user/service.go over one transaction of
    user/postgres/repository.go.  Password rules and digests are parameters.
 */
module UserService {
  import opened Wrappers
  import opened KeySpace
  import opened UserTable
  import opened LastSuperuser

  datatype Result<+T> = Ok(value: T) | NotFound | KeepsLastSuperuser | InvalidPassword | PasswordMismatch | Failed

  /** The row after a change that is let through. */
  function Changed(row: User, request: Request, now: Time): User {
    if Unchanged(row, request) then row else Apply(row, request, now)
  }

  /** A change that goes through is the only one, and writing a row moves its version on. */
  predicate OneRow(before: Table, after: Table, row: User) {
    && row.id in before && after == before[row.id := row]
    && (row != before[row.id] ==> row.version == before[row.id].version + 1)
  }

  lemma ChangeLeavesOne(users: Table, id: UserId, request: Request, now: Time)
    requires id in users && !Refused(users, users[id], request) && 1 <= |Supers(users)|
    ensures 1 <= |Supers(users[id := Changed(users[id], request, now)])|
  {
    LeavesOne(users, users[id := Changed(users[id], request, now)], id);
  }

  /** An active superuser is the last one exactly if no other row is one. */
  lemma OnlyOne(users: Table, id: UserId)
    requires id in users && users[id].superuser && users[id].status == Enabled
    ensures |Supers(users)| <= 1 <==>
            forall other | other in users && other != id :: !(users[other].superuser && users[other].status == Enabled)
  {
    var rest := Supers(users) - {id};
    assert |Supers(users)| == |rest| + 1;
    if |Supers(users)| <= 1 {
      forall other | other in users && other != id
        ensures !(users[other].superuser && users[other].status == Enabled)
      {
        assert other !in rest;
      }
    } else {
      var other :| other in rest;
    }
  }

  class Service {
    var users: Table
    const valid: string -> bool
    const hash: string -> Option<string>
    const check: (string, string) -> Option<bool>

    constructor (users: Table, valid: string -> bool, hash: string -> Option<string>,
                 check: (string, string) -> Option<bool>)
      requires forall u | u in users :: users[u].id == u
      ensures Valid() && this.users == users
    {
      this.users, this.valid, this.hash, this.check := users, valid, hash, check;
    }

    ghost predicate Valid()
      reads this
    {
      forall u | u in users :: users[u].id == u
    }

    /** The transaction works on what it has read and becomes visible only if it commits.  It is
        refused exactly when it would take the last active superuser away. */
    method ProtectLastSuperuser(id: UserId, request: Request, now: Time, commits: bool) returns (r: Result<User>)
      requires Valid()
      modifies this`users
      ensures Valid()
      ensures r.Ok? <==> id in old(users) && !Refused(old(users), old(users)[id], request) && commits
      ensures r.Ok? ==> OneRow(old(users), users, r.value) && r.value == Changed(old(users)[id], request, now)
      ensures !r.Ok? ==> users == old(users)
      ensures r.Ok? && request.SetStatus? ==>
        var row := old(users)[id];
        r.value == if row.status == request.status then row else
          row.(status := request.status, archivedAt := if request.status == Archived then Some(now) else None,
               version := row.version + 1, updatedAt := now)
      ensures r.Ok? && request.SetSuperuser? ==>
        var row := old(users)[id];
        r.value == if row.superuser == request.superuser then row else
          row.(superuser := request.superuser, version := row.version + 1, updatedAt := now)
      ensures r == NotFound <==> id !in old(users)
      ensures r == KeepsLastSuperuser <==> id in old(users) && Refused(old(users), old(users)[id], request)
      ensures r == KeepsLastSuperuser <==>
        && id in old(users) && old(users)[id].superuser && old(users)[id].status == Enabled
        && (request.SetStatus? ==> request.status != Enabled) && (request.SetSuperuser? ==> !request.superuser)
        && forall other | other in old(users) && other != id ::
             !(old(users)[other].superuser && old(users)[other].status == Enabled)
      ensures 1 <= |Supers(old(users))| ==> 1 <= |Supers(users)|
    {
      var draft := users;
      if id !in draft {
        return NotFound;
      }
      var current := draft[id];
      if ActiveSuperuser(current) { OnlyOne(users, id); }
      if MayRemove(request) && ActiveSuperuser(current) {
        var count := |Supers(draft)|;
        if count <= 1 {
          return KeepsLastSuperuser;
        }
      }
      var result := current;
      if !Unchanged(current, request) {
        result := Apply(current, request, now);
        draft := draft[id := result];
      }
      if !commits {
        return Failed;
      }
      if 1 <= |Supers(users)| {
        ChangeLeavesOne(users, id, request, now);
      }
      assert draft == users[id := Changed(current, request, now)];
      users := draft;
      return Ok(result);
    }

    /** A new password outdates every session of the account. */
    method ResetPassword(id: UserId, password: string, now: Time) returns (r: Result<User>)
      requires Valid()
      modifies this`users
      ensures Valid()
      ensures r.Ok? <==> valid(password) && hash(password).Some? && id in old(users)
      ensures r.Ok? ==> OneRow(old(users), users, r.value) && r.value != old(users)[id]
      ensures r.Ok? ==>
        var row := old(users)[id];
        && r.value == row.(password := hash(password).value, passwordChangedAt := now, version := row.version + 1,
                           updatedAt := now)
        && users[id].password == hash(password).value && users[id].passwordChangedAt == now
        && users[id].version == row.version + 1
      ensures r == InvalidPassword <==> !valid(password)
      ensures r != PasswordMismatch && r != KeepsLastSuperuser
      ensures r == NotFound <==> valid(password) && hash(password).Some? && id !in old(users)
      ensures !r.Ok? ==> users == old(users)
      ensures Supers(users) == Supers(old(users))
    {
      if !valid(password) {
        return InvalidPassword;
      }
      var digest := hash(password);
      if digest.None? {
        return Failed;
      }
      if id !in users {
        return NotFound;
      }
      users := users[id := WithPassword(users[id], digest.value, now)];
      return Ok(users[id]);
    }

    /** The old password must match the stored digest first. */
    method ChangePassword(id: UserId, before: string, after: string, now: Time) returns (r: Result<User>)
      requires Valid()
      modifies this`users
      ensures Valid()
      ensures r.Ok? <==>
        && id in old(users) && check(before, old(users)[id].password) == Some(true)
        && valid(after) && hash(after).Some?
      ensures r.Ok? ==> OneRow(old(users), users, r.value)
      ensures r.Ok? ==>
        var row := old(users)[id];
        && r.value == row.(password := hash(after).value, passwordChangedAt := now, version := row.version + 1,
                           updatedAt := now)
        && users[id].password == hash(after).value && users[id].passwordChangedAt == now
        && users[id].version == row.version + 1
      ensures r == PasswordMismatch <==> id in old(users) && check(before, old(users)[id].password) == Some(false)
      ensures !r.Ok? ==> users == old(users)
    {
      if id !in users {
        return NotFound;
      }
      var matched := check(before, users[id].password);
      if matched.None? {
        return Failed;
      }
      if !matched.value {
        return PasswordMismatch;
      }
      r := ResetPassword(id, after, now);
    }

    /** Whether a user may have several sessions. */
    method SetMultipleSessions(id: UserId, multiple: bool, now: Time) returns (r: Result<User>)
      requires Valid()
      modifies this`users
      ensures Valid()
      ensures r.Ok? <==> id in old(users)
      ensures !r.Ok? ==> r == NotFound && users == old(users)
      ensures r.Ok? ==>
        var row := old(users)[id];
        && r.value == row.(multiple := multiple, version := row.version + 1, updatedAt := now)
        && users == old(users)[id := r.value]
      ensures Supers(users) == Supers(old(users))
    {
      if id !in users {
        return NotFound;
      }
      users := users[id := WithMultiple(users[id], multiple, now)];
      return Ok(users[id]);
    }
  }
}
