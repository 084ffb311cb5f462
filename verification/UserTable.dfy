/** The rows of the users table and what each UPDATE of db/queries/users.sql does to a row.
    Names, e-mail and avatar have no part in what follows and are left out of the row.
 */
module UserTable {
  import opened Wrappers
  import opened KeySpace

  datatype Status = Enabled | Disabled | Archived

  datatype User = User(
    id: UserId, password: string, status: Status, superuser: bool, multiple: bool, version: int,
    passwordChangedAt: Time, lastLogin: Option<Time>, updatedAt: Time, archivedAt: Option<Time>)

  type Table = map<UserId, User>

  function WithStatus(u: User, status: Status, now: Time): User {
    u.(status := status, archivedAt := if status == Archived then Some(now) else None,
       version := u.version + 1, updatedAt := now)
  }

  function WithSuperuser(u: User, superuser: bool, now: Time): User {
    u.(superuser := superuser, version := u.version + 1, updatedAt := now)
  }

  function WithMultiple(u: User, multiple: bool, now: Time): User {
    u.(multiple := multiple, version := u.version + 1, updatedAt := now)
  }

  function WithPassword(u: User, hash: string, now: Time): User {
    u.(password := hash, passwordChangedAt := now, version := u.version + 1, updatedAt := now)
  }

  /** The rehash after a login: the password is the same, so sessions stay valid. */
  function WithPasswordHash(u: User, hash: string, now: Time): User {
    u.(password := hash, updatedAt := now)
  }

  function WithLogin(u: User, now: Time): User {
    u.(lastLogin := Some(now), updatedAt := now)
  }

  function WithProfile(u: User, now: Time): User {
    u.(updatedAt := now)
  }

  predicate ActiveSuperuser(u: User) {
    u.superuser && u.status == Enabled
  }
}
