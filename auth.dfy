/**
 * Account management (Repositories/Implementation/Auth.cs) over `t_users` and
 * `t_user_sessions`. The password hash (SHA-256 then Base64 in the source) is an arbitrary
 * deterministic function fixed when the service is built.
 */
module Auth {
  import opened Wrappers
  import opened Tables
  import opened Text
  import opened Schema

  /** The registration form. */
  datatype Registration = Registration(
    username: string,
    email: string,
    password: string,
    firstName: Option<string>,
    lastName: Option<string>,
    profilePicture: Option<string>)

  /** The members of the `user_role` enum. */
  datatype AccountRole = AdminRole | UserRole

  function RoleText(r: AccountRole): (s: string)
    ensures Lower(s) == s
  {
    match r
    case AdminRole => "admin"
    case UserRole => "user"
  }

  /** The partial profile update: a null or empty string, or a null value, leaves the column alone. */
  datatype UserUpdate = UserUpdate(
    firstName: Option<string>,
    lastName: Option<string>,
    email: Option<string>,
    profilePicture: Option<string>,
    role: Option<AccountRole>,
    isActive: Option<bool>)

  /** The user object the calls return; a column the query does not select stays null. */
  datatype User = User(
    id: int,
    username: string,
    email: string,
    passwordHash: Option<string>,
    role: string,
    firstName: Option<string>,
    lastName: Option<string>,
    profilePicture: Option<string>,
    createdAt: int,
    lastLogin: Option<int>,
    isActive: bool)

  function AsUser(row: UserRow, hashSelected: bool, lastLoginSelected: bool): User
  {
    User(row.id, row.username, row.email, if hashSelected then Some(row.passwordHash) else None,
         row.role, row.firstName, row.lastName, row.profilePicture, row.createdAt,
         if lastLoginSelected then row.lastLogin else None, row.isActive)
  }

  const DuplicateAccount: string := "Username or email already exists"
  const InvalidLogin: string := "Invalid username, password, or role"

  // ---------------------------------------------------------------- registration

  function Clashes(username: string, email: string): UserRow -> bool
  {
    (u: UserRow) => u.username == username || u.email == email
  }

  /** Some stored user already has the username or the email. */
  predicate Taken(users: seq<UserRow>, username: string, email: string)
  {
    exists i :: 0 <= i < |users| && (users[i].username == username || users[i].email == email)
  }

  /** The inserted row: the form's columns, the given hash, and the table's defaults. */
  function NewUser(reg: Registration, id: int, passwordHash: string, now: int): UserRow
  {
    UserRow(id, reg.username, reg.email, passwordHash, RoleText(UserRole),
            reg.firstName, reg.lastName, reg.profilePicture, now, now, None, true)
  }

  // ---------------------------------------------------------------- login

  /** A non-empty role was given with the credentials. */
  predicate RoleGiven(role: Option<string>)
  {
    role.Some? && role.value != ""
  }

  /** The login query: the username, and the lower-cased role when one is given. */
  function LoginMatch(username: string, role: Option<string>): UserRow -> bool
  {
    (u: UserRow) => u.username == username && (RoleGiven(role) ==> u.role == Lower(role.value))
  }

  /** `UPDATE t_users SET c_last_login = now WHERE c_user_id = id`. */
  function StampLogin(users: seq<UserRow>, id: int, now: int): seq<UserRow>
  {
    UpdateWhere(users, UserIdIs(id), (u: UserRow) => u.(lastLogin := Some(now)))
  }

  /** The login stamp touches only the rows of that user, and only their last-login column. */
  lemma StampLoginOnlyThatUser(users: seq<UserRow>, id: int, now: int)
    ensures |StampLogin(users, id, now)| == |users|
    ensures forall i :: 0 <= i < |users| && users[i].id != id ==> StampLogin(users, id, now)[i] == users[i]
    ensures forall i :: 0 <= i < |users| && users[i].id == id ==>
              StampLogin(users, id, now)[i] == users[i].(lastLogin := Some(now))
  {
  }

  /**
   * A freshly registered account is the one a login by its username finds, with no role or
   * with its own role given in any letter case.
   */
  lemma RegisteredIsFoundAtLogin(users: seq<UserRow>, reg: Registration, id: int, passwordHash: string, now: int, role: Option<string>)
    requires !Taken(users, reg.username, reg.email)
    requires RoleGiven(role) ==> Lower(role.value) == "user"
    ensures First(users + [NewUser(reg, id, passwordHash, now)], LoginMatch(reg.username, role))
         == Some(NewUser(reg, id, passwordHash, now))
  {
    var row := NewUser(reg, id, passwordHash, now);
    var s := users + [row];
    var p := LoginMatch(reg.username, role);
    assert p(s[|users|]);
    var k :| 0 <= k < |s| && s[k] == First(s, p).value && p(s[k]) && forall j :: 0 <= j < k ==> !p(s[j]);
    assert k == |users|;
  }

  // ---------------------------------------------------------------- profile update

  /** A string field is supplied when it is neither null nor empty. */
  predicate Supplied(s: Option<string>)
  {
    s.Some? && s.value != ""
  }

  /** The columns of the dynamic `UPDATE t_users SET ...`. */
  datatype UserColumn = UpdatedAtColumn | FirstNameColumn | LastNameColumn | EmailColumn
                      | ProfilePictureColumn | RoleColumn | IsActiveColumn

  /** The columns an update sets: always the update time, then each supplied field. */
  function SetColumns(upd: UserUpdate): set<UserColumn>
  {
    {UpdatedAtColumn}
    + (if Supplied(upd.firstName) then {FirstNameColumn} else {})
    + (if Supplied(upd.lastName) then {LastNameColumn} else {})
    + (if Supplied(upd.email) then {EmailColumn} else {})
    + (if Supplied(upd.profilePicture) then {ProfilePictureColumn} else {})
    + (if upd.role.Some? then {RoleColumn} else {})
    + (if upd.isActive.Some? then {IsActiveColumn} else {})
  }

  /** The row after `SET` of the columns `cols`, each taking its value from the update. */
  function Overwrite(row: UserRow, upd: UserUpdate, now: int, cols: set<UserColumn>): UserRow
  {
    row.(
      updatedAt := if UpdatedAtColumn in cols then now else row.updatedAt,
      firstName := if FirstNameColumn in cols then upd.firstName else row.firstName,
      lastName := if LastNameColumn in cols then upd.lastName else row.lastName,
      email := if EmailColumn in cols && upd.email.Some? then upd.email.value else row.email,
      profilePicture := if ProfilePictureColumn in cols then upd.profilePicture else row.profilePicture,
      role := if RoleColumn in cols && upd.role.Some? then Lower(RoleText(upd.role.value)) else row.role,
      isActive := if IsActiveColumn in cols && upd.isActive.Some? then upd.isActive.value else row.isActive)
  }

  function ApplyUpdate(row: UserRow, upd: UserUpdate, now: int): UserRow
  {
    Overwrite(row, upd, now, SetColumns(upd))
  }

  function Updater(upd: UserUpdate, now: int): UserRow -> UserRow
  {
    (u: UserRow) => ApplyUpdate(u, upd, now)
  }

  /**
   * A profile update sets the update time; a column changes only when its field was
   * supplied, and a supplied field always lands; the id, username, hash, creation time and
   * last login never change.
   */
  lemma UpdateChangesOnlySupplied(row: UserRow, upd: UserUpdate, now: int)
    ensures var r := ApplyUpdate(row, upd, now);
      && r.updatedAt == now
      && r.id == row.id && r.username == row.username && r.passwordHash == row.passwordHash
      && r.createdAt == row.createdAt && r.lastLogin == row.lastLogin
      && (r.firstName != row.firstName ==> Supplied(upd.firstName)) && (Supplied(upd.firstName) ==> r.firstName == upd.firstName)
      && (r.lastName != row.lastName ==> Supplied(upd.lastName)) && (Supplied(upd.lastName) ==> r.lastName == upd.lastName)
      && (r.email != row.email ==> Supplied(upd.email)) && (Supplied(upd.email) ==> Some(r.email) == upd.email)
      && (r.profilePicture != row.profilePicture ==> Supplied(upd.profilePicture))
      && (Supplied(upd.profilePicture) ==> r.profilePicture == upd.profilePicture)
      && (r.role != row.role ==> upd.role.Some?) && (upd.role.Some? ==> r.role == RoleText(upd.role.value))
      && (r.isActive != row.isActive ==> upd.isActive.Some?) && (upd.isActive.Some? ==> Some(r.isActive) == upd.isActive)
  {
  }

  /** The statement built column by column is the profile update. */
  lemma BuiltUpdateIsUpdater(users: seq<UserRow>, userId: int, upd: UserUpdate, now: int, cols: set<UserColumn>)
    requires cols == SetColumns(upd)
    ensures UpdateWhere(users, UserIdIs(userId), (u: UserRow) => Overwrite(u, upd, now, cols))
         == UpdateWhere(users, UserIdIs(userId), Updater(upd, now))
  {
  }

  /** A profile update never sets the id, so the ids stay below the identity sequence. */
  lemma UpdateKeepsIdsBelow(users: seq<UserRow>, userId: int, upd: UserUpdate, now: int, bound: int)
    requires UserIdsBelow(users, bound)
    ensures UserIdsBelow(UpdateWhere(users, UserIdIs(userId), Updater(upd, now)), bound)
  {
    UserIdsBelowUpdate(users, UserIdIs(userId), Updater(upd, now), bound);
  }

  /** Applying the same update twice is applying it once. */
  lemma UpdateIdempotent(row: UserRow, upd: UserUpdate, now: int)
    ensures ApplyUpdate(ApplyUpdate(row, upd, now), upd, now) == ApplyUpdate(row, upd, now)
  {
  }

  // ---------------------------------------------------------------- deletion

  function SessionNotOf(userId: int): SessionRow -> bool
  {
    (s: SessionRow) => s.userId != userId
  }

  /** After the delete neither a row nor a session of the user is left. */
  lemma DeleteLeavesNoTrace(users: seq<UserRow>, sessions: seq<SessionRow>, userId: int)
    ensures !HasUser(Where(users, UserIdIsNot(userId)), userId)
    ensures forall s :: s in Where(sessions, SessionNotOf(userId)) ==> s in sessions && s.userId != userId
  {
    WhereAll(users, UserIdIsNot(userId));
    WhereAll(sessions, SessionNotOf(userId));
    var r := Where(users, UserIdIsNot(userId));
    forall i | 0 <= i < |r| ensures r[i].id != userId {
      assert r[i] in r;
    }
  }

  // ---------------------------------------------------------------- the service

  /** The `StringBuilder` pass: the update time, then each supplied field in form order. */
  method ColumnList(upd: UserUpdate) returns (cols: set<UserColumn>)
    ensures cols == SetColumns(upd)
  {
    cols := {UpdatedAtColumn};
    if Supplied(upd.firstName) {
      cols := cols + {FirstNameColumn};
    }
    if Supplied(upd.lastName) {
      cols := cols + {LastNameColumn};
    }
    if Supplied(upd.email) {
      cols := cols + {EmailColumn};
    }
    if Supplied(upd.profilePicture) {
      cols := cols + {ProfilePictureColumn};
    }
    if upd.role.Some? {
      cols := cols + {RoleColumn};
    }
    if upd.isActive.Some? {
      cols := cols + {IsActiveColumn};
    }
  }

  class Auth {
    const db: Database
    /** SHA-256 of the UTF-8 bytes, Base64-encoded: any fixed function will do. */
    const hash: string -> string

    constructor (db: Database, hash: string -> string)
      ensures this.db == db && this.hash == hash
    {
      this.db := db;
      this.hash := hash;
    }

    function HashPassword(password: string): string
    {
      hash(password)
    }

    predicate VerifyPassword(password: string, storedHash: string)
    {
      HashPassword(password) == storedHash
    }

    /**
     * Rejects a username or email already in use; otherwise inserts the user with the hash of
     * the password and the table's defaults (role "user", active) and returns it without hash.
     */
    method RegisterUserAsync(reg: Registration, now: int) returns (r: Outcome<User>)
      modifies db
      ensures Taken(old(db.users), reg.username, reg.email) ==>
                r == Threw(DuplicateAccount) && db.users == old(db.users) && db.nextUserId == old(db.nextUserId)
      ensures !Taken(old(db.users), reg.username, reg.email) ==>
                var row := NewUser(reg, old(db.nextUserId), HashPassword(reg.password), now);
                && db.users == old(db.users) + [row]
                && db.nextUserId == old(db.nextUserId) + 1
                && r == Returned(AsUser(row, false, false))
      ensures old(db.Valid()) ==> db.Valid()
      ensures db.tasks == old(db.tasks) && db.sessions == old(db.sessions) && db.nextTaskId == old(db.nextTaskId)
    {
      var passwordHash := HashPassword(reg.password);
      WhereNonEmpty(db.users, Clashes(reg.username, reg.email));
      var count := |Where(db.users, Clashes(reg.username, reg.email))|;
      if count > 0 {
        return Threw(DuplicateAccount);
      }
      var row := NewUser(reg, db.nextUserId, passwordHash, now);
      db.users := db.users + [row];
      db.nextUserId := db.nextUserId + 1;
      r := Returned(AsUser(row, false, false));
    }

    /**
     * Reads the first user the login query selects; when the password verifies, stamps that
     * user's last login and returns it (with its hash, without the stamp). Anything else
     * throws with nothing changed.
     */
    method LoginUserAsync(username: string, password: string, role: Option<string>, now: int) returns (r: Outcome<User>)
      modifies db
      ensures var found := First(old(db.users), LoginMatch(username, role));
        && (found.None? || !VerifyPassword(password, found.value.passwordHash) ==>
              r == Threw(InvalidLogin) && db.users == old(db.users))
        && (found.Some? && VerifyPassword(password, found.value.passwordHash) ==>
              r == Returned(AsUser(found.value, true, false)) && db.users == StampLogin(old(db.users), found.value.id, now))
      ensures r.Returned? ==>
                && r.value.username == username
                && r.value.passwordHash.Some? && VerifyPassword(password, r.value.passwordHash.value)
                && (RoleGiven(role) ==> r.value.role == Lower(role.value))
      ensures db.tasks == old(db.tasks) && db.sessions == old(db.sessions)
      ensures db.nextTaskId == old(db.nextTaskId) && db.nextUserId == old(db.nextUserId)
      ensures old(db.Valid()) ==> db.Valid()
    {
      var found := First(db.users, LoginMatch(username, role));
      if found.None? {
        return Threw(InvalidLogin);
      }
      var u := found.value;
      if !VerifyPassword(password, u.passwordHash) {
        return Threw(InvalidLogin);
      }
      var k :| 0 <= k < |db.users| && db.users[k] == u && LoginMatch(username, role)(db.users[k]);
      if db.Valid() {
        UserIdsBelowUpdate(db.users, UserIdIs(u.id), (x: UserRow) => x.(lastLogin := Some(now)), db.nextUserId);
      }
      db.users := StampLogin(db.users, u.id, now);
      r := Returned(AsUser(u, true, false));
    }

    /**
     * Null for an unknown user. Otherwise builds the column list field by field, updates the
     * user's rows and returns the user as re-read.
     */
    method UpdateUserAsync(userId: int, upd: UserUpdate, now: int) returns (r: Option<User>)
      modifies db
      ensures !HasUser(old(db.users), userId) ==> r == None && db.users == old(db.users)
      ensures HasUser(old(db.users), userId) ==>
                && db.users == UpdateWhere(old(db.users), UserIdIs(userId), Updater(upd, now))
                && r == Some(AsUser(ApplyUpdate(First(old(db.users), UserIdIs(userId)).value, upd, now), true, true))
      ensures db.tasks == old(db.tasks) && db.sessions == old(db.sessions)
      ensures db.nextTaskId == old(db.nextTaskId) && db.nextUserId == old(db.nextUserId)
      ensures old(db.Valid()) ==> db.Valid()
    {
      WhereNonEmpty(db.users, UserIdIs(userId));
      var count := |Where(db.users, UserIdIs(userId))|;
      if count == 0 {
        return None;
      }
      var cols := ColumnList(upd);
      var before := db.users;
      UpdateWhereFirst(before, UserIdIs(userId), Updater(upd, now));
      if db.Valid() {
        UpdateKeepsIdsBelow(before, userId, upd, now, db.nextUserId);
      }
      BuiltUpdateIsUpdater(before, userId, upd, now, cols);
      db.users := UpdateWhere(before, UserIdIs(userId), (u: UserRow) => Overwrite(u, upd, now, cols));
      var reread := First(db.users, UserIdIs(userId));
      r := Some(AsUser(reread.value, true, true));
    }

    /**
     * False for an unknown user or a wrong current password, with nothing changed; otherwise
     * stores the hash of the new password.
     */
    method ChangePasswordAsync(userId: int, currentPassword: string, newPassword: string) returns (ok: bool)
      modifies db
      ensures var found := First(old(db.users), UserIdIs(userId));
        ok <==> found.Some? && VerifyPassword(currentPassword, found.value.passwordHash)
      ensures !ok ==> db.users == old(db.users)
      ensures ok ==> db.users == UpdateWhere(old(db.users), UserIdIs(userId),
                                             (u: UserRow) => u.(passwordHash := HashPassword(newPassword)))
      ensures ok ==> forall i :: 0 <= i < |db.users| && db.users[i].id == userId ==>
                       VerifyPassword(newPassword, db.users[i].passwordHash)
      ensures db.tasks == old(db.tasks) && db.sessions == old(db.sessions)
      ensures db.nextTaskId == old(db.nextTaskId) && db.nextUserId == old(db.nextUserId)
      ensures old(db.Valid()) ==> db.Valid()
    {
      var found := First(db.users, UserIdIs(userId));
      if found.None? {
        return false;
      }
      if !VerifyPassword(currentPassword, found.value.passwordHash) {
        return false;
      }
      var newHash := HashPassword(newPassword);
      var before := db.users;
      if db.Valid() {
        UserIdsBelowUpdate(db.users, UserIdIs(userId), (u: UserRow) => u.(passwordHash := newHash), db.nextUserId);
      }
      db.users := UpdateWhere(db.users, UserIdIs(userId), (u: UserRow) => u.(passwordHash := newHash));
      var k :| 0 <= k < |before| && before[k] == found.value && UserIdIs(userId)(before[k]);
      assert UserIdIs(userId)(db.users[k]);
      WhereNonEmpty(db.users, UserIdIs(userId));
      var rowsAffected := |Where(db.users, UserIdIs(userId))|;
      ok := rowsAffected > 0;
    }

    /**
     * One transaction: deletes the user's sessions, then the user; when no user row went, it
     * rolls back, so the sessions come back too.
     */
    method DeleteUserAsync(userId: int) returns (ok: bool)
      modifies db
      ensures ok <==> HasUser(old(db.users), userId)
      ensures ok ==> (db.users == Where(old(db.users), UserIdIsNot(userId))
                      && db.sessions == Where(old(db.sessions), SessionNotOf(userId)))
      ensures !ok ==> db.users == old(db.users) && db.sessions == old(db.sessions)
      ensures db.tasks == old(db.tasks) && db.nextTaskId == old(db.nextTaskId) && db.nextUserId == old(db.nextUserId)
      ensures old(db.Valid()) ==> db.Valid()
    {
      var savedUsers, savedSessions := db.users, db.sessions;
      db.sessions := Where(db.sessions, SessionNotOf(userId));
      WhereDrops(db.users, UserIdIsNot(userId));
      if db.Valid() {
        UserIdsBelowWhere(db.users, UserIdIsNot(userId), db.nextUserId);
      }
      var before := |db.users|;
      db.users := Where(db.users, UserIdIsNot(userId));
      var rowsAffected := before - |db.users|;
      if rowsAffected == 0 {
        db.users, db.sessions := savedUsers, savedSessions;
        return false;
      }
      ok := true;
    }
  }
}
