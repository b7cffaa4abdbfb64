/**
 * The `User` entity (Domain/Models/User.cs), its role (Domain/Models/UserRole.cs) and the
 * constraints that the Users table enforces (Data/ApplicationDbContext.cs, `ConfigureUser`).
 */
module Users {
  import opened Wrappers
  import Text
  import opened Postgres

  /** The two roles; the table stores them as the integers 0 and 1. */
  datatype UserRole = User | Admin

  /**
   * One row of the Users table. Timestamps are seconds on the server's UTC clock; a `None` is a
   * database NULL.
   */
  datatype User = User(
    id: int,
    email: string,
    displayName: string,
    googleId: Option<string>,
    profileImageId: Option<int>,
    createdAt: int,
    lastLoginAt: Option<int>,
    isActive: bool,
    isDeleted: bool,
    role: UserRole)

  const MaxEmailLength: nat := 100
  const MaxDisplayNameLength: nat := 100
  const MaxGoogleIdLength: nat := 255

  /** `UserRole.ToString()`. */
  function RoleName(r: UserRole): (name: string)
    ensures name == "User" || name == "Admin"
  {
    match r
    case User => "User"
    case Admin => "Admin"
  }

  /** The inverse of RoleName: `Enum.Parse` on the exact name. */
  function RoleFromName(name: string): Option<UserRole> {
    if name == "User" then Some(UserRole.User)
    else if name == "Admin" then Some(UserRole.Admin)
    else None
  }

  /** The integer the role column holds (`HasConversion<int>()`). */
  function RoleStored(r: UserRole): (v: int)
    ensures 0 <= v <= 1
  {
    match r
    case User => 0
    case Admin => 1
  }

  function RoleFromStored(v: int): Option<UserRole> {
    if v == 0 then Some(UserRole.User)
    else if v == 1 then Some(UserRole.Admin)
    else None
  }

  /** Both encodings of a role are lossless, and the two roles differ in each. */
  lemma RoleEncodingsRoundTrip(r: UserRole)
    ensures RoleFromName(RoleName(r)) == Some(r)
    ensures RoleFromStored(RoleStored(r)) == Some(r)
  {
  }

  lemma RoleEncodingsInjective(r: UserRole, q: UserRole)
    ensures RoleName(r) == RoleName(q) <==> r == q
    ensures RoleStored(r) == RoleStored(q) <==> r == q
  {
  }

  /**
   * A freshly constructed `User` before any property is set: empty required strings, no Google id,
   * no image, created now, never logged in, active, not deleted, role User.
   */
  function DefaultUser(now: int): (u: User)
    ensures u.email == "" && u.displayName == "" && u.googleId == None && u.profileImageId == None
    ensures u.createdAt == now && u.lastLoginAt == None
    ensures u.isActive && !u.isDeleted && u.role == UserRole.User
  {
    User.User(0, "", "", None, None, now, None, true, false, UserRole.User)
  }

  /**
   * The record that account creation builds (`new User { Email, DisplayName, GoogleId, Role = User,
   * IsActive = true, IsDeleted = false, CreatedAt = now }`); the database assigns `id` on insert.
   */
  function NewAccount(email: string, displayName: string, googleId: string, now: int): User {
    DefaultUser(now).(email := email, displayName := displayName, googleId := Some(googleId),
                      role := UserRole.User, isActive := true, isDeleted := false, createdAt := now)
  }

  /** The fields a new account starts with, and that it differs from the defaults only in the three it is given. */
  lemma NewAccountFields(email: string, displayName: string, googleId: string, now: int)
    ensures var u := NewAccount(email, displayName, googleId, now);
      && u.email == email && u.displayName == displayName && u.googleId == Some(googleId)
      && u.role == UserRole.User && u.isActive && !u.isDeleted
      && u.createdAt == now && u.lastLoginAt == None && u.profileImageId == None
      && u == DefaultUser(now).(email := email, displayName := displayName, googleId := Some(googleId))
  {
  }

  /**
   * What the string columns can hold: Email and DisplayName at most 100 characters, GoogleId at
   * most 255, and none of them U+0000.
   */
  predicate RowFits(u: User) {
    && |u.email| <= MaxEmailLength && NulFree(u.email)
    && |u.displayName| <= MaxDisplayNameLength && NulFree(u.displayName)
    && (u.googleId.Some? ==> |u.googleId.value| <= MaxGoogleIdLength && NulFree(u.googleId.value))
  }

  /**
   * The limits count characters, as PostgreSQL's varchar(n) does, and a string here is a sequence
   * of characters: a display name of 100 characters from outside the Basic Multilingual Plane (an
   * emoji each) fits its column, although .NET holds it in 200 UTF-16 code units.
   */
  lemma LimitsCountCharacters(u: User)
    requires |u.email| <= MaxEmailLength && NulFree(u.email)
    requires u.googleId.Some? ==> |u.googleId.value| <= MaxGoogleIdLength && NulFree(u.googleId.value)
    requires u.displayName == seq(MaxDisplayNameLength, _ => '\U{1F600}')
    ensures RowFits(u)
    ensures Text.Utf16Length(u.displayName) == 2 * MaxDisplayNameLength
  {
    Text.Utf16LengthRepeat('\U{1F600}', MaxDisplayNameLength);
  }

  /**
   * The row an INSERT of the entity `u` stores: Email, DisplayName and GoogleId each pass through
   * their varchar(n) column, so a value that is too long only by trailing spaces is stored cut to
   * the limit; None when a column refuses its value (too long, or holding U+0000). Every other
   * field is stored as it is.
   */
  function StoredRow(u: User): (r: Option<User>)
    ensures r.Some? <==> && VarcharColumn(u.email, MaxEmailLength).Some?
                         && VarcharColumn(u.displayName, MaxDisplayNameLength).Some?
                         && (u.googleId.Some? ==> VarcharColumn(u.googleId.value, MaxGoogleIdLength).Some?)
    ensures r.Some? ==> && RowFits(r.value)
                        && Varchar(u.email, MaxEmailLength) == Some(r.value.email)
                        && Varchar(u.displayName, MaxDisplayNameLength) == Some(r.value.displayName)
                        && (u.googleId.None? ==> r.value.googleId.None?)
                        && (u.googleId.Some? ==> Varchar(u.googleId.value, MaxGoogleIdLength) == r.value.googleId)
                        && r.value == u.(email := r.value.email, displayName := r.value.displayName,
                                         googleId := r.value.googleId)
    ensures RowFits(u) ==> r == Some(u)
  {
    var email := VarcharColumn(u.email, MaxEmailLength);
    var name := VarcharColumn(u.displayName, MaxDisplayNameLength);
    var googleId := if u.googleId.Some? then VarcharColumn(u.googleId.value, MaxGoogleIdLength) else None;
    if email.None? || name.None? || (u.googleId.Some? && googleId.None?) then None
    else Some(u.(email := email.value, displayName := name.value, googleId := googleId))
  }

  /** The unique index on Email covers every row, soft-deleted ones included. */
  predicate EmailsUnique(rows: seq<User>) {
    forall i, j :: 0 <= i < j < |rows| ==> rows[i].email != rows[j].email
  }

  predicate IdsUnique(rows: seq<User>) {
    forall i, j :: 0 <= i < j < |rows| ==> rows[i].id != rows[j].id
  }

  /** What the Users table guarantees of its contents at all times. */
  predicate TableValid(rows: seq<User>) {
    && (forall i :: 0 <= i < |rows| ==> RowFits(rows[i]))
    && EmailsUnique(rows)
    && IdsUnique(rows)
  }

  /** Some row, deleted or not, already holds this email. */
  predicate EmailTaken(rows: seq<User>, email: string) {
    exists i :: 0 <= i < |rows| && rows[i].email == email
  }

  /**
   * An insert succeeds only when every column takes its value and the email it stores is absent
   * from every row.
   */
  predicate CanInsert(rows: seq<User>, u: User) {
    StoredRow(u).Some? && !EmailTaken(rows, StoredRow(u).value.email)
  }

  /**
   * The database takes a new account under identity value `id`: neither Email nor DisplayName is
   * NULL (both columns are NOT NULL), the row fits its columns and its email is in no row yet.
   */
  predicate Admits(rows: seq<User>, email: Option<string>, displayName: Option<string>, googleId: string, now: int, id: int) {
    email.Some? && displayName.Some? && CanInsert(rows, NewAccount(email.value, displayName.value, googleId, now).(id := id))
  }

  /**
   * Every value an INSERT of a new account binds is one its column takes. A value refused for its
   * length or for a U+0000 fails the statement before it is executed; a NULL Email or DisplayName
   * and a taken email are refused while it executes, after the identity default has drawn a value.
   */
  predicate BindsAccount(email: Option<string>, displayName: Option<string>, googleId: string) {
    && (email.Some? ==> VarcharColumn(email.value, MaxEmailLength).Some?)
    && (displayName.Some? ==> VarcharColumn(displayName.value, MaxDisplayNameLength).Some?)
    && VarcharColumn(googleId, MaxGoogleIdLength).Some?
  }

  /**
   * An admitted account binds; a refused one binds exactly when the refusal is a NULL or a taken
   * email, the refusals raised while the INSERT executes.
   */
  lemma AdmitsBinds(rows: seq<User>, email: Option<string>, displayName: Option<string>, googleId: string, now: int, id: int)
    ensures Admits(rows, email, displayName, googleId, now, id) ==> BindsAccount(email, displayName, googleId)
    ensures BindsAccount(email, displayName, googleId) && !Admits(rows, email, displayName, googleId, now, id) ==>
      || email.None? || displayName.None?
      || EmailTaken(rows, StoredRow(NewAccount(email.value, displayName.value, googleId, now).(id := id)).value.email)
  {
    if email.Some? && displayName.Some? {
      var u := NewAccount(email.value, displayName.value, googleId, now).(id := id);
      assert u.googleId == Some(googleId);
    }
  }

  /** An insert that the constraints admit, with an id no row has, keeps the table valid. */
  lemma InsertKeepsTableValid(rows: seq<User>, u: User)
    requires TableValid(rows)
    requires CanInsert(rows, u)
    requires forall i :: 0 <= i < |rows| ==> rows[i].id != u.id
    ensures TableValid(rows + [StoredRow(u).value])
  {
    var rows' := rows + [StoredRow(u).value];
    forall i, j | 0 <= i < j < |rows'|
      ensures rows'[i].email != rows'[j].email && rows'[i].id != rows'[j].id
    {
      if j == |rows| {
        assert rows'[i] == rows[i];
      }
    }
  }

  /**
   * A soft-deleted row still blocks a new account whose email its column would store as that
   * row's email: the same email, or the same email followed by spaces past the limit.
   */
  lemma DeletedRowBlocksInsert(rows: seq<User>, i: nat, u: User)
    requires i < |rows| && rows[i].isDeleted
    requires Varchar(u.email, MaxEmailLength) == Some(rows[i].email)
    ensures !CanInsert(rows, u)
  {
  }

  /**
   * `FirstOrDefault(u => u.Email == email && !u.IsDeleted)`: a non-deleted row whose email is exactly
   * `email`, or None when there is none.
   */
  function FindByEmail(rows: seq<User>, email: string): (r: Option<User>)
    ensures r.Some? ==> r.value in rows && r.value.email == email && !r.value.isDeleted
    ensures r.None? <==> forall i :: 0 <= i < |rows| ==> rows[i].email != email || rows[i].isDeleted
  {
    if rows == [] then None
    else if rows[0].email == email && !rows[0].isDeleted then Some(rows[0])
    else
      var r := FindByEmail(rows[1..], email);
      assert forall i :: 1 <= i < |rows| ==> rows[i] == rows[1..][i - 1];
      r
  }

  /**
   * Under the unique index at most one row can match, so any matching row is the one returned: the
   * result does not depend on the order the database scans the rows in.
   */
  lemma FindByEmailUnique(rows: seq<User>, email: string, i: nat)
    requires EmailsUnique(rows)
    requires i < |rows| && rows[i].email == email && !rows[i].isDeleted
    ensures FindByEmail(rows, email) == Some(rows[i])
  {
    var r := FindByEmail(rows, email);
    assert r.Some?;
    var j :| 0 <= j < |rows| && rows[j] == r.value;
  }

  /**
   * Deleting a profile image sets ProfileImageId to NULL in every row that pointed at it
   * (`OnDelete(DeleteBehavior.SetNull)`); every other field and row is untouched.
   */
  function ClearProfileImage(rows: seq<User>, imageId: int): (rows': seq<User>)
    ensures |rows'| == |rows|
    ensures forall i :: 0 <= i < |rows| ==>
      rows'[i] == if rows[i].profileImageId == Some(imageId) then rows[i].(profileImageId := None) else rows[i]
  {
    seq(|rows|, i requires 0 <= i < |rows| =>
      if rows[i].profileImageId == Some(imageId) then rows[i].(profileImageId := None) else rows[i])
  }

  /** After the image is gone no row refers to it, and the table constraints still hold. */
  lemma ClearProfileImageSound(rows: seq<User>, imageId: int)
    requires TableValid(rows)
    ensures var rows' := ClearProfileImage(rows, imageId);
      TableValid(rows') && forall i :: 0 <= i < |rows'| ==> rows'[i].profileImageId != Some(imageId)
  {
    var rows' := ClearProfileImage(rows, imageId);
    assert forall i :: 0 <= i < |rows| ==> rows'[i].email == rows[i].email && rows'[i].id == rows[i].id;
  }

  /** `user.LastLoginAt = now` on the row with this id; every other field and every other row is kept. */
  function SetLastLogin(rows: seq<User>, id: int, now: int): (rows': seq<User>)
    ensures |rows'| == |rows|
    ensures forall i :: 0 <= i < |rows| ==>
      rows'[i] == if rows[i].id == id then rows[i].(lastLoginAt := Some(now)) else rows[i]
  {
    seq(|rows|, i requires 0 <= i < |rows| =>
      if rows[i].id == id then rows[i].(lastLoginAt := Some(now)) else rows[i])
  }

  /** Recording a login keeps the table valid and changes nothing a lookup by email depends on. */
  lemma SetLastLoginSound(rows: seq<User>, id: int, now: int, email: string)
    requires TableValid(rows)
    ensures TableValid(SetLastLogin(rows, id, now))
    ensures var r := FindByEmail(rows, email);
      FindByEmail(SetLastLogin(rows, id, now), email)
        == if r.Some? && r.value.id == id then Some(r.value.(lastLoginAt := Some(now))) else r
  {
    var rows' := SetLastLogin(rows, id, now);
    assert forall i :: 0 <= i < |rows| ==>
      rows'[i].email == rows[i].email && rows'[i].id == rows[i].id && rows'[i].isDeleted == rows[i].isDeleted;
    var r := FindByEmail(rows, email);
    var r' := FindByEmail(rows', email);
    if r.Some? {
      var i :| 0 <= i < |rows| && rows[i] == r.value;
      FindByEmailUnique(rows', email, i);
    }
  }

  /** Recording a login on the last row of a table whose other ids differ touches only that row. */
  lemma SetLastLoginOnAppended(rows: seq<User>, u: User, now: int)
    requires forall i :: 0 <= i < |rows| ==> rows[i].id != u.id
    ensures SetLastLogin(rows + [u], u.id, now) == rows + [u.(lastLoginAt := Some(now))]
  {
  }
}
