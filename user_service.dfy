/**
 * The Users table as the account service changes it (Api/Services/UserService.cs): rows in
 * insertion order and the identity counter that assigns ids.
 */
module UserService {
  import opened Wrappers
  import opened Users

  /** The message of the `DbUpdateException` that `SaveChangesAsync` throws when the database refuses a change. */
  const SaveFailedMessage: string := "An error occurred while saving the entity changes. See the inner exception for details."

  class UserStore {
    var rows: seq<User>
    /** The next value of the identity column; ids are never reused. */
    var nextId: int

    ghost predicate Valid()
      reads this
    {
      TableValid(rows) && forall i :: 0 <= i < |rows| ==> rows[i].id < nextId
    }

    constructor ()
      ensures Valid() && rows == [] && nextId == 1
    {
      rows := [];
      nextId := 1;
    }

    /**
     * `CreateUserAsync`: insert one account with the given email, display name and Google id, role
     * User, active, not deleted, created now. The database refuses the row (and the table stays as
     * it was) when Email or DisplayName is null, a column refuses its value or the stored email is
     * in any row already; a value too long only by trailing spaces is stored cut to its column's
     * limit. The entity returned keeps the values as given: `SaveChangesAsync` reads back only the
     * generated Id. The INSERT draws a value of the identity sequence, which PostgreSQL does not
     * give back, whenever it gets as far as executing: when every value it binds is taken by its
     * column.
     */
    method CreateUser(email: Option<string>, displayName: Option<string>, googleId: string, now: int) returns (r: Result<User>)
      requires Valid()
      modifies this
      ensures Valid()
      ensures nextId == old(nextId) + (if BindsAccount(email, displayName, googleId) then 1 else 0)
      ensures if Admits(old(rows), email, displayName, googleId, now, old(nextId))
        then var u := NewAccount(email.value, displayName.value, googleId, now).(id := old(nextId));
             r == Ok(u) && rows == old(rows) + [StoredRow(u).value]
        else r == Err(SaveFailedMessage) && rows == old(rows)
    {
      var id := nextId;
      if BindsAccount(email, displayName, googleId) {
        nextId := nextId + 1;
      }
      if !Admits(rows, email, displayName, googleId, now, id) {
        return Err(SaveFailedMessage);
      }
      AdmitsBinds(rows, email, displayName, googleId, now, id);
      var u := NewAccount(email.value, displayName.value, googleId, now).(id := id);
      InsertKeepsTableValid(rows, u);
      rows := rows + [StoredRow(u).value];
      r := Ok(u);
    }

    /** `UpdateLastLoginAsync`: the row with this id gets LastLoginAt = now; nothing else changes. */
    method UpdateLastLogin(id: int, now: int)
      requires Valid()
      modifies this
      ensures Valid()
      ensures rows == SetLastLogin(old(rows), id, now) && nextId == old(nextId)
    {
      SetLastLoginSound(rows, id, now, "");
      rows := SetLastLogin(rows, id, now);
    }
  }

  /**
   * After a successful CreateUser, looking up the email the row stores finds exactly the row
   * created, and so does looking up the email given when it was within the limit.
   */
  lemma CreatedUserIsFound(rows: seq<User>, u: User)
    requires TableValid(rows)
    requires CanInsert(rows, u) && !u.isDeleted
    requires forall i :: 0 <= i < |rows| ==> rows[i].id != u.id
    ensures FindByEmail(rows + [StoredRow(u).value], StoredRow(u).value.email) == StoredRow(u)
    ensures |u.email| <= MaxEmailLength ==> FindByEmail(rows + [StoredRow(u).value], u.email) == StoredRow(u)
  {
    InsertKeepsTableValid(rows, u);
    FindByEmailUnique(rows + [StoredRow(u).value], StoredRow(u).value.email, |rows|);
  }

  /**
   * An email that the column cut is never found again under the email given: no row can hold a
   * value over the limit, so the lookup a later sign-in makes comes back empty.
   */
  lemma CutEmailNotFound(rows: seq<User>, email: string)
    requires TableValid(rows)
    requires |email| > MaxEmailLength
    ensures FindByEmail(rows, email) == None
  {
  }
}
