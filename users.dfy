/** The user table and UsersService of backend/src/users/users.service.ts. */
module Users {
  import opened Common
  import Seqs

  /** A row of the users table. A missing hash is the empty string. */
  datatype User = User(
    id: nat,
    email: string,
    passwordHash: string,
    firstName: Option<string>,
    lastName: Option<string>,
    phoneNumber: Option<string>,
    nationalIdNumber: Option<string>,
    role: UserRole,
    isActive: bool,
    receivesEmailNotifications: bool,
    departmentId: Option<string>)

  /** The data handed to `create`. Omitted flags take the column default (true). */
  datatype NewUser = NewUser(
    email: string,
    passwordHash: Option<string>,
    firstName: Option<string>,
    lastName: Option<string>,
    phoneNumber: Option<string>,
    nationalIdNumber: Option<string>,
    role: UserRole,
    isActive: Option<bool>,
    receivesEmailNotifications: Option<bool>,
    departmentId: Option<string>)

  /** The data handed to `update`: `None` is a field that was not supplied,
      `Some(None)` an explicit null. */
  datatype UserPatch = UserPatch(
    email: Option<string>,
    passwordHash: Option<string>,
    firstName: Option<Option<string>>,
    lastName: Option<Option<string>>,
    phoneNumber: Option<Option<string>>,
    nationalIdNumber: Option<Option<string>>,
    role: Option<UserRole>,
    isActive: Option<bool>,
    receivesEmailNotifications: Option<bool>,
    departmentId: Option<Option<string>>)

  /** `findOne({ where: { email } })`: the first row with that email. */
  function FindByEmail(rows: seq<User>, email: string): (r: Option<User>)
    ensures r.Some? ==> r.value in rows && r.value.email == email
    ensures r.None? <==> forall u :: u in rows ==> u.email != email
  {
    if rows == [] then None
    else if rows[0].email == email then Some(rows[0])
    else FindByEmail(rows[1..], email)
  }

  /** `findOneBy({ id })`: the first row with that id. */
  function FindById(rows: seq<User>, id: nat): (r: Option<User>)
    ensures r.Some? ==> r.value in rows && r.value.id == id
    ensures r.None? <==> forall u :: u in rows ==> u.id != id
  {
    if rows == [] then None
    else if rows[0].id == id then Some(rows[0])
    else FindById(rows[1..], id)
  }

  function IndexOfId(rows: seq<User>, id: nat): (r: Option<nat>)
    ensures r.Some? ==> r.value < |rows| && rows[r.value].id == id
    ensures r.None? <==> forall u :: u in rows ==> u.id != id
  {
    if rows == [] then None
    else if rows[0].id == id then Some(0)
    else match IndexOfId(rows[1..], id)
      case None => None
      case Some(i) => Some(i + 1)
  }

  ghost predicate UniqueEmails(rows: seq<User>)
  {
    forall i, j :: 0 <= i < j < |rows| ==> rows[i].email != rows[j].email
  }

  /** The primary key of a row. */
  function IdOf(u: User): nat
  {
    u.id
  }

  /** Where emails are unique, the row found by email is the only one with it. */
  lemma {:induction false} FindByEmailUnique(rows: seq<User>, u: User)
    requires UniqueEmails(rows) && u in rows
    ensures FindByEmail(rows, u.email) == Some(u)
  {
    if rows[0] != u {
      assert rows[0].email != u.email by {
        var k :| 0 < k < |rows| && rows[k] == u;
      }
      assert UniqueEmails(rows[1..]) by {
        forall i, j | 0 <= i < j < |rows| - 1 ensures rows[1..][i].email != rows[1..][j].email {
          assert rows[1..][i] == rows[i + 1] && rows[1..][j] == rows[j + 1];
        }
      }
      FindByEmailUnique(rows[1..], u);
    }
  }

  function Pick<T>(supplied: Option<T>, current: T): T
  {
    if supplied.Some? then supplied.value else current
  }

  /** `merge(user, updateData)` after the hash has been struck from the data:
      every supplied field is overwritten and the hash never changes. */
  function Merge(u: User, patch: UserPatch): (m: User)
    ensures m.id == u.id && m.passwordHash == u.passwordHash
    ensures m.email == Pick(patch.email, u.email)
    ensures m.firstName == Pick(patch.firstName, u.firstName)
    ensures m.lastName == Pick(patch.lastName, u.lastName)
    ensures m.phoneNumber == Pick(patch.phoneNumber, u.phoneNumber)
    ensures m.nationalIdNumber == Pick(patch.nationalIdNumber, u.nationalIdNumber)
    ensures m.role == Pick(patch.role, u.role)
    ensures m.isActive == Pick(patch.isActive, u.isActive)
    ensures m.receivesEmailNotifications == Pick(patch.receivesEmailNotifications, u.receivesEmailNotifications)
    ensures m.departmentId == Pick(patch.departmentId, u.departmentId)
  {
    User(u.id, Pick(patch.email, u.email), u.passwordHash,
         Pick(patch.firstName, u.firstName), Pick(patch.lastName, u.lastName),
         Pick(patch.phoneNumber, u.phoneNumber), Pick(patch.nationalIdNumber, u.nationalIdNumber),
         Pick(patch.role, u.role), Pick(patch.isActive, u.isActive),
         Pick(patch.receivesEmailNotifications, u.receivesEmailNotifications),
         Pick(patch.departmentId, u.departmentId))
  }

  /** The merge as the source writes it: the hash is struck only when it is truthy,
      so a supplied empty hash reaches the row. */
  function MergeAsWritten(u: User, patch: UserPatch): User
  {
    var struck := if patch.passwordHash.Some? && patch.passwordHash.value != ""
                  then patch.(passwordHash := None) else patch;
    Merge(u, struck).(passwordHash := Pick(struck.passwordHash, u.passwordHash))
  }

  /** A supplied empty hash erases the stored one in the merge as written. */
  lemma MergeAsWrittenErasesHash(u: User, patch: UserPatch)
    requires u.passwordHash != "" && patch.passwordHash == Some("")
    ensures MergeAsWritten(u, patch).passwordHash == "" != u.passwordHash
  {
  }

  /** An empty patch leaves the row as it was. */
  lemma MergeEmptyPatch(u: User)
    ensures Merge(u, UserPatch(None, None, None, None, None, None, None, None, None, None)) == u
  {
  }

  class UserTable {
    var rows: seq<User>
    var nextId: nat

    ghost predicate Valid()
      reads this
    {
      && Seqs.UniqueKeys(rows, IdOf)
      && forall u :: u in rows ==> u.id < nextId
    }

    constructor ()
      ensures Valid() && rows == []
    {
      rows := [];
      nextId := 0;
    }

    /** `create`: refuses a missing or empty hash and an email already in use,
        otherwise appends one row with the supplied columns and default flags. */
    method Create(data: NewUser) returns (r: Result<User>)
      requires Valid()
      modifies this
      ensures Valid()
      ensures r.Err? ==> rows == old(rows) && r.failure == BadRequest
      ensures r.Ok? <==> data.passwordHash.Some? && data.passwordHash.value != ""
                         && FindByEmail(old(rows), data.email).None?
      ensures r.Ok? ==> rows == old(rows) + [r.value] && r.value.id !in (set u | u in old(rows) :: u.id)
      ensures r.Ok? ==> r.value == User(r.value.id, data.email, data.passwordHash.value,
                                        data.firstName, data.lastName, data.phoneNumber,
                                        data.nationalIdNumber, data.role,
                                        Pick(data.isActive, true),
                                        Pick(data.receivesEmailNotifications, true),
                                        data.departmentId)
      ensures r.Ok? ==> FindByEmail(rows, data.email) == Some(r.value)
      ensures UniqueEmails(old(rows)) ==> UniqueEmails(rows)
    {
      if data.passwordHash.None? || data.passwordHash.value == "" {
        return Err(BadRequest);
      }
      var existing := FindByEmail(rows, data.email);
      if existing.Some? {
        return Err(BadRequest);
      }
      var u := User(nextId, data.email, data.passwordHash.value,
                    data.firstName, data.lastName, data.phoneNumber,
                    data.nationalIdNumber, data.role,
                    Pick(data.isActive, true),
                    Pick(data.receivesEmailNotifications, true),
                    data.departmentId);
      FindByEmailAppend(rows, u);
      Seqs.AppendFreshKeepsUnique(rows, u, IdOf, nextId);
      rows := rows + [u];
      nextId := nextId + 1;
      r := Ok(u);
    }

    /** `update`: an unknown id is a BadRequest; otherwise the row is merged
        with the supplied fields in place, the hash left alone. */
    method Update(id: nat, patch: UserPatch) returns (r: Result<User>)
      requires Valid()
      modifies this
      ensures Valid() && nextId == old(nextId) && |rows| == |old(rows)|
      ensures FindById(old(rows), id).None? <==> r == Err(BadRequest)
      ensures FindById(old(rows), id).Some? <==> r.Ok?
      ensures r.Err? ==> rows == old(rows)
      ensures r.Ok? ==> exists i :: 0 <= i < |rows| && old(rows)[i].id == id
                          && r.value == Merge(old(rows)[i], patch)
                          && rows == old(rows)[i := r.value]
      ensures r.Ok? ==> r.value.passwordHash == FindById(old(rows), id).value.passwordHash
    {
      var i := IndexOfId(rows, id);
      if i.None? {
        return Err(BadRequest);
      }
      var k := i.value;
      var u := Merge(rows[k], patch);
      FindByIdAt(rows, k);
      rows := rows[k := u];
      r := Ok(u);
    }
  }

  lemma FindByEmailAppend(rows: seq<User>, u: User)
    requires FindByEmail(rows, u.email).None?
    ensures FindByEmail(rows + [u], u.email) == Some(u)
    ensures UniqueEmails(rows) ==> UniqueEmails(rows + [u])
  {
    assert u in rows + [u];
  }

  lemma FindByIdAt(rows: seq<User>, k: nat)
    requires k < |rows| && Seqs.UniqueKeys(rows, IdOf)
    ensures FindById(rows, rows[k].id) == Some(rows[k])
  {
    var f := FindById(rows, rows[k].id);
    assert rows[k] in rows;
    var j :| 0 <= j < |rows| && rows[j] == f.value;
  }
}
