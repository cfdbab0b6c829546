/**
 * `UserService`: create and update refuse a username or email another user
 * holds, and store the encoder's output instead of the password; delete is
 * guarded by a lookup. The encoder and the clock are parameters.
 */
module UserService {
  import opened Wrappers
  import opened Store
  import opened Users

  /**
   * `createUser`: the username is checked before the email; on success the
   * password is replaced by its encoding and a null `createdAt` becomes `now`.
   * The `passwordHash` of `u` carries the submitted password.
   */
  function CreateUser(t: Table<User>, u: User, encode: string -> string, now: Timestamp): (r: Result<Saved<User>>)
    ensures r.Err? <==> UsernameInUse(t, u.username) || EmailInUse(t, u.email)
    ensures r.Err? && UsernameInUse(t, u.username) ==> r.message == UsernameTaken
    ensures r.Err? && !UsernameInUse(t, u.username) ==> r.message == EmailTaken
    ensures r.Ok? ==> r.value.id !in t && r.value.table == t[r.value.id := r.value.row]
    ensures r.Ok? ==> var s := r.value.row;
      && s.passwordHash == encode(u.passwordHash)
      && s.username == u.username && s.email == u.email
      && s.role == u.role && s.phone == u.phone
      && s.createdAt == Some(u.createdAt.GetOr(now))
  {
    if UsernameInUse(t, u.username) then Err(UsernameTaken)
    else if EmailInUse(t, u.email) then Err(EmailTaken)
    else Ok(Insert(t, u.(passwordHash := encode(u.passwordHash), createdAt := Some(u.createdAt.GetOr(now)))))
  }

  /** The password clause of `updateUser`: a null or empty password keeps the stored hash. */
  predicate ChangesPassword(p: UserPatch) {
    p.password.Some? && p.password.value != ""
  }

  /** The field-by-field copy of `updateUser`, after both uniqueness checks have passed. */
  function ApplyPatch(u: User, p: UserPatch, encode: string -> string): (r: User)
    ensures Overwrites(u.username, p.username, r.username)
    ensures Overwrites(u.email, p.email, r.email)
    ensures ChangesPassword(p) ==> r.passwordHash == encode(p.password.value)
    ensures !ChangesPassword(p) ==> r.passwordHash == u.passwordHash
    ensures Overwrites(u.role, p.role, r.role)
    ensures p.phone.Some? ==> r.phone == p.phone
    ensures p.phone.None? ==> r.phone == u.phone
    ensures r.createdAt == u.createdAt
  {
    u.(username := p.username.GetOr(u.username),
       email := p.email.GetOr(u.email),
       passwordHash := if ChangesPassword(p) then encode(p.password.value) else u.passwordHash,
       role := p.role.GetOr(u.role),
       phone := if p.phone.Some? then p.phone else u.phone)
  }

  /**
   * `updateUser`: "Пользователь не найден" for an unknown id; then a supplied
   * username, and after it a supplied email, is refused only when another
   * user holds it; otherwise the non-null details overwrite.
   */
  function UpdateUser(t: Table<User>, id: int, p: UserPatch, encode: string -> string): (r: Result<Saved<User>>)
    ensures r.Err? <==> id !in t
                        || (p.username.Some? && UsernameHeldByOther(t, id, p.username.value))
                        || (p.email.Some? && EmailHeldByOther(t, id, p.email.value))
    ensures r.Err? && id !in t ==> r.message == NotFound
    ensures r.Err? && id in t && p.username.Some? && UsernameHeldByOther(t, id, p.username.value)
            ==> r.message == UsernameTaken
    ensures r.Err? && id in t && !(p.username.Some? && UsernameHeldByOther(t, id, p.username.value))
            ==> r.message == EmailTaken
    ensures r.Ok? ==> r.value.id == id && r.value.row == ApplyPatch(t[id], p, encode)
    ensures r.Ok? ==> r.value.table == t[id := r.value.row]
  {
    if id !in t then Err(NotFound)
    else if p.username.Some? && UsernameHeldByOther(t, id, p.username.value) then Err(UsernameTaken)
    else if p.email.Some? && EmailHeldByOther(t, id, p.email.value) then Err(EmailTaken)
    else Ok(Put(t, id, ApplyPatch(t[id], p, encode)))
  }

  /** `deleteUser`: "Пользователь не найден" for an unknown id, else exactly that user goes. */
  function DeleteUser(t: Table<User>, id: int): (r: Result<Table<User>>)
    ensures r.Err? <==> id !in t
    ensures r.Err? ==> r.message == NotFound
    ensures r.Ok? ==> r.value.Keys == t.Keys - {id}
    ensures r.Ok? ==> forall k | k in r.value :: r.value[k] == t[k]
  {
    Delete(t, id, NotFound)
  }

  /** A successful create keeps usernames and emails unique. */
  lemma CreateKeepsUnique(t: Table<User>, u: User, encode: string -> string, now: Timestamp)
    requires Unique(t)
    ensures var r := CreateUser(t, u, encode, now); r.Ok? ==> Unique(r.value.table)
  {
    var r := CreateUser(t, u, encode, now);
    if r.Ok? {
      var t' := r.value.table;
      var n := r.value.id;
      forall i, j | i in t' && j in t' && i != j
        ensures t'[i].username != t'[j].username && t'[i].email != t'[j].email
      {
        if i == n {
          assert j in t && t'[j] == t[j];
        } else if j == n {
          assert i in t && t'[i] == t[i];
        } else {
          assert t'[i] == t[i] && t'[j] == t[j];
        }
      }
    }
  }

  /** A successful update keeps usernames and emails unique. */
  lemma UpdateKeepsUnique(t: Table<User>, id: int, p: UserPatch, encode: string -> string)
    requires Unique(t)
    ensures var r := UpdateUser(t, id, p, encode); r.Ok? ==> Unique(r.value.table)
  {
    var r := UpdateUser(t, id, p, encode);
    if r.Ok? {
      var t' := r.value.table;
      forall i, j | i in t' && j in t' && i != j
        ensures t'[i].username != t'[j].username && t'[i].email != t'[j].email
      {
        if i == id {
          assert j in t && t'[j] == t[j];
          UpdatedDiffers(t, id, p, encode, j);
        } else if j == id {
          assert i in t && t'[i] == t[i];
          UpdatedDiffers(t, id, p, encode, i);
        } else {
          assert t'[i] == t[i] && t'[j] == t[j];
        }
      }
    }
  }

  /** After a successful update, the updated row clashes with no other row. */
  lemma UpdatedDiffers(t: Table<User>, id: int, p: UserPatch, encode: string -> string, k: int)
    requires Unique(t) && k in t && k != id
    requires UpdateUser(t, id, p, encode).Ok?
    ensures var u := UpdateUser(t, id, p, encode).value.row;
            u.username != t[k].username && u.email != t[k].email
  {
    var u := UpdateUser(t, id, p, encode).value.row;
    if p.username.Some? {
      assert !UsernameHeldByOther(t, id, p.username.value);
    }
    if p.email.Some? {
      assert !EmailHeldByOther(t, id, p.email.value);
    }
  }

  /** Deleting a user keeps the registry unique. */
  lemma DeleteKeepsUnique(t: Table<User>, id: int)
    requires Unique(t)
    ensures var r := DeleteUser(t, id); r.Ok? ==> Unique(r.value)
  {
  }

  /** Resubmitting a user's own username and email is accepted: only another holder is a conflict. */
  lemma ResubmitOwnSucceeds(t: Table<User>, id: int, encode: string -> string)
    requires Unique(t) && id in t
    ensures UpdateUser(t, id, NoChange.(username := Some(t[id].username), email := Some(t[id].email)), encode).Ok?
  {
    var u := t[id];
    forall k | k in t && k != id
      ensures t[k].username != u.username && t[k].email != u.email
    {
    }
  }

  /** An update with only an email rewrites the email and leaves everything else as it was. */
  lemma EmailOnlyUpdate(t: Table<User>, id: int, email: string, encode: string -> string)
    requires id in t && !EmailHeldByOther(t, id, email)
    ensures var r := UpdateUser(t, id, NoChange.(email := Some(email)), encode);
            r.Ok? && r.value.row == t[id].(email := email)
  {
  }

  /** The username clash wins when both the username and the email are taken. */
  lemma UsernameCheckedFirst(t: Table<User>, u: User, encode: string -> string, now: Timestamp)
    requires UsernameInUse(t, u.username) && EmailInUse(t, u.email)
    ensures CreateUser(t, u, encode, now) == Err(UsernameTaken)
  {
  }

  /** A successfully created user can be found by its username, and only under its own id in a unique registry. */
  lemma CreatedIsFoundByUsername(t: Table<User>, u: User, encode: string -> string, now: Timestamp)
    requires Unique(t)
    ensures var r := CreateUser(t, u, encode, now);
            r.Ok? ==> HoldersOf(r.value.table, u.username) == {r.value.id}
  {
    var r := CreateUser(t, u, encode, now);
    if r.Ok? {
      CreateKeepsUnique(t, u, encode, now);
      AtMostOneHolder(r.value.table, u.username, r.value.id);
    }
  }
}
