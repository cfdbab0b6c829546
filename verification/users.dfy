/**
 * The user entity and the uniqueness rules the user registry keeps:
 * no two stored users share a username, and none share an email.
 */
module Users {
  import opened Wrappers
  import opened Store

  const NotFound: string := "Пользователь не найден"
  const UsernameTaken: string := "Пользователь с таким именем уже существует"
  const EmailTaken: string := "Пользователь с таким email уже существует"

  /** A stored user row. `passwordHash` holds what the encoder produced, never the submitted password. */
  datatype User = User(
    username: string,
    passwordHash: string,
    role: string,
    email: string,
    phone: Option<string>,
    createdAt: Option<Timestamp>)

  /**
   * The details handed to `updateUser`: a null field leaves the stored one
   * alone; `password` is the raw password the client typed.
   */
  datatype UserPatch = UserPatch(
    username: Option<string>,
    password: Option<string>,
    role: Option<string>,
    email: Option<string>,
    phone: Option<string>)

  const NoChange: UserPatch := UserPatch(None, None, None, None, None)

  /** `findByUsername(name).isPresent()`. */
  predicate UsernameInUse(t: Table<User>, name: string) {
    exists k | k in t :: t[k].username == name
  }

  /** `findByEmail(email).isPresent()`. */
  predicate EmailInUse(t: Table<User>, email: string) {
    exists k | k in t :: t[k].email == email
  }

  /** A user other than `id` holds the username: the lookup finds a row whose id differs. */
  predicate UsernameHeldByOther(t: Table<User>, id: int, name: string) {
    exists k | k in t && k != id :: t[k].username == name
  }

  /** A user other than `id` holds the email. */
  predicate EmailHeldByOther(t: Table<User>, id: int, email: string) {
    exists k | k in t && k != id :: t[k].email == email
  }

  /** The registry invariant of the `unique = true` username and email columns. */
  predicate Unique(t: Table<User>) {
    forall i, j | i in t && j in t && i != j :: t[i].username != t[j].username && t[i].email != t[j].email
  }

  /** The ids that hold a username: at most one in a registry that keeps the invariant. */
  function HoldersOf(t: Table<User>, name: string): (ids: set<int>)
    ensures forall k | k in ids :: k in t && t[k].username == name
    ensures forall k | k in t && t[k].username == name :: k in ids
  {
    set k | k in t && t[k].username == name
  }

  lemma AtMostOneHolder(t: Table<User>, name: string, k: int)
    requires Unique(t) && k in t && t[k].username == name
    ensures HoldersOf(t, name) == {k}
  {
    forall j | j in HoldersOf(t, name)
      ensures j == k
    {
      assert t[j].username == t[k].username;
    }
  }
}
