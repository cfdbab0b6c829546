/**
 * `UserDetailsServiceImpl`: the login lookup by username and the mapping of
 * the Russian role names onto a single `ROLE_` authority.
 */
module UserDetailsService {
  import opened Wrappers
  import opened Store
  import opened Users
  import opened Text
  import opened JavaString

  const Prefix: string := "ROLE_"

  /** What Spring Security receives: the stored username and hash, and the granted authorities. */
  datatype Details = Details(username: string, password: string, authorities: seq<string>)

  /** `getAuthorities`: upper-case the role, then translate the three Russian role words. */
  function Authority(role: string): (a: string)
    ensures StartsWith(a, Prefix)
  {
    var upper := ToUpper(role);
    var named := ReplaceAll(ReplaceAll(ReplaceAll(upper, "АДМИНИСТРАТОР", "ADMIN"), "МАСТЕР", "MASTER"), "КЛИЕНТ", "CLIENT");
    assert (Prefix + named)[..|Prefix|] == Prefix;
    Prefix + named
  }

  /** The singleton list `getAuthorities` returns. */
  function Authorities(role: string): (r: seq<string>)
    ensures |r| == 1 && r[0] == Authority(role)
  {
    [Authority(role)]
  }

  /** What Spring's `User` constructor throws, as `IllegalArgumentException`, for an empty username. */
  const EmptyValues: string := "Cannot pass null or empty values to constructor"

  /**
   * `loadUserByUsername`: "Пользователь не найден: " followed by the name when
   * no user has it; otherwise that user's username, hash and authority. A
   * stored empty username is found, but Spring's `User` refuses it.
   */
  function LoadUserByUsername(t: Table<User>, username: string): (r: Result<Details>)
    ensures r.Err? <==> !UsernameInUse(t, username) || username == []
    ensures r.Err? ==> r.message == if UsernameInUse(t, username) then EmptyValues
                                    else "Пользователь не найден: " + username
    ensures r.Ok? ==> exists k | k in t && t[k].username == username ::
                        r.value == Details(t[k].username, t[k].passwordHash, Authorities(t[k].role))
  {
    var holders := HoldersOf(t, username);
    if holders == {} then
      Err("Пользователь не найден: " + username)
    else
      var k := Least(holders);
      if t[k].username == [] then Err(EmptyValues)
      else Ok(Details(t[k].username, t[k].passwordHash, Authorities(t[k].role)))
  }

  /**
   * In a registry with unique usernames, the details are exactly those of the
   * one holder, unless its username is empty.
   */
  lemma LoadsTheHolder(t: Table<User>, k: int)
    requires Unique(t) && k in t
    ensures LoadUserByUsername(t, t[k].username)
            == if t[k].username == [] then Err(EmptyValues)
               else Ok(Details(t[k].username, t[k].passwordHash, Authorities(t[k].role)))
  {
    AtMostOneHolder(t, t[k].username, k);
  }

  /** Every authority is exactly one string, and it starts with "ROLE_". */
  lemma OneRoleAuthority(t: Table<User>, username: string)
    ensures var r := LoadUserByUsername(t, username);
            r.Ok? ==> |r.value.authorities| == 1 && StartsWith(r.value.authorities[0], Prefix)
  {
  }

  /** The three role names of the application. */
  lemma KnownRoles()
    ensures Authority("Администратор") == "ROLE_ADMIN"
    ensures Authority("Мастер") == "ROLE_MASTER"
    ensures Authority("Клиент") == "ROLE_CLIENT"
  {
    AdminRoleOf("Администратор");
    MasterRoleOf("Мастер");
    ClientRoleOf("Клиент");
  }

  /*
   * The three steps of `KnownRoles`, one replacement chain each; the literal
   * is passed in so that it is not unfolded together with the others.
   */

  lemma AdminRoleOf(role: string)
    requires role == "Администратор"
    ensures Authority(role) == "ROLE_ADMIN"
  {
    UpperOf(role, "АДМИНИСТРАТОР");
    ReplaceWhole("АДМИНИСТРАТОР", "ADMIN");
    assert ReplaceAll("ADMIN", "МАСТЕР", "MASTER") == "ADMIN";
    assert ReplaceAll("ADMIN", "КЛИЕНТ", "CLIENT") == "ADMIN";
  }

  lemma MasterRoleOf(role: string)
    requires role == "Мастер"
    ensures Authority(role) == "ROLE_MASTER"
  {
    assert ToUpper(role) == "МАСТЕР";
    assert ReplaceAll("МАСТЕР", "АДМИНИСТРАТОР", "ADMIN") == "МАСТЕР";
    ReplaceWhole("МАСТЕР", "MASTER");
    assert "MASTER"[..6] != "КЛИЕНТ";
    assert ReplaceAll("ASTER", "КЛИЕНТ", "CLIENT") == "ASTER";
    assert ReplaceAll("MASTER", "КЛИЕНТ", "CLIENT") == "MASTER";
  }

  lemma ClientRoleOf(role: string)
    requires role == "Клиент"
    ensures Authority(role) == "ROLE_CLIENT"
  {
    assert ToUpper(role) == "КЛИЕНТ";
    assert ReplaceAll("КЛИЕНТ", "АДМИНИСТРАТОР", "ADMIN") == "КЛИЕНТ";
    assert "КЛИЕНТ"[..6] != "МАСТЕР";
    assert ReplaceAll("ЛИЕНТ", "МАСТЕР", "MASTER") == "ЛИЕНТ";
    assert ReplaceAll("КЛИЕНТ", "МАСТЕР", "MASTER") == "КЛИЕНТ";
    ReplaceWhole("КЛИЕНТ", "CLIENT");
  }

  /** A role containing none of the three upper-cased words is only upper-cased. */
  lemma OtherRole(role: string)
    requires !Contains(ToUpper(role), "АДМИНИСТРАТОР")
    requires !Contains(ToUpper(role), "МАСТЕР")
    requires !Contains(ToUpper(role), "КЛИЕНТ")
    ensures Authority(role) == Prefix + ToUpper(role)
  {
    var upper := ToUpper(role);
    ReplaceAbsent(upper, "АДМИНИСТРАТОР", "ADMIN");
    ReplaceAbsent(upper, "МАСТЕР", "MASTER");
    ReplaceAbsent(upper, "КЛИЕНТ", "CLIENT");
  }
}
