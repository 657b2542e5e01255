/** The `usuarios` table as `login` reads it. `login` selects the rows with the
    given name and looks only at the first one the database returns; the
    query has no ORDER BY, so with duplicated names that row is not determined
    by the table, and the order the rows came back in is a parameter. */
module Credentials {
  import opened Values

  /** A row of `usuarios`. The `password_hash` column holds the password as given. */
  datatype User = User(id: nat, name: string, password: string)

  /** The field is present and non-empty: `not x` is false. */
  predicate Filled(x: Option<string>) {
    x.Some? && x.value != ""
  }

  /** `WHERE nombre = name`, in table order. */
  function NamedUsers(users: seq<User>, name: string): (r: seq<User>)
    ensures forall x :: x in r <==> x in users && x.name == name
  {
    if users == [] then []
    else
      var rest := NamedUsers(users[1..], name);
      assert users == [users[0]] + users[1..];
      if users[0].name == name then [users[0]] + rest else rest
  }

  /** The answer of `login`: the user id (200), or 400, 404 or 401. */
  datatype LoginResponse = LoggedIn(userId: nat) | MissingFields | UnknownUser | WrongPassword

  /** `login`: `rows` is the order in which the database returned the users with that name. */
  function Login(users: seq<User>, nombre: Option<string>, password: Option<string>, rows: seq<User>): (r: LoginResponse)
    requires Filled(nombre) && Filled(password) ==> multiset(rows) == multiset(NamedUsers(users, nombre.value))
    ensures r == MissingFields <==> !Filled(nombre) || !Filled(password)
    ensures r == UnknownUser <==>
      Filled(nombre) && Filled(password) && forall x :: x in users ==> x.name != nombre.value
    ensures r.WrongPassword? ==>
      && Filled(nombre) && Filled(password)
      && exists x :: x in users && x.name == nombre.value && x.password != password.value
    ensures r.LoggedIn? ==>
      && Filled(nombre) && Filled(password)
      && exists x :: x in users && x.id == r.userId && x.name == nombre.value && x.password == password.value
  {
    if !Filled(nombre) || !Filled(password) then MissingFields
    else
      var n := nombre.value;
      if rows == [] then
        assert multiset(NamedUsers(users, n)) == multiset{};
        UnknownUser
      else
        assert rows[0] in multiset(NamedUsers(users, n));
        if rows[0].password != password.value then WrongPassword
        else LoggedIn(rows[0].id)
  }

  /** No two users share a name. */
  predicate UniqueNames(users: seq<User>) {
    forall i, j :: 0 <= i < |users| && 0 <= j < |users| && users[i].name == users[j].name ==> i == j
  }

  lemma {:induction false} NamedUsersOfUnique(users: seq<User>, name: string)
    requires UniqueNames(users)
    ensures |NamedUsers(users, name)| <= 1
  {
    if users != [] {
      assert UniqueNames(users[1..]) by {
        forall i, j | 0 <= i < |users[1..]| && 0 <= j < |users[1..]| && users[1..][i].name == users[1..][j].name
          ensures i == j
        {
          assert users[1..][i] == users[i + 1] && users[1..][j] == users[j + 1];
        }
      }
      NamedUsersOfUnique(users[1..], name);
      if users[0].name == name {
        forall x | x in users[1..] ensures x.name != name {
          var k :| 0 <= k < |users[1..]| && users[1..][k] == x;
          assert x == users[k + 1];
        }
        NoneNamed(users[1..], name);
      }
    }
  }

  /** When names are unique, the order the database returns rows in cannot change the answer. */
  lemma LoginDeterminedWhenNamesUnique(users: seq<User>, nombre: Option<string>, password: Option<string>, rows1: seq<User>, rows2: seq<User>)
    requires UniqueNames(users) && Filled(nombre) && Filled(password)
    requires multiset(rows1) == multiset(NamedUsers(users, nombre.value))
    requires multiset(rows2) == multiset(NamedUsers(users, nombre.value))
    ensures Login(users, nombre, password, rows1) == Login(users, nombre, password, rows2)
  {
    var named := NamedUsers(users, nombre.value);
    NamedUsersOfUnique(users, nombre.value);
    assert |rows1| == |multiset(named)| == |rows2|;
    if rows1 != [] {
      assert rows1[0] in multiset(rows2);
    }
  }

  /** Two users with the same name and different passwords: depending on the
      order the rows come back in, the same request logs in or is refused. */
  lemma LoginAmbiguousWithDuplicateNames(a: User, b: User)
    requires a.name == b.name && a.name != "" && a.password != b.password && a.password != ""
    ensures NamedUsers([a, b], a.name) == [a, b] && multiset([b, a]) == multiset([a, b])
    ensures Login([a, b], Some(a.name), Some(a.password), [a, b]) == LoggedIn(a.id)
    ensures Login([a, b], Some(a.name), Some(a.password), [b, a]) == WrongPassword
  {
    assert NamedUsers([a, b], a.name) == [a, b] by {
      assert [b][1..] == [];
      assert NamedUsers([b], a.name) == [b] + NamedUsers([], a.name);
      assert [a, b][1..] == [b];
      assert NamedUsers([a, b], a.name) == [a] + NamedUsers([b], a.name);
    }
    assert multiset([b, a]) == multiset([a, b]);
  }

  /** A user registered under a new name can log in with that password and
      is refused with any other. */
  lemma RegisterThenLogin(users: seq<User>, u: User, given: string, rows: seq<User>)
    requires forall x :: x in users ==> x.name != u.name
    requires u.name != "" && u.password != "" && given != ""
    requires multiset(rows) == multiset(NamedUsers(users + [u], u.name))
    ensures given == u.password ==> Login(users + [u], Some(u.name), Some(given), rows) == LoggedIn(u.id)
    ensures given != u.password ==> Login(users + [u], Some(u.name), Some(given), rows) == WrongPassword
  {
    NamedUsersAppend(users, u, u.name);
    NoneNamed(users, u.name);
    assert NamedUsers(users + [u], u.name) == [u];
    assert rows == [u] by {
      assert |rows| == |multiset([u])| == 1;
      assert rows[0] in multiset([u]);
    }
  }

  lemma {:induction false} NoneNamed(users: seq<User>, name: string)
    requires forall x :: x in users ==> x.name != name
    ensures NamedUsers(users, name) == []
  {
    if users != [] {
      assert users[0] in users;
      NoneNamed(users[1..], name);
    }
  }

  /** Selecting from a table with one more row. */
  lemma {:induction false} NamedUsersAppend(users: seq<User>, u: User, name: string)
    ensures NamedUsers(users + [u], name) == NamedUsers(users, name) + (if u.name == name then [u] else [])
  {
    if users == [] {
      assert [] + [u] == [u];
      assert [u][1..] == [];
    } else {
      assert (users + [u])[1..] == users[1..] + [u];
      NamedUsersAppend(users[1..], u, name);
    }
  }
}
