/** FakeDbContext.cs: the in-memory credential list and role table. */
module FakeDb {
  import opened Models

  /** The credential list the constructor installs. */
  function InitialUsers(): seq<UserDto>
  {
    [UserDto("jay", "Foo-Pw"), UserDto("alan", "Foo-Pw"), UserDto("albert", "Foo-Pw")]
  }

  /** The role table the constructor installs, as values. */
  function InitialAuths(): seq<AuthRecord>
  {
    [AuthRecord("jack", "Admin"), AuthRecord("albert", "User"), AuthRecord("alan", "User")]
  }

  /** The values held by a list of AuthDto objects, in list order. */
  function RowsOf(s: seq<AuthDto>): (r: seq<AuthRecord>)
    reads s
    ensures |r| == |s|
    ensures forall i :: 0 <= i < |s| ==> r[i] == AuthRecord(s[i].username, s[i].auth)
  {
    if s == [] then [] else [AuthRecord(s[0].username, s[0].auth)] + RowsOf(s[1..])
  }

  class FakeDbContext {
    var users: seq<UserDto>
    var auths: seq<AuthDto>

    /** The role table as values. */
    function Rows(): (r: seq<AuthRecord>)
      reads this, auths
      ensures |r| == |auths|
      ensures forall i :: 0 <= i < |auths| ==> r[i] == AuthRecord(auths[i].username, auths[i].auth)
    {
      RowsOf(auths)
    }

    constructor ()
      ensures users == InitialUsers()
      ensures Rows() == InitialAuths()
      ensures forall i :: 0 <= i < |auths| ==> fresh(auths[i])
    {
      users := InitialUsers();
      var jack := new AuthDto("jack", "Admin");
      var albert := new AuthDto("albert", "User");
      var alan := new AuthDto("alan", "User");
      auths := [jack, albert, alan];
    }
  }

  /** No two role rows share a Username. */
  ghost predicate DistinctRowNames(rows: seq<AuthRecord>)
  {
    forall i, j :: 0 <= i < j < |rows| ==> rows[i].username != rows[j].username
  }

  /** No two credentials share a Username. */
  ghost predicate DistinctUserNames(users: seq<UserDto>)
  {
    forall i, j :: 0 <= i < j < |users| ==> users[i].username != users[j].username
  }

  /** Some credential has this Username. */
  ghost predicate HasCredential(users: seq<UserDto>, name: string)
  {
    exists i :: 0 <= i < |users| && users[i].username == name
  }

  /** Some role row has this Username. */
  ghost predicate HasRow(rows: seq<AuthRecord>, name: string)
  {
    exists i :: 0 <= i < |rows| && rows[i].username == name
  }

  /** No role row of a user who holds a credential says "Admin". */
  ghost predicate NoAdminCredential(users: seq<UserDto>, rows: seq<AuthRecord>)
  {
    forall i, j :: 0 <= i < |users| && 0 <= j < |rows| && users[i].username == rows[j].username ==> rows[j].auth != "Admin"
  }

  lemma InitialUsersShape()
    ensures |InitialUsers()| == 3
    ensures forall i :: 0 <= i < 3 ==> InitialUsers()[i].password == "Foo-Pw"
    ensures InitialUsers()[0].username == "jay" && InitialUsers()[1].username == "alan" && InitialUsers()[2].username == "albert"
  {
  }

  lemma InitialTablesDistinct()
    ensures DistinctRowNames(InitialAuths())
    ensures DistinctUserNames(InitialUsers())
  {
  }

  /** "jay" can sign in but has no role row; "jack" has a role row and no credential. */
  lemma InitialTablesDisagree()
    ensures HasCredential(InitialUsers(), "jay") && !HasRow(InitialAuths(), "jay")
    ensures HasRow(InitialAuths(), "jack") && !HasCredential(InitialUsers(), "jack")
  {
    assert InitialUsers()[0].username == "jay";
    assert InitialAuths()[0].username == "jack";
  }

  lemma InitialNoAdminCredential()
    ensures NoAdminCredential(InitialUsers(), InitialAuths())
  {
  }
}
