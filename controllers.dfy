/** Controllers/JwtAuthController.cs: the credential check, the token
    endpoint, the claim read-outs, the role table's read and update, and the
    role gate the [Authorize] attributes put in front of them. */
module Controllers {
  import opened Runtime
  import opened Models
  import opened FakeDb
  import opened Jwt

  // ---------------------------------------------------------------------
  // The LINQ queries, as scans over the lists.

  /** Users.Any(item => item == user), with record equality. */
  function AnyEqual(users: seq<UserDto>, user: UserDto): (r: bool)
    ensures r <==> exists i :: 0 <= i < |users| && users[i].username == user.username && users[i].password == user.password
  {
    if users == [] then false else users[0] == user || AnyEqual(users[1..], user)
  }

  /** How many rows have a given Username, and where the one is if there is
      one: what Single and SingleOrDefault decide on. */
  datatype Match = NoMatch | Unique(index: nat) | Several

  /** Row `k` is the one and only row with Username `name`. */
  ghost predicate UniqueRow(rows: seq<AuthRecord>, name: string, k: int)
  {
    0 <= k < |rows| && rows[k].username == name &&
    forall j :: 0 <= j < |rows| && j != k ==> rows[j].username != name
  }

  /** Two different rows have Username `name`. */
  ghost predicate SeveralRows(rows: seq<AuthRecord>, name: string)
  {
    exists i, j :: 0 <= i < j < |rows| && rows[i].username == name && rows[j].username == name
  }

  /** The scan behind Single(w => w.Username == name) and SingleOrDefault. */
  function MatchUsername(rows: seq<AuthRecord>, name: string): (r: Match)
    ensures r.NoMatch? <==> !HasRow(rows, name)
    ensures r.Unique? ==> UniqueRow(rows, name, r.index)
    ensures r.Several? <==> SeveralRows(rows, name)
  {
    if rows == [] then NoMatch
    else
      match MatchUsername(rows[1..], name)
      case NoMatch => if rows[0].username == name then Unique(0) else NoMatch
      case Unique(k) =>
        assert rows[k + 1] == rows[1..][k];
        if rows[0].username == name then Several else Unique(k + 1)
      case Several =>
        assert forall i :: 0 <= i < |rows| - 1 ==> rows[1..][i] == rows[i + 1];
        Several
  }

  /** The lookup only looks at the Usernames. */
  lemma {:induction false} MatchUsesNamesOnly(a: seq<AuthRecord>, b: seq<AuthRecord>, name: string)
    requires |a| == |b| && forall i :: 0 <= i < |a| ==> a[i].username == b[i].username
    ensures MatchUsername(a, name) == MatchUsername(b, name)
  {
    if a != [] {
      MatchUsesNamesOnly(a[1..], b[1..], name);
    }
  }

  /** On a table without repeated Usernames the lookup never finds several. */
  lemma DistinctNamesMatchAtMostOne(rows: seq<AuthRecord>, name: string)
    requires DistinctRowNames(rows)
    ensures !MatchUsername(rows, name).Several?
  {
  }

  /** FirstOrDefault(p => p.Type == claimType). */
  function FirstOfType(claims: seq<Claim>, claimType: string): (r: Option<Claim>)
    ensures r.None? <==> forall i :: 0 <= i < |claims| ==> claims[i].claimType != claimType
    ensures r.Some? ==> exists i :: 0 <= i < |claims| && claims[i] == r.value && claims[i].claimType == claimType &&
                           forall j :: 0 <= j < i ==> claims[j].claimType != claimType
  {
    if claims == [] then None
    else if claims[0].claimType == claimType then Some(claims[0])
    else
      var r := FirstOfType(claims[1..], claimType);
      assert forall i :: 0 <= i < |claims| - 1 ==> claims[1..][i] == claims[i + 1];
      r
  }

  /** Claims.ToDictionary(k => k.Type, v => v.Value): throws on a repeated type. */
  function ClaimsDictionary(claims: seq<Claim>): (r: Result<map<string, string>>)
    ensures r.Failure? <==> exists i, j :: 0 <= i < j < |claims| && claims[i].claimType == claims[j].claimType
    ensures r.Failure? ==> r.error == DuplicateKey
    ensures r.Success? ==> r.value.Keys == (set i | 0 <= i < |claims| :: claims[i].claimType)
    ensures r.Success? ==> forall i :: 0 <= i < |claims| ==> r.value[claims[i].claimType] == claims[i].value
  {
    if claims == [] then Success(map[])
    else
      var rest := ClaimsDictionary(claims[1..]);
      assert forall i :: 0 <= i < |claims| - 1 ==> claims[1..][i] == claims[i + 1];
      if rest.Failure? then rest
      else if claims[0].claimType in rest.value then
        assert exists i :: 1 <= i < |claims| && claims[i].claimType == claims[0].claimType;
        Failure(DuplicateKey)
      else
        assert (set i | 0 <= i < |claims| :: claims[i].claimType) ==
               {claims[0].claimType} + (set i | 0 <= i < |claims| - 1 :: claims[1..][i].claimType);
        Success(rest.value[claims[0].claimType := claims[0].value])
  }

  // ---------------------------------------------------------------------
  // The role table's update, as a specification.

  /** The table with row k's Auth replaced by `role`. */
  function AssignRole(rows: seq<AuthRecord>, k: nat, role: string): (r: seq<AuthRecord>)
    requires k < |rows|
    ensures |r| == |rows|
    ensures forall i :: 0 <= i < |rows| ==> r[i].username == rows[i].username
    ensures r[k].auth == role
    ensures forall i :: 0 <= i < |rows| && i != k ==> r[i] == rows[i]
  {
    rows[k := AuthRecord(rows[k].username, role)]
  }

  /** An action's response. */
  datatype ActionResult =
    | Ok                                   // 200, empty body
    | OkToken(token: TokenDescriptor)      // 200, the serialized token
    | OkText(text: string)                 // 200, a string
    | OkClaims(claims: map<string, string>) // 200, the claim dictionary
    | OkAuths(auths: seq<AuthRecord>)      // 200, the role table
    | BadRequest                           // 400
    | Unauthorized                         // 401, the authentication challenge
    | Forbidden                            // 403
    | Threw(error: Exception)              // an unhandled exception

  /** What SetAuth does to the table `before`, giving `after` and response `r`:
      SingleOrDefault finds no row (BadRequest), several rows (it throws), or
      the one row, whose Auth alone is overwritten (Ok). */
  ghost predicate SetAuthSpec(before: seq<AuthRecord>, dto: AuthRecord, after: seq<AuthRecord>, r: ActionResult): (b: bool)
    ensures b ==> r == Ok || r == BadRequest || r == Threw(MoreThanOneMatch)
    ensures b ==> (r == Ok <==> HasRow(before, dto.username) && !SeveralRows(before, dto.username))
  {
    match MatchUsername(before, dto.username)
    case NoMatch => r == BadRequest && after == before
    case Several => r == Threw(MoreThanOneMatch) && after == before
    case Unique(k) => r == Ok && after == AssignRole(before, k, dto.auth)
  }

  /** SetAuth never inserts or reorders: the length and every Username stay,
      and only the target's row can change, to the new Auth. */
  lemma SetAuthKeepsShape(before: seq<AuthRecord>, dto: AuthRecord, after: seq<AuthRecord>, r: ActionResult)
    requires SetAuthSpec(before, dto, after, r)
    ensures |after| == |before|
    ensures forall i :: 0 <= i < |before| ==> after[i].username == before[i].username
    ensures forall i :: 0 <= i < |before| && after[i] != before[i] ==> before[i].username == dto.username && after[i].auth == dto.auth
  {
  }

  /** On an existing Username: Ok, and that row now holds the new Auth. */
  lemma SetAuthOnKnownUser(before: seq<AuthRecord>, dto: AuthRecord, after: seq<AuthRecord>, r: ActionResult, k: nat)
    requires SetAuthSpec(before, dto, after, r) && UniqueRow(before, dto.username, k)
    ensures r == Ok
    ensures after[k] == AuthRecord(dto.username, dto.auth)
    ensures forall i :: 0 <= i < |before| && i != k ==> after[i] == before[i]
  {
    var m := MatchUsername(before, dto.username);
    assert m.Unique? && m.index == k;
  }

  /** On an unknown Username: BadRequest, and the table is untouched. */
  lemma SetAuthOnUnknownUser(before: seq<AuthRecord>, dto: AuthRecord, after: seq<AuthRecord>, r: ActionResult)
    requires SetAuthSpec(before, dto, after, r) && !HasRow(before, dto.username)
    ensures r == BadRequest && after == before
  {
  }

  /** SetAuth keeps every Username's lookup result, and a table without
      repeated Usernames stays so. */
  lemma SetAuthKeepsLookups(before: seq<AuthRecord>, dto: AuthRecord, after: seq<AuthRecord>, r: ActionResult, name: string)
    requires SetAuthSpec(before, dto, after, r)
    ensures MatchUsername(after, name) == MatchUsername(before, name)
    ensures DistinctRowNames(before) ==> DistinctRowNames(after)
  {
    SetAuthKeepsShape(before, dto, after, r);
    MatchUsesNamesOnly(after, before, name);
  }

  // ---------------------------------------------------------------------
  // The role gate.

  /** The controller's routes. */
  datatype Route = SignInRoute | ClaimsRoute | UserNameRoute | UserRoleRoute | JwtIdRoute | GetAuthsRoute | SetAuthRoute

  /** What a route's attributes demand of the caller. */
  datatype Requirement = Anyone | AnyAuthenticated | InRole(role: string)

  /** [Authorize] on the class, [AllowAnonymous] on SignIn, and
      [Authorize(Roles = "Admin")] on GetAuths and SetAuth. */
  function RequirementOf(route: Route): (r: Requirement)
    ensures r == Anyone <==> route == SignInRoute
    ensures r.InRole? <==> route == GetAuthsRoute || route == SetAuthRoute
    ensures r.InRole? ==> r.role == "Admin"
  {
    match route
    case SignInRoute => Anyone
    case GetAuthsRoute => InRole("Admin")
    case SetAuthRoute => InRole("Admin")
    case _ => AnyAuthenticated
  }

  /** The caller: no token, or the claims of a token the bearer handler trusted. */
  datatype Caller = Anonymous | Bearer(claims: seq<Claim>)

  /** ClaimsPrincipal.IsInRole: some claim of the role claim type has exactly this value. */
  function IsInRole(claims: seq<Claim>, role: string): (r: bool)
    ensures r <==> exists i :: 0 <= i < |claims| && claims[i].claimType == RoleClaimType && claims[i].value == role
  {
    if claims == [] then false
    else (claims[0].claimType == RoleClaimType && claims[0].value == role) || IsInRole(claims[1..], role)
  }

  datatype Decision = Allow | Challenge | Forbid

  /** The authorization middleware: an anonymous caller is challenged where
      any authentication is needed, an authenticated one outside the role is
      forbidden. */
  function Authorize(req: Requirement, caller: Caller): (r: Decision)
    ensures r == Challenge <==> !req.Anyone? && caller.Anonymous?
    ensures r == Forbid <==> req.InRole? && caller.Bearer? && !IsInRole(caller.claims, req.role)
  {
    match req
    case Anyone => Allow
    case AnyAuthenticated => if caller.Anonymous? then Challenge else Allow
    case InRole(role) =>
      if caller.Anonymous? then Challenge
      else if IsInRole(caller.claims, role) then Allow
      else Forbid
  }

  /** SignIn is the only route open to a caller without a token. */
  lemma OnlySignInIsAnonymous(route: Route)
    ensures Authorize(RequirementOf(route), Anonymous) == Allow <==> route == SignInRoute
  {
  }

  /** GetAuths and SetAuth run exactly for a caller holding a role claim that
      is "Admin", letter for letter. */
  lemma AdminRoutes(route: Route, caller: Caller)
    requires route == GetAuthsRoute || route == SetAuthRoute
    ensures Authorize(RequirementOf(route), caller) == Allow <==>
      caller.Bearer? && exists i :: 0 <= i < |caller.claims| && caller.claims[i] == Claim(RoleClaimType, "Admin")
  {
  }

  /** Every other route needs just a token. */
  lemma AuthenticatedRoutes(route: Route, caller: Caller)
    requires route != SignInRoute && route != GetAuthsRoute && route != SetAuthRoute
    ensures Authorize(RequirementOf(route), caller) == Allow <==> caller.Bearer?
  {
  }

  /** An example of the case-sensitive comparison that IsInRole and
      AdminRoutes state in general: "admin" is not "Admin". */
  lemma RoleComparisonIsExact()
    ensures Authorize(InRole("Admin"), Bearer([Claim(RoleClaimType, "admin")])) == Forbid
  {
    assert !IsInRole([Claim(RoleClaimType, "admin")], "Admin");
  }

  /** A token this service issued passes the Admin gate exactly when the
      record it was issued for says "Admin". */
  lemma IssuedTokenAtAdminGate(s: JwtSettings, auth: AuthRecord, jti: string, now: int)
    ensures Authorize(InRole("Admin"), Bearer(Issue(s, auth, jti, now).claims)) == Allow <==> auth.auth == "Admin"
  {
    IssuedRoleClaims(s, auth, jti, now);
    var claims := Issue(s, auth, jti, now).claims;
    if auth.auth == "Admin" {
      assert claims[3] == Claim(RoleClaimType, "Admin");
    }
  }

  // ---------------------------------------------------------------------
  // The controller.

  /** A request as routed to the controller, with its body. */
  datatype Request =
    | SignInRequest(form: UserForm)
    | ClaimsRequest
    | UserRoleRequest
    | JwtIdRequest
    | GetAuthsRequest
    | SetAuthRequest(dto: AuthRecord)

  function RouteOf(req: Request): Route
  {
    match req
    case SignInRequest(_) => SignInRoute
    case ClaimsRequest => ClaimsRoute
    case UserRoleRequest => UserRoleRoute
    case JwtIdRequest => JwtIdRoute
    case GetAuthsRequest => GetAuthsRoute
    case SetAuthRequest(_) => SetAuthRoute
  }

  class JwtAuthController {
    const db: FakeDbContext
    const helper: JwtHelper

    constructor (db: FakeDbContext, helper: JwtHelper)
      ensures this.db == db && this.helper == helper
    {
      this.db := db;
      this.helper := helper;
    }

    /** ValidateUser: null (Success(None)) unless the credential equals a
        stored one; then Single on the Username, which throws unless exactly
        one role row has it. */
    function ValidateUser(user: UserDto): (r: Result<Option<AuthRecord>>)
      reads db, db.auths
      ensures r == Success(None) <==> user !in db.users
      ensures r == Failure(NoMatchingElement) <==> user in db.users && !HasRow(db.Rows(), user.username)
      ensures r == Failure(MoreThanOneMatch) <==> user in db.users && SeveralRows(db.Rows(), user.username)
      ensures r.Success? && r.value.Some? ==>
        user in db.users && exists k :: UniqueRow(db.Rows(), user.username, k) && db.Rows()[k] == r.value.value
      ensures r.Success? || r.error == NoMatchingElement || r.error == MoreThanOneMatch
    {
      if AnyEqual(db.users, user) then
        match MatchUsername(db.Rows(), user.username)
        case NoMatch => Failure(NoMatchingElement)
        case Several => Failure(MoreThanOneMatch)
        case Unique(k) => Success(Some(db.Rows()[k]))
      else
        assert forall i :: 0 <= i < |db.users| ==> db.users[i] != user;
        Success(None)
    }

    /** SignIn: a token for the matched role row, BadRequest when nothing
        matches, or the exception of ValidateUser or GenerateToken. No field
        of the store is written (the method modifies nothing). */
    method SignIn(user: UserDto, jti: string, now: int) returns (r: ActionResult)
      ensures r == BadRequest <==> user !in db.users
      ensures user in db.users && !HasRow(db.Rows(), user.username) ==> r == Threw(NoMatchingElement)
      ensures user in db.users && SeveralRows(db.Rows(), user.username) ==> r == Threw(MoreThanOneMatch)
      ensures forall k :: user in db.users && UniqueRow(db.Rows(), user.username, k) ==>
        var g := helper.GenerateToken(db.Rows()[k], jti, now);
        r == if g.Success? then OkToken(g.value) else Threw(g.error)
      ensures r.OkToken? ==>
        && helper.settings.Some?
        && exists k :: UniqueRow(db.Rows(), user.username, k) && r.token == Issue(helper.settings.value, db.Rows()[k], jti, now)
    {
      var authDto := ValidateUser(user);
      if authDto.Failure? {
        r := Threw(authDto.error);
      } else if authDto.value.Some? {
        var token := helper.GenerateToken(authDto.value.value, jti, now);
        r := if token.Success? then OkToken(token.value) else Threw(token.error);
      } else {
        r := BadRequest;
      }
    }

    /** GetClaims: the claims as a dictionary from type to value. */
    function GetClaims(claims: seq<Claim>): (r: ActionResult)
      ensures r.OkClaims? || r == Threw(DuplicateKey)
      ensures r.OkClaims? <==> forall i, j :: 0 <= i < j < |claims| ==> claims[i].claimType != claims[j].claimType
      ensures r.OkClaims? ==> r.claims.Keys == (set i | 0 <= i < |claims| :: claims[i].claimType)
      ensures r.OkClaims? ==> forall i :: 0 <= i < |claims| ==> claims[i].claimType in r.claims && r.claims[claims[i].claimType] == claims[i].value
    {
      var d := ClaimsDictionary(claims);
      if d.Success? then OkClaims(d.value) else Threw(d.error)
    }

    /** GetUserRole: the first role claim's value; without one, reading
        .Value through null throws. */
    function GetUserRole(claims: seq<Claim>): (r: ActionResult)
      ensures r.OkText? || r == Threw(NullReference)
      ensures r.Threw? <==> forall i :: 0 <= i < |claims| ==> claims[i].claimType != RoleClaimType
      ensures r.OkText? ==> exists i :: 0 <= i < |claims| && claims[i] == Claim(RoleClaimType, r.text) &&
                              forall j :: 0 <= j < i ==> claims[j].claimType != RoleClaimType
    {
      var c := FirstOfType(claims, RoleClaimType);
      if c.Some? then OkText(c.value.value) else Threw(NullReference)
    }

    /** GetUniqueId: the first jti claim's value, or the null dereference. */
    function GetUniqueId(claims: seq<Claim>): (r: ActionResult)
      ensures r.OkText? || r == Threw(NullReference)
      ensures r.Threw? <==> forall i :: 0 <= i < |claims| ==> claims[i].claimType != Jti
      ensures r.OkText? ==> exists i :: 0 <= i < |claims| && claims[i] == Claim(Jti, r.text) &&
                              forall j :: 0 <= j < i ==> claims[j].claimType != Jti
    {
      var c := FirstOfType(claims, Jti);
      if c.Some? then OkText(c.value.value) else Threw(NullReference)
    }

    /** GetAuths: the whole role table, in order. */
    method GetAuths() returns (r: ActionResult)
      ensures r == OkAuths(db.Rows())
    {
      r := OkAuths(db.Rows());
    }

    /** SetAuth: overwrites the Auth of the one stored object with the given
        Username; nothing else in the store changes. */
    method SetAuth(dto: AuthRecord) returns (r: ActionResult)
      modifies db.auths
      ensures db.users == old(db.users) && db.auths == old(db.auths)
      ensures SetAuthSpec(old(db.Rows()), dto, db.Rows(), r)
    {
      var m := MatchUsername(db.Rows(), dto.username);
      match m
      case NoMatch =>
        r := BadRequest;
      case Several =>
        r := Threw(MoreThanOneMatch);
      case Unique(k) =>
        ghost var before := db.Rows();
        var authInDb := db.auths[k];
        assert forall i :: 0 <= i < |db.auths| && i != k ==> db.auths[i] != authInDb by {
          forall i | 0 <= i < |db.auths| && i != k ensures db.auths[i] != authInDb {
            assert before[i].username != dto.username;
          }
        }
        authInDb.auth := dto.auth;
        r := Ok;
        assert db.Rows() == AssignRole(before, k, dto.auth);
    }

    /** A request through the gate and then into its action. */
    method Handle(caller: Caller, req: Request, jti: string, now: int) returns (r: ActionResult)
      modifies db.auths
      ensures db.users == old(db.users) && db.auths == old(db.auths)
      ensures Authorize(RequirementOf(RouteOf(req)), caller) == Challenge ==> r == Unauthorized
      ensures Authorize(RequirementOf(RouteOf(req)), caller) == Forbid ==> r == Forbidden
      ensures !(req.SetAuthRequest? && Authorize(RequirementOf(SetAuthRoute), caller) == Allow) ==> db.Rows() == old(db.Rows())
      ensures req.SetAuthRequest? && Authorize(RequirementOf(SetAuthRoute), caller) == Allow ==>
        SetAuthSpec(old(db.Rows()), req.dto, db.Rows(), r)
      ensures req.SignInRequest? && BindUserDto(req.form).None? ==> r == BadRequest
      ensures req.SignInRequest? && BindUserDto(req.form).Some? && BindUserDto(req.form).value !in db.users ==> r == BadRequest
    {
      var decision := Authorize(RequirementOf(RouteOf(req)), caller);
      if decision == Challenge {
        r := Unauthorized;
      } else if decision == Forbid {
        r := Forbidden;
      } else {
        match req
        case SignInRequest(form) =>
          var user := BindUserDto(form);
          if user.None? {
            r := BadRequest;
          } else {
            r := SignIn(user.value, jti, now);
          }
        case ClaimsRequest =>
          r := GetClaims(caller.claims);
        case UserRoleRequest =>
          r := GetUserRole(caller.claims);
        case JwtIdRequest =>
          r := GetUniqueId(caller.claims);
        case GetAuthsRequest =>
          r := GetAuths();
        case SetAuthRequest(dto) =>
          r := SetAuth(dto);
      }
    }
  }
}
