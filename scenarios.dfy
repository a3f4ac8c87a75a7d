/** End-to-end runs over the initial store of FakeDbContext.cs. */
module Scenarios {
  import opened Runtime
  import opened Models
  import opened FakeDb
  import opened Jwt
  import opened Controllers

  /** With no credential holder whose row says "Admin" (true of the initial
      store), no token SignIn issues gets through the Admin gate. */
  lemma NoAdminTokenFromStore(c: JwtAuthController, user: UserDto, jti: string, now: int)
    requires NoAdminCredential(c.db.users, c.db.Rows())
    ensures var v := c.ValidateUser(user); v.Success? && v.value.Some? ==> v.value.value.auth != "Admin"
    ensures c.helper.settings.Some? ==>
      var v := c.ValidateUser(user);
      v.Success? && v.value.Some? ==>
        Authorize(RequirementOf(SetAuthRoute), Bearer(Issue(c.helper.settings.value, v.value.value, jti, now).claims)) == Forbid
  {
    var v := c.ValidateUser(user);
    if v.Success? && v.value.Some? {
      var k :| UniqueRow(c.db.Rows(), user.username, k) && c.db.Rows()[k] == v.value.value;
      var i :| 0 <= i < |c.db.users| && c.db.users[i] == user;
      assert c.db.users[i].username == c.db.Rows()[k].username;
      if c.helper.settings.Some? {
        IssuedTokenAtAdminGate(c.helper.settings.value, v.value.value, jti, now);
      }
    }
  }

  /** One step of ToDictionary: a claim whose type the rest does not use is
      added in front of the rest's dictionary. */
  lemma DictionaryStep(claims: seq<Claim>, m: map<string, string>)
    requires |claims| > 0 && ClaimsDictionary(claims[1..]) == Success(m) && claims[0].claimType !in m
    ensures ClaimsDictionary(claims) == Success(m[claims[0].claimType := claims[0].value])
  {
  }

  /** GetClaims on four claims of distinct types keys each value by its type. */
  lemma FourClaimsDictionary(c: JwtAuthController, claims: seq<Claim>, t0: string, t1: string, t2: string, t3: string,
                             v0: string, v1: string, v2: string, v3: string)
    requires claims == [Claim(t0, v0), Claim(t1, v1), Claim(t2, v2), Claim(t3, v3)]
    requires t0 != t1 && t0 != t2 && t0 != t3 && t1 != t2 && t1 != t3 && t2 != t3
    ensures c.GetClaims(claims) == OkClaims(map[t0 := v0, t1 := v1, t2 := v2, t3 := v3])
  {
    // ToDictionary built from the last claim back to the first.
    assert claims[3..][1..] == [] && claims[2..][1..] == claims[3..] && claims[1..][1..] == claims[2..];
    DictionaryStep(claims[3..], map[]);
    var m3 := map[t3 := v3];
    DictionaryStep(claims[2..], m3);
    var m2 := m3[t2 := v2];
    DictionaryStep(claims[1..], m2);
    var m1 := m2[t1 := v1];
    DictionaryStep(claims, m1);
    assert m1[t0 := v0] == map[t0 := v0, t1 := v1, t2 := v2, t3 := v3];
  }

  /** Read back from the claims of an issued token, GetUserRole gives the
      record's role, GetUniqueId the token id, and GetClaims the four claims
      keyed by type (their types are distinct, so ToDictionary does not throw). */
  lemma IssuedTokenReadOuts(c: JwtAuthController, s: JwtSettings, auth: AuthRecord, jti: string, now: int)
    ensures var claims := Issue(s, auth, jti, now).claims;
      && c.GetUserRole(claims) == OkText(auth.auth)
      && c.GetUniqueId(claims) == OkText(jti)
      && c.GetClaims(claims) == OkClaims(map[Iss := s.issuer, Sub := auth.username, Jti := jti, RoleClaimType := auth.auth])
  {
    var claims := Issue(s, auth, jti, now).claims;
    assert claims == [Claim(Iss, s.issuer), Claim(Sub, auth.username), Claim(Jti, jti), Claim(RoleClaimType, auth.auth)];
    var role := c.GetUserRole(claims);
    assert !role.Threw? by { assert claims[3].claimType == RoleClaimType; }
    var k :| 0 <= k < |claims| && claims[k] == Claim(RoleClaimType, role.text) &&
             forall j :: 0 <= j < k ==> claims[j].claimType != RoleClaimType;
    assert k == 3 by { assert claims[0].claimType != RoleClaimType && claims[1].claimType != RoleClaimType && claims[2].claimType != RoleClaimType; }
    var id := c.GetUniqueId(claims);
    assert !id.Threw? by { assert claims[2].claimType == Jti; }
    var m :| 0 <= m < |claims| && claims[m] == Claim(Jti, id.text) &&
             forall j :: 0 <= j < m ==> claims[j].claimType != Jti;
    assert m == 2 by { assert claims[0].claimType != Jti && claims[1].claimType != Jti && claims[2].claimType == Jti; }
    FourClaimsDictionary(c, claims, Iss, Sub, Jti, RoleClaimType, s.issuer, auth.username, jti, auth.auth);
  }

  /** A controller over a fresh store and a helper holding `settings`, on a
      host `utcOffset` seconds ahead of UTC. */
  method NewController(settings: JwtSettings, utcOffset: int) returns (c: JwtAuthController)
    ensures fresh(c) && fresh(c.db) && fresh(c.helper)
    ensures forall i :: 0 <= i < |c.db.auths| ==> fresh(c.db.auths[i])
    ensures c.db.users == InitialUsers() && c.db.Rows() == InitialAuths()
    ensures c.helper.settings == Some(settings) && c.helper.utcOffset == utcOffset
  {
    var db := new FakeDbContext();
    var helper := new JwtHelper(None, Some(settings), utcOffset);
    c := new JwtAuthController(db, helper);
  }

  /** alan signs in while his row, the third, says `role`. */
  method SignInAlan(c: JwtAuthController, settings: JwtSettings, role: string, jti: string, now: int) returns (r: ActionResult)
    requires |settings.signKey| >= 16 && c.helper.settings == Some(settings)
    requires c.helper.utcOffset + settings.expireMinutes * SecondsPerMinute > 0
    requires c.db.users == InitialUsers()
    requires UniqueRow(c.db.Rows(), "alan", 2) && c.db.Rows()[2].auth == role
    ensures r == OkToken(Issue(settings, AuthRecord("alan", role), jti, now))
  {
    SixteenCharactersSuffice(c.helper, AuthRecord("alan", role), jti, now);
    assert c.db.users[1] == UserDto("alan", "Foo-Pw");
    assert c.db.Rows()[2] == AuthRecord("alan", role);
    r := c.SignIn(UserDto("alan", "Foo-Pw"), jti, now);
  }

  /** On a fresh store, jay's credential matches but Single finds no role
      row for him and throws. */
  method JayScenario(settings: JwtSettings, utcOffset: int, jti: string, now: int) returns (jay: ActionResult)
    ensures jay == Threw(NoMatchingElement)
  {
    var c := NewController(settings, utcOffset);
    assert c.db.users[0] == UserDto("jay", "Foo-Pw");
    InitialTablesDisagree();
    jay := c.SignIn(UserDto("jay", "Foo-Pw"), jti, now);
  }

  /** A caller whose claims do not make it an Admin asks to set alan's row
      to "Admin" and is turned away before the table is touched. */
  method RefusePromotion(c: JwtAuthController, claims: seq<Claim>, jti: string, now: int) returns (denied: ActionResult)
    requires !IsInRole(claims, "Admin")
    modifies c.db.auths
    ensures c.db.users == old(c.db.users) && c.db.Rows() == old(c.db.Rows())
    ensures denied == Forbidden
  {
    denied := c.Handle(Bearer(claims), SetAuthRequest(AuthRecord("alan", "Admin")), jti, now);
  }

  /** A caller holding an "Admin" role claim sets alan's row to "Admin". */
  method PromoteAlan(c: JwtAuthController, adminClaims: seq<Claim>, jti: string, now: int) returns (granted: ActionResult)
    requires exists i :: 0 <= i < |adminClaims| && adminClaims[i] == Claim(RoleClaimType, "Admin")
    requires UniqueRow(c.db.Rows(), "alan", 2)
    modifies c.db.auths
    ensures c.db.users == old(c.db.users)
    ensures granted == Ok
    ensures UniqueRow(c.db.Rows(), "alan", 2) && c.db.Rows()[2].auth == "Admin"
  {
    ghost var rows := c.db.Rows();
    var dto := AuthRecord("alan", "Admin");
    AdminRoutes(SetAuthRoute, Bearer(adminClaims));
    granted := c.Handle(Bearer(adminClaims), SetAuthRequest(dto), jti, now);
    SetAuthOnKnownUser(rows, dto, c.db.Rows(), granted, 2);
    SetAuthKeepsShape(rows, dto, c.db.Rows(), granted);
  }

  /** On a fresh store, with a lifetime that outlasts the host's lag behind
      UTC: alan gets a "User" token, which the Admin gate
      refuses for SetAuth; a caller holding an "Admin" role claim sets alan to
      "Admin", and alan's next token carries "Admin". */
  method PromotionScenario(settings: JwtSettings, utcOffset: int, adminClaims: seq<Claim>, jti1: string, jti2: string, now: int)
    returns (before: ActionResult, denied: ActionResult, granted: ActionResult, after: ActionResult)
    requires |settings.signKey| >= 16 && utcOffset + settings.expireMinutes * SecondsPerMinute > 0
    requires exists i :: 0 <= i < |adminClaims| && adminClaims[i] == Claim(RoleClaimType, "Admin")
    ensures before == OkToken(Issue(settings, AuthRecord("alan", "User"), jti1, now))
    ensures denied == Forbidden
    ensures granted == Ok
    ensures after == OkToken(Issue(settings, AuthRecord("alan", "Admin"), jti2, now))
  {
    var c := NewController(settings, utcOffset);
    assert UniqueRow(c.db.Rows(), "alan", 2);
    before := SignInAlan(c, settings, "User", jti1, now);

    IssuedTokenAtAdminGate(settings, AuthRecord("alan", "User"), jti1, now);
    denied := RefusePromotion(c, before.token.claims, jti1, now);

    granted := PromoteAlan(c, adminClaims, jti1, now);
    after := SignInAlan(c, settings, "Admin", jti2, now);
  }
}
