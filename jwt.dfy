/** JwtHelper.cs: the settings record, the claims and descriptor GenerateToken
    builds, the helper's settings precedence, and the validation policy that
    ConfigureJwtBearerOptions installs. Times are whole seconds since the
    epoch in UTC; the host's local clock runs a fixed offset ahead of that. */
module Jwt {
  import opened Runtime
  import opened Models

  newtype byte = x: int | 0 <= x < 256

  // Claim types and algorithm names, as the identity libraries spell them.
  const Iss := "iss"                 // JwtRegisteredClaimNames.Iss
  const Sub := "sub"                 // JwtRegisteredClaimNames.Sub
  const Jti := "jti"                 // JwtRegisteredClaimNames.Jti
  const RoleClaimType := "http://schemas.microsoft.com/ws/2008/06/identity/claims/role"                  // ClaimTypes.Role
  const NameIdentifierClaimType := "http://schemas.xmlsoap.org/ws/2005/05/identity/claims/nameidentifier" // ClaimTypes.NameIdentifier
  const HmacSha256Signature := "http://www.w3.org/2001/04/xmldsig-more#hmac-sha256"

  /** HMAC-SHA256 keys under this many bits are refused by the token handler. */
  const MinimumHmacKeyBits := 128
  /** TokenValidationParameters.ClockSkew when, as here, it is left unset: five minutes. */
  const DefaultClockSkewSeconds := 300
  const SecondsPerMinute := 60

  /** The token handler's refusal of a descriptor whose Expires is not after
      its NotBefore. At JwtHelper.cs:68 Expires is read from the local clock
      (`now + utcOffset` plus the lifetime); the NotBefore the handler fills
      in is UTC `now`. The two are compared as clock readings, time zone
      ignored, so the host's offset takes part in the comparison. */
  predicate ExpiresAfterNotBefore(s: JwtSettings, utcOffset: int, now: int): (r: bool)
    ensures r <==> utcOffset + s.expireMinutes * SecondsPerMinute > 0
  {
    var localExpires := now + utcOffset + s.expireMinutes * SecondsPerMinute;
    var utcNotBefore := now;
    utcNotBefore < localExpires
  }

  /** The JwtSettings record (issuer, HMAC secret, lifetime in minutes). */
  datatype JwtSettings = JwtSettings(issuer: string, signKey: string, expireMinutes: int)

  datatype Claim = Claim(claimType: string, value: string)

  /** The SecurityTokenDescriptor GenerateToken hands to the token handler,
      with the times the handler fills in by default (NotBefore and IssuedAt
      are "now") and the signing key as the raw bytes of the secret. */
  datatype TokenDescriptor = TokenDescriptor(
    issuer: string,
    audience: Option<string>,
    claims: seq<Claim>,
    notBefore: int,
    issuedAt: int,
    expires: int,
    signingKey: seq<byte>,
    algorithm: string)

  // ---------------------------------------------------------------------
  // Encoding.UTF8.GetBytes, the key derivation used at issuance and at
  // validation. A Dafny char is a Unicode scalar value, so no lone surrogate
  // arises.

  /** The UTF-8 bytes of one scalar value. */
  function Utf8Char(c: char): (r: seq<byte>)
    ensures 1 <= |r| <= 4
  {
    var n := c as int;
    if n < 0x80 then [n as byte]
    else if n < 0x800 then [(0xC0 + n / 0x40) as byte, (0x80 + n % 0x40) as byte]
    else if n < 0x1_0000 then
      [(0xE0 + n / 0x1000) as byte, (0x80 + n / 0x40 % 0x40) as byte, (0x80 + n % 0x40) as byte]
    else
      [(0xF0 + n / 0x4_0000) as byte, (0x80 + n / 0x1000 % 0x40) as byte,
       (0x80 + n / 0x40 % 0x40) as byte, (0x80 + n % 0x40) as byte]
  }

  function Utf8(s: string): (r: seq<byte>)
    ensures |s| <= |r|
    ensures r == [] <==> s == []
  {
    if s == [] then [] else Utf8Char(s[0]) + Utf8(s[1..])
  }

  /** Every character takes one to four bytes. */
  lemma {:induction false} Utf8Length(s: string)
    ensures |s| <= |Utf8(s)| <= 4 * |s|
  {
    if s != [] {
      Utf8Length(s[1..]);
    }
  }

  /** The length of the byte sequence a lead byte opens. */
  function SequenceLength(lead: byte): nat
  {
    if lead < 0x80 then 1 else if lead < 0xE0 then 2 else if lead < 0xF0 then 3 else 4
  }

  /** The scalar value that the bytes of one encoded character denote. */
  function CodePoint(b: seq<byte>): int
    requires 1 <= |b| && SequenceLength(b[0]) <= |b|
  {
    var k := SequenceLength(b[0]);
    if k == 1 then b[0] as int
    else if k == 2 then (b[0] as int - 0xC0) * 0x40 + (b[1] as int - 0x80)
    else if k == 3 then ((b[0] as int - 0xE0) * 0x40 + (b[1] as int - 0x80)) * 0x40 + (b[2] as int - 0x80)
    else (((b[0] as int - 0xF0) * 0x40 + (b[1] as int - 0x80)) * 0x40 + (b[2] as int - 0x80)) * 0x40 + (b[3] as int - 0x80)
  }

  /** One character's bytes can be read back off the front of any byte string. */
  lemma Utf8CharDecodes(c: char, rest: seq<byte>)
    ensures SequenceLength((Utf8Char(c) + rest)[0]) == |Utf8Char(c)|
    ensures CodePoint(Utf8Char(c) + rest) == c as int
  {
    var n := c as int;
    var q1, r1 := n / 0x40, n % 0x40;
    var q2, r2 := q1 / 0x40, q1 % 0x40;
    var q3, r3 := q2 / 0x40, q2 % 0x40;
    assert n == q1 * 0x40 + r1;
    assert q1 == q2 * 0x40 + r2;
    assert q2 == q3 * 0x40 + r3;
    assert n / 0x1000 == q2 && n / 0x4_0000 == q3;
  }

  /** Two secrets give the same key bytes only if they are the same string. */
  lemma {:induction false} Utf8Injective(a: string, b: string)
    requires Utf8(a) == Utf8(b)
    ensures a == b
  {
    if a == [] || b == [] {
      Utf8Length(a);
      Utf8Length(b);
    } else {
      Utf8CharDecodes(a[0], Utf8(a[1..]));
      Utf8CharDecodes(b[0], Utf8(b[1..]));
      var k := |Utf8Char(a[0])|;
      assert Utf8Char(a[0]) == Utf8(a)[..k] && Utf8(a[1..]) == Utf8(a)[k..];
      assert Utf8Char(b[0]) == Utf8(b)[..k] && Utf8(b[1..]) == Utf8(b)[k..];
      Utf8Injective(a[1..], b[1..]);
      assert a == [a[0]] + a[1..];
      assert b == [b[0]] + b[1..];
    }
  }

  /** The symmetric key both sides derive from the configured secret. */
  function SigningKey(s: JwtSettings): (r: seq<byte>)
    ensures r == [] <==> s.signKey == []
    ensures |s.signKey| <= |r| <= 4 * |s.signKey|
  {
    Utf8Length(s.signKey);
    Utf8(s.signKey)
  }

  /** Utf8 of a string with one more character: that character's bytes follow. */
  lemma {:induction false} Utf8Append(s: string, c: char)
    ensures Utf8(s + [c]) == Utf8(s) + Utf8Char(c)
  {
    if s != [] {
      assert (s + [c])[1..] == s[1..] + [c];
      Utf8Append(s[1..], c);
    } else {
      assert s + [c] == [c];
    }
  }

  // ---------------------------------------------------------------------
  // HMAC keys. HMAC-SHA256 pads a key of up to one 64-byte block with zero
  // bytes, and first hashes a longer key. Two keys sign alike exactly when
  // they give the same block.

  const HmacBlockBytes := 64

  /** `k` followed by zero bytes up to length `n`. */
  function ZeroPadded(k: seq<byte>, n: nat): (r: seq<byte>)
    requires |k| <= n
    ensures |r| == n && r[..|k|] == k
    ensures forall i :: |k| <= i < n ==> r[i] == 0
  {
    k + seq(n - |k|, _ => 0 as byte)
  }

  /** Whether two keys produce the same HMAC-SHA256 signatures. Short keys
      are compared as padded blocks; a key over one block is taken to match
      only itself (its hash is treated as collision-free). */
  predicate SameHmacKey(a: seq<byte>, b: seq<byte>): (r: bool)
    ensures a == b ==> r
  {
    if |a| <= HmacBlockBytes && |b| <= HmacBlockBytes then ZeroPadded(a, HmacBlockBytes) == ZeroPadded(b, HmacBlockBytes)
    else a == b
  }

  /** Keys of the same length sign alike only if they are equal. */
  lemma SameLengthHmacKeys(a: seq<byte>, b: seq<byte>)
    requires |a| == |b|
    ensures SameHmacKey(a, b) <==> a == b
  {
    if |a| <= HmacBlockBytes && SameHmacKey(a, b) {
      assert ZeroPadded(a, HmacBlockBytes)[..|a|] == a;
      assert ZeroPadded(b, HmacBlockBytes)[..|b|] == b;
    }
  }

  /** A trailing zero byte does not change a short key's block. */
  lemma TrailingZeroSignsAlike(k: seq<byte>)
    requires |k| < HmacBlockBytes
    ensures SameHmacKey(k + [0], k)
  {
    var a := ZeroPadded(k + [0], HmacBlockBytes);
    var b := ZeroPadded(k, HmacBlockBytes);
    assert forall i :: 0 <= i < HmacBlockBytes ==> a[i] == b[i] by {
      forall i | 0 <= i < HmacBlockBytes
        ensures a[i] == b[i]
      {
        if i < |k| {
          assert a[i] == a[..|k| + 1][i] == (k + [0])[i];
          assert b[i] == b[..|k|][i];
        }
      }
    }
  }

  // ---------------------------------------------------------------------
  // GenerateToken

  /** The descriptor GenerateToken builds for `auth` under settings `s`, with
      the token id (a fresh Guid in the source) and the clock as inputs. */
  function Issue(s: JwtSettings, auth: AuthRecord, jti: string, now: int): (r: TokenDescriptor)
    ensures |r.claims| == 4 && r.claims[0] == Claim(Iss, r.issuer)
    ensures forall i :: 0 <= i < |r.claims| ==> (r.claims[i].claimType == RoleClaimType <==> i == 3)
    ensures r.notBefore == r.issuedAt == now && r.expires - r.notBefore == s.expireMinutes * SecondsPerMinute
    ensures r.signingKey == SigningKey(s)
  {
    TokenDescriptor(
      issuer := s.issuer,
      audience := None,
      claims := [Claim(Iss, s.issuer), Claim(Sub, auth.username), Claim(Jti, jti), Claim(RoleClaimType, auth.auth)],
      notBefore := now,
      issuedAt := now,
      expires := now + s.expireMinutes * SecondsPerMinute,
      signingKey := SigningKey(s),
      algorithm := HmacSha256Signature)
  }

  /** The claim list has four entries, iss, sub, jti, role in that order,
      carrying the issuer, the username, the token id and the role; the
      descriptor's own issuer is the settings' issuer too. */
  lemma IssuedClaims(s: JwtSettings, auth: AuthRecord, jti: string, now: int)
    ensures var t := Issue(s, auth, jti, now);
      && |t.claims| == 4
      && t.claims[0] == Claim(Iss, s.issuer)
      && t.claims[1] == Claim(Sub, auth.username)
      && t.claims[2] == Claim(Jti, jti)
      && t.claims[3] == Claim(RoleClaimType, auth.auth)
      && t.issuer == s.issuer
      && t.audience.None?
  {
  }

  /** Only the role claim has the role claim type, so the role a token
      carries is exactly the record's. */
  lemma IssuedRoleClaims(s: JwtSettings, auth: AuthRecord, jti: string, now: int)
    ensures var t := Issue(s, auth, jti, now);
      forall i :: 0 <= i < |t.claims| && t.claims[i].claimType == RoleClaimType ==> i == 3 && t.claims[i].value == auth.auth
  {
  }

  /** The token expires ExpireMinutes after it is issued; strictly after
      issuance exactly when ExpireMinutes is positive. */
  lemma IssuedLifetime(s: JwtSettings, auth: AuthRecord, jti: string, now: int)
    ensures var t := Issue(s, auth, jti, now);
      && t.notBefore == t.issuedAt == now
      && t.expires - now == 60 * s.expireMinutes
      && (t.expires > now <==> s.expireMinutes > 0)
  {
  }

  /** The helper with its settings field. The constructor assigns the field
      from both sources; the second assignment wins. A source that is null
      leaves the field null (`?.Value`). `utcOffset` is the host's time zone:
      how many seconds DateTime.Now runs ahead of DateTime.UtcNow. */
  class JwtHelper {
    const settings: Option<JwtSettings>
    const utcOffset: int

    constructor (optionsSettings: Option<JwtSettings>, optionsSnapshotSettings: Option<JwtSettings>, hostUtcOffset: int)
      ensures settings == optionsSnapshotSettings
      ensures utcOffset == hostUtcOffset
    {
      settings := optionsSettings;
      settings := optionsSnapshotSettings;
      utcOffset := hostUtcOffset;
    }

    /** GenerateToken at UTC time `now`, in the order the source meets its
        failures: reading the settings through null throws; SymmetricSecurityKey
        refuses an empty key (line 54); CreateToken refuses an expiry that is
        not after the not-before time, then a key under 128 bits (line 74);
        otherwise the descriptor. The token itself records the expiry in UTC. */
    function GenerateToken(auth: AuthRecord, jti: string, now: int): (r: Result<TokenDescriptor>)
      ensures settings.None? ==> r == Failure(NullReference)
      ensures settings.Some? && settings.value.signKey == [] ==> r == Failure(EmptyKey)
      ensures settings.Some? && settings.value.signKey != [] && !ExpiresAfterNotBefore(settings.value, utcOffset, now) ==>
        r == Failure(ExpiryNotAfterNotBefore)
      ensures settings.Some? && settings.value.signKey != [] && ExpiresAfterNotBefore(settings.value, utcOffset, now) ==>
        |Utf8(settings.value.signKey)| * 8 < MinimumHmacKeyBits ==> r == Failure(KeyTooShort)
      ensures r.Success? <==>
        && settings.Some?
        && |Utf8(settings.value.signKey)| * 8 >= MinimumHmacKeyBits
        && utcOffset + settings.value.expireMinutes * SecondsPerMinute > 0
      ensures r.Success? ==> r.value == Issue(settings.value, auth, jti, now)
    {
      if settings.None? then Failure(NullReference)
      else if SigningKey(settings.value) == [] then Failure(EmptyKey)
      else if !ExpiresAfterNotBefore(settings.value, utcOffset, now) then Failure(ExpiryNotAfterNotBefore)
      else if |SigningKey(settings.value)| * 8 < MinimumHmacKeyBits then Failure(KeyTooShort)
      else Success(Issue(settings.value, auth, jti, now))
    }
  }

  /** A secret of at least 16 characters always gives a key the handler
      accepts, as the comment on the key in the source says: whether a token
      is then issued depends only on the lifetime and the host's offset. */
  lemma SixteenCharactersSuffice(h: JwtHelper, auth: AuthRecord, jti: string, now: int)
    requires h.settings.Some? && |h.settings.value.signKey| >= 16
    ensures h.GenerateToken(auth, jti, now).Success? <==> h.utcOffset + h.settings.value.expireMinutes * SecondsPerMinute > 0
  {
    Utf8Length(h.settings.value.signKey);
  }

  /** ExpireMinutes = 0: on a host east of UTC the token is issued, with an
      expiry equal to its issuance, and the bearer handler then trusts it for
      the five minutes of clock skew either side, provided the Issuer is not
      blank; at UTC or west of it no
      token is issued at all. */
  lemma ZeroMinuteToken(h: JwtHelper, auth: AuthRecord, jti: string, now: int, later: int)
    requires h.settings.Some? && |h.settings.value.signKey| >= 16 && h.settings.value.expireMinutes == 0
    ensures h.utcOffset <= 0 ==> h.GenerateToken(auth, jti, now) == Failure(ExpiryNotAfterNotBefore)
    ensures h.utcOffset > 0 ==>
      && h.GenerateToken(auth, jti, now).Success?
      && h.GenerateToken(auth, jti, now).value.expires == now
      && (Accepts(ValidationPolicy(h.settings.value), h.GenerateToken(auth, jti, now).value, later) <==>
            HasVisibleChar(h.settings.value.issuer) && now - DefaultClockSkewSeconds <= later <= now + DefaultClockSkewSeconds)
  {
    SixteenCharactersSuffice(h, auth, jti, now);
    if h.utcOffset > 0 {
      IssuedTokenAcceptedWindow(h.settings.value, auth, jti, now, later);
    }
  }

  // ---------------------------------------------------------------------
  // Validation

  /** The TokenValidationParameters fields the core sets or relies on. */
  datatype TokenValidationParameters = TokenValidationParameters(
    nameClaimType: string,
    roleClaimType: string,
    validateIssuer: bool,
    validIssuer: string,
    validateAudience: bool,
    validAudience: Option<string>,
    validateLifetime: bool,
    validateIssuerSigningKey: bool,
    issuerSigningKey: seq<byte>,
    clockSkew: int)

  /** The policy Configure installs for settings `s`. */
  function ValidationPolicy(s: JwtSettings): (r: TokenValidationParameters)
    ensures r.roleClaimType == RoleClaimType
    ensures s.expireMinutes >= 0 && HasVisibleChar(s.issuer) && |SigningKey(s)| * 8 >= MinimumHmacKeyBits ==>
      forall auth, jti, now :: Accepts(r, Issue(s, auth, jti, now), now)
  {
    TokenValidationParameters(
      nameClaimType := NameIdentifierClaimType,
      roleClaimType := RoleClaimType,
      validateIssuer := true,
      validIssuer := s.issuer,
      validateAudience := false,
      validAudience := None,
      validateLifetime := true,
      validateIssuerSigningKey := false,
      issuerSigningKey := SigningKey(s),
      clockSkew := DefaultClockSkewSeconds)
  }

  /** Whether the bearer handler trusts token `t` at time `now` under `p`.
      The signature verifies when the token was signed with a key that signs
      like the validation key, and the verifier, like the signer, refuses a
      key under 128 bits. A validated issuer must not be blank. The
      ValidateIssuerSigningKey flag only concerns a key embedded in the
      token, which these tokens never carry. */
  predicate Accepts(p: TokenValidationParameters, t: TokenDescriptor, now: int)
  {
    && SameHmacKey(t.signingKey, p.issuerSigningKey)
    && |p.issuerSigningKey| * 8 >= MinimumHmacKeyBits
    && (p.validateIssuer ==> !AllWhiteSpace(t.issuer) && t.issuer == p.validIssuer)
    && (p.validateAudience ==> t.audience.Some? && p.validAudience == t.audience)
    && (p.validateLifetime ==>
          && t.notBefore <= t.expires
          && t.notBefore <= now + p.clockSkew
          && t.expires >= now - p.clockSkew)
  }

  /** The policy checks the issuer against the settings, ignores the
      audience, checks the lifetime, leaves signing-key validation off, and
      reads the role from the very claim type the issuer writes it under. */
  lemma PolicyFlags(s: JwtSettings, auth: AuthRecord, jti: string, now: int)
    ensures var p := ValidationPolicy(s);
      && p.validateIssuer && p.validIssuer == s.issuer
      && !p.validateAudience
      && p.validateLifetime
      && !p.validateIssuerSigningKey
      && p.roleClaimType == Issue(s, auth, jti, now).claims[3].claimType
      && p.issuerSigningKey == Issue(s, auth, jti, now).signingKey
  {
  }

  /** Round trip: a token issued under `s` at `issuedAt` is trusted under the
      policy for the same `s` exactly from five minutes before issuance to five
      minutes after expiry, provided the Issuer is not blank, the key has at
      least 128 bits and ExpireMinutes is not negative. */
  lemma IssuedTokenAcceptedWindow(s: JwtSettings, auth: AuthRecord, jti: string, issuedAt: int, now: int)
    ensures Accepts(ValidationPolicy(s), Issue(s, auth, jti, issuedAt), now) <==>
      && HasVisibleChar(s.issuer)
      && |SigningKey(s)| * 8 >= MinimumHmacKeyBits
      && s.expireMinutes >= 0
      && issuedAt - DefaultClockSkewSeconds <= now
      && now <= issuedAt + s.expireMinutes * SecondsPerMinute + DefaultClockSkewSeconds
  {
  }

  /** Past expiry plus the clock skew, an untampered token is refused. */
  lemma ExpiredTokenRefused(s: JwtSettings, auth: AuthRecord, jti: string, issuedAt: int, now: int)
    requires now > issuedAt + s.expireMinutes * SecondsPerMinute + DefaultClockSkewSeconds
    ensures !Accepts(ValidationPolicy(s), Issue(s, auth, jti, issuedAt), now)
  {
  }

  /** A token issued under other settings is refused when its issuer
      differs from the validating side's, or when its secret differs and
      encodes to as many bytes. */
  lemma ForeignTokenRefused(local: JwtSettings, foreign: JwtSettings, auth: AuthRecord, jti: string, issuedAt: int, now: int)
    requires || foreign.issuer != local.issuer
             || (foreign.signKey != local.signKey && |Utf8(foreign.signKey)| == |Utf8(local.signKey)|)
    ensures !Accepts(ValidationPolicy(local), Issue(foreign, auth, jti, issuedAt), now)
  {
    if foreign.issuer == local.issuer {
      SameLengthHmacKeys(Utf8(foreign.signKey), Utf8(local.signKey));
      if Utf8(foreign.signKey) == Utf8(local.signKey) {
        Utf8Injective(foreign.signKey, local.signKey);
      }
    }
  }

  /** Secrets of different lengths can still sign alike: a short secret with
      a NUL character appended is trusted exactly when the secret itself
      would be. */
  lemma TrailingNulSecretAccepted(local: JwtSettings, auth: AuthRecord, jti: string, issuedAt: int, now: int)
    requires |Utf8(local.signKey)| < HmacBlockBytes
    ensures var foreign := local.(signKey := local.signKey + ['\0']);
      && foreign.signKey != local.signKey
      && (Accepts(ValidationPolicy(local), Issue(foreign, auth, jti, issuedAt), now) <==>
          Accepts(ValidationPolicy(local), Issue(local, auth, jti, issuedAt), now))
  {
    var foreign := local.(signKey := local.signKey + ['\0']);
    assert |foreign.signKey| == |local.signKey| + 1;
    Utf8Append(local.signKey, '\0');
    assert Utf8Char('\0') == [0];
    TrailingZeroSignsAlike(Utf8(local.signKey));
  }

  /** The options object Configure writes into. */
  class JwtBearerOptions {
    var tokenValidationParameters: Option<TokenValidationParameters>

    constructor ()
      ensures tokenValidationParameters.None?
    {
      tokenValidationParameters := None;
    }
  }

  /** Holds the settings bound from the "JwtSettings" configuration section
      (None when the section is absent). */
  class ConfigureJwtBearerOptions {
    const settings: Option<JwtSettings>

    constructor (section: Option<JwtSettings>)
      ensures settings == section
    {
      settings := section;
    }

    /** Installs ValidationPolicy(settings). Reading absent settings throws,
        and so does building the key from an empty secret; either throw
        happens before the assignment, so nothing is installed. */
    method Configure(options: JwtBearerOptions) returns (r: Result<()>)
      modifies options
      ensures settings.None? ==> r == Failure(NullReference) && options.tokenValidationParameters == old(options.tokenValidationParameters)
      ensures settings.Some? && settings.value.signKey == [] ==>
        r == Failure(EmptyKey) && options.tokenValidationParameters == old(options.tokenValidationParameters)
      ensures settings.Some? && settings.value.signKey != [] ==>
        r == Success(()) && options.tokenValidationParameters == Some(ValidationPolicy(settings.value))
    {
      if settings.None? {
        r := Failure(NullReference);
      } else if SigningKey(settings.value) == [] {
        r := Failure(EmptyKey);
      } else {
        options.tokenValidationParameters := Some(ValidationPolicy(settings.value));
        r := Success(());
      }
    }
  }
}
