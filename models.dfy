/** Models/UserDto.cs, and the AuthDto role row the controller and the store
    share. AuthDto's own file is not part of this model: its shape is the one
    its uses fix, a Username and an Auth that SetAuth overwrites. */
module Models {
  import opened Runtime

  /** The sign-in body, a C# 9 record with two init-only properties. Record
      equality compares both properties with ordinal string equality: exact,
      case-sensitive, no trimming. A datatype value never changes once built,
      which is what init-only promises. */
  datatype UserDto = UserDto(username: string, password: string)

  /** What an AuthDto object holds at one moment, as a value. */
  datatype AuthRecord = AuthRecord(username: string, auth: string)

  /** A stored role row; SetAuth overwrites `auth` on the object in place. */
  class AuthDto {
    var username: string
    var auth: string

    constructor (username: string, auth: string)
      ensures this.username == username && this.auth == auth
    {
      this.username := username;
      this.auth := auth;
    }
  }

  /** Record equality of UserDto is field-wise equality. */
  lemma CredentialEquality(a: UserDto, b: UserDto)
    ensures a == b <==> a.username == b.username && a.password == b.password
  {
  }

  /** Examples of the exact comparison that CredentialEquality states in
      general: a different letter case or an extra space is a different
      credential. */
  lemma CredentialComparisonIsExact()
    ensures UserDto("alan", "Foo-Pw") != UserDto("Alan", "Foo-Pw")
    ensures UserDto("alan", "Foo-Pw") != UserDto("alan ", "Foo-Pw")
    ensures UserDto("alan", "Foo-Pw") != UserDto("alan", "foo-pw")
  {
  }

  /** The sign-in body as it arrives, before model binding: a property may be
      absent or JSON null (None). */
  datatype UserForm = UserForm(username: Option<string>, password: Option<string>)

  /** char.IsWhiteSpace: the Unicode space, line and paragraph separators,
      U+0009 to U+000D and U+0085. */
  predicate IsWhiteSpace(c: char)
  {
    || c == ' ' || ('\t' <= c <= '\r') || c == '\U{0085}' || c == '\U{00A0}'
    || c == '\U{1680}' || ('\U{2000}' <= c <= '\U{200A}') || c == '\U{2028}'
    || c == '\U{2029}' || c == '\U{202F}' || c == '\U{205F}' || c == '\U{3000}'
  }

  /** Some character of `s` is not white space. */
  ghost predicate HasVisibleChar(s: string)
  {
    exists i :: 0 <= i < |s| && !IsWhiteSpace(s[i])
  }

  /** The scan behind string.IsNullOrWhiteSpace for a non-null string. */
  function AllWhiteSpace(s: string): (r: bool)
    ensures r <==> !HasVisibleChar(s)
  {
    if s == [] then true else IsWhiteSpace(s[0]) && AllWhiteSpace(s[1..])
  }

  /** [Required] with its default AllowEmptyStrings = false: the property is
      present, and not empty or white space only. */
  predicate SatisfiesRequired(field: Option<string>): (r: bool)
    ensures r <==> field.Some? && HasVisibleChar(field.value)
  {
    field.Some? && !AllWhiteSpace(field.value)
  }

  /** Model binding and validation of the sign-in body. None is the automatic
      400 response that a failed [Required] produces before SignIn runs. */
  function BindUserDto(form: UserForm): (r: Option<UserDto>)
    ensures r.Some? <==>
      form.username.Some? && HasVisibleChar(form.username.value) &&
      form.password.Some? && HasVisibleChar(form.password.value)
    ensures r.Some? ==> r.value.username == form.username.value && r.value.password == form.password.value
  {
    if SatisfiesRequired(form.username) && SatisfiesRequired(form.password)
    then Some(UserDto(form.username.value, form.password.value))
    else None
  }
}
