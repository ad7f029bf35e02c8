/**
 * The request-body schemas of src/utils/utils.ts: `validationSchema` (registration)
 * and `loginSchema` (login). Each schema is a list of per-key string rules checked in
 * declaration order; the first failing rule is the one reported. The messages Joi
 * prints are left abstract: an error names the key and the rule that failed.
 */
module Validation {
  import opened Wrappers

  /** A JSON value in a request body, as far as `Joi.string()` tells values apart. */
  datatype Json = JString(s: string) | JOther

  /**
   * `req.body`: the four keys the schemas name (`None` when the key is absent) and the
   * names of any other keys the client sent.
   */
  datatype RequestBody = RequestBody(
    email: Option<Json>,
    password: Option<Json>,
    firstName: Option<Json>,
    lastName: Option<Json>,
    otherKeys: set<string>)

  datatype Field = Email | Password | FirstName | LastName

  /** The rules a `Joi.string()` key can fail, in the order Joi checks them. */
  datatype Rule = Required | NotAString | EmptyString | PatternMismatch

  /** The first error Joi reports (`error.details[0]`). */
  datatype ValidationError =
    | Invalid(field: Field, rule: Rule)
      /** A key the schema does not list (Joi objects refuse unknown keys by default). */
    | UnknownKey

  predicate IsAlphanumeric(c: char) {
    'a' <= c <= 'z' || 'A' <= c <= 'Z' || '0' <= c <= '9'
  }

  /**
   * Anchored match of `s` against the regular expression `[a-zA-Z0-9]{min,max}`:
   * each repetition consumes one character of the class, and the `$` anchor
   * demands that nothing is left once the repetitions stop.
   */
  function MatchClassRepeat(s: string, min: nat, max: nat): bool
    decreases |s|
  {
    if |s| == 0 then min == 0
    else max > 0 && IsAlphanumeric(s[0]) && MatchClassRepeat(s[1..], if min == 0 then 0 else min - 1, max - 1)
  }

  /** The password pattern `^[a-zA-Z0-9]{3,30}$`. */
  predicate PasswordPattern(s: string) {
    MatchClassRepeat(s, 3, 30)
  }

  /** The explicit reading of the pattern: a length check and a character-class check. */
  predicate PasswordShape(s: string) {
    3 <= |s| <= 30 && forall i :: 0 <= i < |s| ==> IsAlphanumeric(s[i])
  }

  lemma {:induction false} MatchClassRepeatIff(s: string, min: nat, max: nat)
    ensures MatchClassRepeat(s, min, max) <==>
              min <= |s| <= max && forall i :: 0 <= i < |s| ==> IsAlphanumeric(s[i])
    decreases |s|
  {
    if |s| > 0 && max > 0 {
      var min' := if min == 0 then 0 else min - 1;
      MatchClassRepeatIff(s[1..], min', max - 1);
      assert forall i :: 1 <= i < |s| ==> s[i] == s[1..][i - 1];
    }
  }

  /** The pattern accepts exactly the strings of 3 to 30 ASCII letters and digits. */
  lemma PasswordPatternIff(s: string)
    ensures PasswordPattern(s) <==> PasswordShape(s)
  {
    MatchClassRepeatIff(s, 3, 30);
  }

  /** What one `Joi.string()` key accepts, stated without the rule order. */
  predicate Accepts(v: Option<Json>, required: bool, patterned: bool) {
    match v
    case None => !required
    case Some(j) => j.JString? && j.s != "" && (!patterned || PasswordShape(j.s))
  }

  /**
   * One `Joi.string()` key, optionally `.required()` and optionally with the password
   * `.pattern(...)`: absent, not a string, empty, then the pattern.
   */
  function CheckString(field: Field, v: Option<Json>, required: bool, patterned: bool): (r: Option<ValidationError>)
    ensures r.None? <==> Accepts(v, required, patterned)
    ensures r.Some? ==> r.value.Invalid? && r.value.field == field
    ensures r.Some? && r.value.rule == PatternMismatch ==> patterned
  {
    match v
    case None => if required then Some(Invalid(field, Required)) else None
    case Some(JOther) => Some(Invalid(field, NotAString))
    case Some(JString(s)) =>
      if s == "" then Some(Invalid(field, EmptyString))
      else if patterned && !PasswordPattern(s) then (PasswordPatternIff(s); Some(Invalid(field, PatternMismatch)))
      else (PasswordPatternIff(s); None)
  }

  /** Joi stops at the first failing key: `first` when it failed, otherwise `rest`. */
  function OrElse(first: Option<ValidationError>, rest: Option<ValidationError>): Option<ValidationError> {
    if first.Some? then first else rest
  }

  /** Keys outside a schema make Joi refuse the body. */
  function CheckNoUnknownKeys(unknown: bool): Option<ValidationError> {
    if unknown then Some(UnknownKey) else None
  }

  /** The password is optional and, when present, must match the pattern. */
  predicate PasswordAccepted(b: RequestBody) {
    Accepts(b.password, false, true)
  }

  /** `validationSchema.validate(req.body)`: email, password, firstName, lastName. */
  function ValidateRegistration(b: RequestBody): (r: Option<ValidationError>)
    ensures r.None? <==>
              && Accepts(b.email, true, false)
              && PasswordAccepted(b)
              && Accepts(b.firstName, true, false)
              && Accepts(b.lastName, true, false)
              && b.otherKeys == {}
    ensures b.email.None? ==> r == Some(Invalid(Email, Required))
    ensures b.firstName.None? || b.lastName.None? ==> r.Some?
    ensures Accepts(b.email, true, false) && !PasswordAccepted(b) ==> r.Some? && r.value.Invalid? && r.value.field == Password
  {
    OrElse(CheckString(Email, b.email, true, false),
    OrElse(CheckString(Password, b.password, false, true),
    OrElse(CheckString(FirstName, b.firstName, true, false),
    OrElse(CheckString(LastName, b.lastName, true, false),
           CheckNoUnknownKeys(b.otherKeys != {})))))
  }

  /**
   * `loginSchema.validate(req.body)`: email and password only, so a body carrying a
   * first or last name has keys the schema does not list.
   */
  function ValidateLogin(b: RequestBody): (r: Option<ValidationError>)
    ensures r.None? <==>
              && Accepts(b.email, true, false)
              && PasswordAccepted(b)
              && b.firstName.None? && b.lastName.None? && b.otherKeys == {}
    ensures b.email.None? ==> r == Some(Invalid(Email, Required))
    ensures Accepts(b.email, true, false) && !PasswordAccepted(b) ==> r.Some? && r.value.Invalid? && r.value.field == Password
  {
    OrElse(CheckString(Email, b.email, true, false),
    OrElse(CheckString(Password, b.password, false, true),
           CheckNoUnknownKeys(b.firstName.Some? || b.lastName.Some? || b.otherKeys != {})))
  }

  /** The password key is optional in both schemas: leaving it out never causes an error. */
  lemma PasswordOptional(b: RequestBody)
    ensures ValidateRegistration(b).None? ==> ValidateRegistration(b.(password := None)).None?
    ensures ValidateLogin(b).None? ==> ValidateLogin(b.(password := None)).None?
    ensures ValidateRegistration(b.(password := None)) != Some(Invalid(Password, Required))
    ensures ValidateLogin(b.(password := None)) != Some(Invalid(Password, Required))
  {
  }

  /** Both schemas apply the same password rule: a body passes one on password iff it passes the other. */
  lemma SamePasswordRule(b: RequestBody)
    requires Accepts(b.email, true, false)
    ensures (ValidateRegistration(b).Some? && ValidateRegistration(b).value.Invalid? && ValidateRegistration(b).value.field == Password) <==>
            (ValidateLogin(b).Some? && ValidateLogin(b).value.Invalid? && ValidateLogin(b).value.field == Password)
  {
  }

  /** Validation never looks at the address format: `"invalid-email"` passes the login schema. */
  lemma EmailFormatNotChecked()
    ensures ValidateLogin(RequestBody(Some(JString("invalid-email")), None, None, None, {})).None?
  {
  }

  /** A registration with an empty first name fails even though its password is fine. */
  lemma EmptyNamesRejected()
    ensures var b := RequestBody(Some(JString("invalid-email")), Some(JString("short")),
                                 Some(JString("")), Some(JString("")), {});
            ValidateRegistration(b) == Some(Invalid(FirstName, EmptyString))
  {
    PasswordPatternIff("short");
  }

  /** A login with an empty password fails on the password key. */
  lemma EmptyPasswordRejected()
    ensures ValidateLogin(RequestBody(Some(JString("invalid-email")), Some(JString("")), None, None, {}))
            == Some(Invalid(Password, EmptyString))
  {
  }
}
