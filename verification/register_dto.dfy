/** `RegisterDto`: what the validation pipe lets through to `AuthService.register`. */
module RegisterDto {
  import opened Wrappers
  import opened Json
  import opened Constraints
  import opened Errors
  import StrongPassword
  import Text

  datatype RegisterBody = RegisterBody(email: Field, password: Field, name: Field, role: Field)

  /** A validated registration; `role` is passed on as written, possibly absent. */
  datatype Registration = Registration(email: string, password: string, name: string, role: Option<string>)

  const RoleNames: seq<string> := ["admin", "user"]

  /**
   * `@IsEmail()` delegates to a syntactic e-mail check that is not part of
   * this model; it is the parameter `isEmail`.
   */
  predicate EmailOk(isEmail: string -> bool, v: Field) {
    IsString(v) && isEmail(v.value.s) && IsNotEmpty(v)
  }

  predicate PasswordOk(v: Field) {
    IsString(v) && IsNotEmpty(v) && MinLength(v, 6) && MaxLength(v, 50)
  }

  predicate NameOk(v: Field) {
    IsString(v) && IsNotEmpty(v) && MinLength(v, 3) && MaxLength(v, 255)
  }

  predicate RoleOk(v: Field) {
    Skipped(v) || (IsString(v) && IsIn(v, RoleNames))
  }

  function RegisterViolations(isEmail: string -> bool, b: RegisterBody): (fields: seq<string>)
    ensures fields == [] <==>
      EmailOk(isEmail, b.email) && PasswordOk(b.password) && NameOk(b.name) && RoleOk(b.role)
  {
    (if EmailOk(isEmail, b.email) then [] else ["email"])
    + (if PasswordOk(b.password) then [] else ["password"])
    + (if NameOk(b.name) then [] else ["name"])
    + (if RoleOk(b.role) then [] else ["role"])
  }

  /** The validation pipe on a registration body. */
  function ValidateRegister(isEmail: string -> bool, b: RegisterBody): (r: Result<Registration, Error>)
    ensures r.Failure? <==> RegisterViolations(isEmail, b) != []
    ensures r.Failure? ==> r.error == Error.Invalid(RegisterViolations(isEmail, b))
    ensures r.Success? ==>
      && b.email == Some(Str(r.value.email)) && isEmail(r.value.email)
      && b.password == Some(Str(r.value.password)) && 6 <= MeasuredLength(r.value.password) <= 50
      && b.name == Some(Str(r.value.name)) && 3 <= MeasuredLength(r.value.name) <= 255
      && r.value.role == OptionalString(b.role)
      && (r.value.role.Some? ==> r.value.role.value in RoleNames)
  {
    if RegisterViolations(isEmail, b) != [] then Failure(Error.Invalid(RegisterViolations(isEmail, b)))
    else Success(Registration(b.email.value.s, b.password.value.s, b.name.value.s, OptionalString(b.role)))
  }

  /** What a registration body can carry: the constraints of `RegisterDto`, on typed values. */
  predicate Acceptable(isEmail: string -> bool, reg: Registration) {
    && isEmail(reg.email) && reg.email != ""
    && 6 <= MeasuredLength(reg.password) <= 50
    && 3 <= MeasuredLength(reg.name) <= 255
    && (reg.role.Some? ==> reg.role.value in RoleNames)
  }

  /** The body a client sends for `reg`; an absent role is left out. */
  function BodyOf(reg: Registration): RegisterBody {
    RegisterBody(Some(Str(reg.email)), Some(Str(reg.password)), Some(Str(reg.name)), StringField(reg.role))
  }

  /**
   * What validation hands on is acceptable and, unless the role was an
   * explicit null, gives back the very body it came from.
   */
  lemma ValidatedRegistrationRoundTrip(isEmail: string -> bool, b: RegisterBody)
    requires ValidateRegister(isEmail, b).Success?
    ensures Acceptable(isEmail, ValidateRegister(isEmail, b).value)
    ensures b.role != Some(Null) ==> BodyOf(ValidateRegister(isEmail, b).value) == b
  {
    if b.role != Some(Null) {
      StringFieldOfOptionalString(b.role);
    }
  }

  /** Every acceptable registration survives the trip through a body and the validation pipe. */
  lemma RegisterRoundTrip(isEmail: string -> bool, reg: Registration)
    requires Acceptable(isEmail, reg)
    ensures ValidateRegister(isEmail, BodyOf(reg)) == Success(reg)
  {
    assert RegisterViolations(isEmail, BodyOf(reg)) == [];
  }

  /**
   * The strong-password constraint is not among the DTO's decorators: a
   * lower-case-only password of the minimum length is let through although
   * the constraint would refuse it.
   */
  lemma StrongPasswordNotApplied(isEmail: string -> bool, email: string)
    requires isEmail(email) && email != ""
    ensures var b := RegisterBody(Some(Str(email)), Some(Str("abcdef")), Some(Str("Ana")), None);
      && ValidateRegister(isEmail, b).Success?
      && ValidateRegister(isEmail, b).value.password == "abcdef"
      && !StrongPassword.Validate(Some("abcdef"))
  {
    var b := RegisterBody(Some(Str(email)), Some(Str("abcdef")), Some(Str("Ana")), None);
    assert EmailOk(isEmail, b.email);
    assert !StrongPassword.AnyChar("abcdef", Text.IsUpper) by {
      var s := "abcdef";
      assert forall i :: 0 <= i < |s| ==> !Text.IsUpper(s[i]);
    }
  }
}
