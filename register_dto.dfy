/**
 * `RegisterDto` of auth-service/src/auth/dto/register.dto.ts. The email
 * format test of `@IsEmail()` is a parameter.
 */
module RegisterDto {
  import opened Wrappers
  import opened ClassValidator
  import AuthModel

  datatype RegisterBody = RegisterBody(email: Field, password: Field)

  /** The decorators on the two fields, as declared. */
  predicate IsValid(b: RegisterBody, isEmail: string -> bool)
  {
    && b.email.Str? && isEmail(b.email.s)
    && IsString(b.password) && MinLength(b.password, 6)
  }

  /** What validation lets through: a well-formed email string and a password string of six or more characters. */
  function Validate(b: RegisterBody, isEmail: string -> bool): (r: Option<AuthModel.Credentials>)
    ensures r.Some? <==> b.email.Str? && isEmail(b.email.s) && b.password.Str? && |b.password.s| >= 6
    ensures r.Some? ==> b.email == Str(r.value.email) && b.password == Str(r.value.password)
  {
    if IsValid(b, isEmail) then Some(AuthModel.Credentials(b.email.s, b.password.s)) else None
  }

  lemma PasswordLength(email: string, password: string, isEmail: string -> bool)
    requires isEmail(email)
    ensures Validate(RegisterBody(Str(email), Str(password)), isEmail).Some? <==> |password| >= 6
    ensures Validate(RegisterBody(Str(email), Str("123456")), isEmail).Some?
    ensures Validate(RegisterBody(Str(email), NonString), isEmail).None?
  {
  }

  lemma BadEmailRejected(email: Field, password: Field, isEmail: string -> bool)
    requires email.Str? ==> !isEmail(email.s)
    ensures Validate(RegisterBody(email, password), isEmail).None?
  {
  }
}
