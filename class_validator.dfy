/**
 * The class-validator decorators the DTOs use, over the value a JSON body
 * gives a field: absent, a string, or some other JSON value.
 */
module ClassValidator {

  datatype Field = Missing | Str(s: string) | NonString

  /** `@IsString()`. */
  predicate IsString(f: Field)
  {
    f.Str?
  }

  /** `@IsNotEmpty()`: anything but an absent value or the empty string. */
  predicate IsNotEmpty(f: Field)
  {
    f != Missing && f != Str("")
  }

  /** `@MinLength(n)`: a string of at least `n` characters. */
  predicate MinLength(f: Field, n: nat)
  {
    f.Str? && |f.s| >= n
  }

  /** `@IsOptional()`: an absent value skips every other rule of the field. */
  predicate Optional(f: Field, rules: bool)
  {
    f.Missing? || rules
  }
}
