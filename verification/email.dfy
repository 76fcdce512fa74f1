/**
 * The `Email` value type: a wrapped string accepted when an external email
 * syntax check accepts it. Equality and hashing use the raw string, so they
 * are case-sensitive.
 */
module Emails {
  import opened Common

  /**
   * The least every address accepted by the syntax check looks like: an '@'
   * with at least one character before it and at least one after it.
   */
  predicate HasUserAndDomain(s: string) {
    exists i :: 0 < i < |s| - 1 && s[i] == '@'
  }

  /**
   * The `validator` crate's `validate_email`, which is not reimplemented here:
   * any decision procedure that accepts only strings with a user part and a
   * domain around an '@'.
   */
  type EmailValidator = f: string -> bool | forall s :: f(s) ==> HasUserAndDomain(s)
    witness (s: string) => false

  /** A parsed email address. `raw` is kept exactly as given. */
  datatype Email = Email(raw: string) {

    /** `as_ref`: the wrapped string. */
    function AsRef(): (r: string)
      ensures r == raw
    {
      raw
    }

    /** `PartialEq`: case-sensitive raw string comparison, which is exactly value identity. */
    function Eq(other: Email): (b: bool)
      ensures b <==> this == other
    {
      raw == other.raw
    }

    /** `Hash`: only the raw string is fed to the hasher. */
    function Hash(hasher: string -> int): (h: int)
      ensures h == hasher(AsRef())
    {
      hasher(raw)
    }
  }

  /** `Email::parse`. */
  function Parse(s: string, validator: EmailValidator): (r: Result<Email, Report>)
    ensures r.Ok? <==> validator(s)
    ensures r.Ok? ==> r.value.AsRef() == s && HasUserAndDomain(s)
  {
    if validator(s) then Ok(Email(s))
    else Err(Report(s + " is not a valid email."))
  }

  /** Equal addresses hash equally, whatever the hasher: `Hash` agrees with `Eq`. */
  lemma HashAgreesWithEq(a: Email, b: Email, hasher: string -> int)
    requires a.Eq(b)
    ensures a.Hash(hasher) == b.Hash(hasher)
  {
  }

  /** Addresses differing only in letter case are different keys. */
  lemma EqIsCaseSensitive()
    ensures !Email("User@example.com").Eq(Email("user@example.com"))
  {
  }

  /** The three rejections the module's own tests exercise, for every validator. */
  lemma ParseRejectsMalformed(validator: EmailValidator)
    ensures Parse("", validator).Err?
    ensures Parse("u.org", validator).Err?
    ensures Parse("@me.org", validator).Err?
  {
  }
}
