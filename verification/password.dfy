/**
 * The `Password` value type: a wrapped string that is accepted only when its
 * UTF-8 encoding is at least eight bytes long.
 */
module Passwords {
  import opened Common

  /** Shortest accepted password, counted in bytes of its UTF-8 encoding. */
  const MIN_PASSWORD_BYTES: nat := 8

  /** Number of bytes the UTF-8 encoding of `c` takes. */
  function Utf8Width(c: char): (w: nat)
    ensures 1 <= w <= 4
    ensures w == 1 <==> c as int < 0x80
  {
    if c as int < 0x80 then 1
    else if c as int < 0x800 then 2
    else if c as int < 0x1_0000 then 3
    else 4
  }

  /** Rust's `str::len`: the length of the UTF-8 encoding of `s`, in bytes. */
  function Utf8Len(s: string): (n: nat)
    ensures |s| <= n <= 4 * |s|
  {
    if s == [] then 0 else Utf8Width(s[0]) + Utf8Len(s[1..])
  }

  predicate IsAscii(s: string) {
    forall i :: 0 <= i < |s| ==> s[i] as int < 0x80
  }

  /** On ASCII text the byte length and the character count agree. */
  lemma {:induction false} AsciiUtf8Len(s: string)
    requires IsAscii(s)
    ensures Utf8Len(s) == |s|
  {
    if s != [] {
      assert IsAscii(s[1..]) by {
        forall i | 0 <= i < |s[1..]| ensures s[1..][i] as int < 0x80 {
          assert s[1..][i] == s[i + 1];
        }
      }
      AsciiUtf8Len(s[1..]);
    }
  }

  /** A parsed password. `raw` is kept exactly as given. */
  datatype Password = Password(raw: string) {

    /** `as_ref`: the wrapped string. */
    function AsRef(): (r: string)
      ensures r == raw
    {
      raw
    }

    /** `PartialEq`: raw string comparison, which is exactly value identity. */
    function Eq(other: Password): (b: bool)
      ensures b <==> this == other
    {
      raw == other.raw
    }
  }

  /** `validate_password`: at least eight bytes. */
  function ValidatePassword(s: string): (b: bool)
    ensures |s| >= 8 ==> b
    ensures |s| < 2 ==> !b
  {
    Utf8Len(s) >= MIN_PASSWORD_BYTES
  }

  /** `Password::parse`. */
  function Parse(s: string): (r: Result<Password, Report>)
    ensures r.Ok? <==> Utf8Len(s) >= MIN_PASSWORD_BYTES
    ensures r.Ok? ==> r.value.AsRef() == s
    ensures |s| >= 8 ==> r.Ok?
    ensures |s| < 2 ==> r.Err?
  {
    if ValidatePassword(s) then Ok(Password(s))
    else Err(Report("Failed to parse string to a Password type"))
  }

  /** For ASCII input the rule is simply "at least eight characters". */
  lemma ParseAscii(s: string)
    requires IsAscii(s)
    ensures Parse(s).Ok? <==> |s| >= 8
  {
    AsciiUtf8Len(s);
  }

  /** The two rejections the module's own tests exercise. */
  lemma ParseRejectsShortPasswords()
    ensures Parse("").Err?
    ensures Parse("123456").Err?
  {
    ParseAscii("123456");
  }
}
