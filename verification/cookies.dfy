/** Cookies and the request's cookie jar, as far as the auth cookie needs them. */
module Cookies {
  import opened Common

  datatype SameSite = Strict | Lax | NoRestriction

  /** A cookie: name, value and the optional attributes the service sets. */
  datatype Cookie = Cookie(name: string, value: string, path: Option<string>,
                           httpOnly: Option<bool>, sameSite: Option<SameSite>)

  /** `Cookie::from(name)`: a bare cookie with an empty value and no attributes. */
  function Named(name: string): (c: Cookie)
  {
    Cookie(name, "", None, None, None)
  }

  /** A cookie jar: the cookies of a request, by name. */
  datatype CookieJar = CookieJar(cookies: map<string, Cookie>) {

    /** `CookieJar::get`. */
    function Get(name: string): (r: Option<Cookie>)
      ensures r.Some? <==> name in cookies
      ensures r.Some? ==> r.value == cookies[name]
    {
      if name in cookies then Some(cookies[name]) else None
    }

    /** `CookieJar::add`: replaces any cookie of the same name. */
    function Add(c: Cookie): (jar: CookieJar)
      ensures jar.Get(c.name) == Some(c)
      ensures forall n :: n != c.name ==> jar.Get(n) == Get(n)
    {
      CookieJar(cookies[c.name := c])
    }

    /** `CookieJar::remove`: afterwards the jar has no cookie of that name. */
    function Remove(c: Cookie): (jar: CookieJar)
      ensures jar.Get(c.name).None?
      ensures forall n :: n != c.name ==> jar.Get(n) == Get(n)
    {
      CookieJar(cookies - {c.name})
    }
  }

  const EmptyJar: CookieJar := CookieJar(map[])
}
