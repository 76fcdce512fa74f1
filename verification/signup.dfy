/** The signup use-case: parse, refuse a known email, insert the new user. */
module SignupRoute {
  import opened Common
  import opened Errors
  import opened Users
  import Emails
  import Passwords
  import UserStores

  /** The request body: raw email, raw password and the `require2FA` flag. */
  datatype SignupRequest = SignupRequest(email: string, password: string, require2fa: bool)

  datatype SignupResponse = SignupResponse(message: string)

  const SIGNUP_SUCCESS_MESSAGE: string := "User created successfully!"

  /** The user a request describes, when both its email and its password parse. */
  function RequestedUser(request: SignupRequest, validator: Emails.EmailValidator): Option<User> {
    var email := Emails.Parse(request.email, validator);
    var password := Passwords.Parse(request.password);
    if email.Ok? && password.Ok? then Some(User(email.value, password.value, request.require2fa))
    else None
  }

  /**
   * `signup`, under the write lock on the user store. The email is parsed
   * before the password; either failing gives `InvalidCredentials`. A known
   * email gives `UserAlreadyExists`. Only a successful signup changes the
   * store, and then by exactly the new user.
   */
  method Signup(request: SignupRequest, store: UserStores.HashmapUserStore, validator: Emails.EmailValidator)
    returns (r: Result<(StatusCode, SignupResponse), AuthAPIError>)
    requires store.Valid()
    modifies store
    ensures store.Valid()
    ensures Emails.Parse(request.email, validator).Err? ==> r == Err(InvalidCredentials)
    ensures Emails.Parse(request.email, validator).Ok? && Passwords.Parse(request.password).Err? ==>
      r == Err(InvalidCredentials)
    ensures RequestedUser(request, validator).None? ==> store.users == old(store.users)
    ensures RequestedUser(request, validator).Some? && Emails.Email(request.email) in old(store.users) ==>
      r == Err(UserAlreadyExists) && store.users == old(store.users)
    ensures RequestedUser(request, validator).Some? && Emails.Email(request.email) !in old(store.users) ==>
      r == Ok((CREATED, SignupResponse(SIGNUP_SUCCESS_MESSAGE))) &&
      store.users == old(store.users)[Emails.Email(request.email) := RequestedUser(request, validator).value]
    ensures r.Ok? <==> RequestedUser(request, validator).Some? && Emails.Email(request.email) !in old(store.users)
  {
    var email := Emails.Parse(request.email, validator);
    if email.Err? {
      r := Err(InvalidCredentials);
    } else {
      var password := Passwords.Parse(request.password);
      if password.Err? {
        r := Err(InvalidCredentials);
      } else {
        var user := User(email.value, password.value, request.require2fa);
        if store.GetUser(user.email).Ok? {
          r := Err(UserAlreadyExists);
        } else {
          var added := store.AddUser(user);
          if added.Err? {
            r := Err(AuthAPIError.UnexpectedError(Report("failed to add user")));
          } else {
            r := Ok((CREATED, SignupResponse(SIGNUP_SUCCESS_MESSAGE)));
          }
        }
      }
    }
  }

  /** Signing up twice with the same request: created, then `UserAlreadyExists`. */
  method SignupTwice(request: SignupRequest, validator: Emails.EmailValidator)
    returns (first: Result<(StatusCode, SignupResponse), AuthAPIError>,
             second: Result<(StatusCode, SignupResponse), AuthAPIError>)
    requires validator(request.email) && Passwords.Utf8Len(request.password) >= 8
    ensures first == Ok((CREATED, SignupResponse(SIGNUP_SUCCESS_MESSAGE)))
    ensures second == Err(UserAlreadyExists)
  {
    var store := new UserStores.HashmapUserStore();
    first := Signup(request, store, validator);
    second := Signup(request, store, validator);
  }
}
