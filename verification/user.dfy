/** The account record the user store holds. */
module Users {
  import Emails
  import Passwords

  /** `User::new(email, password, require_2fa)`. */
  datatype User = User(email: Emails.Email, password: Passwords.Password, require2fa: bool)
}
