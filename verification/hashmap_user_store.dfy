/** The in-memory user store: a map from email to user, unique by email. */
module UserStores {
  import opened Common
  import opened Users
  import Emails
  import Passwords

  datatype UserStoreError = UserAlreadyExists | UserNotFound | InvalidCredentials | UnexpectedError

  /** Every user is filed under its own email. */
  ghost predicate KeyedByEmail(users: map<Emails.Email, User>) {
    forall e :: e in users ==> users[e].email == e
  }

  /** A store keyed by email never holds two users with the same email. */
  lemma KeyedByEmailIsUnique(users: map<Emails.Email, User>, e1: Emails.Email, e2: Emails.Email)
    requires KeyedByEmail(users)
    requires e1 in users && e2 in users && users[e1].email == users[e2].email
    ensures e1 == e2 && users[e1] == users[e2]
  {
  }

  class HashmapUserStore {
    var users: map<Emails.Email, User>

    ghost predicate Valid()
      reads this
    {
      KeyedByEmail(users)
    }

    /** `HashmapUserStore::default()`: no users. */
    constructor ()
      ensures Valid() && users == map[]
    {
      users := map[];
    }

    /** `add_user`: refuses an email already present, otherwise inserts under `user.email`. */
    method AddUser(user: User) returns (r: Result<(), UserStoreError>)
      requires Valid()
      modifies this
      ensures Valid()
      ensures r == Ok(()) <==> user.email !in old(users)
      ensures r.Err? <==> user.email in old(users)
      ensures r.Err? ==> r.error == UserAlreadyExists && users == old(users)
      ensures r.Ok? ==> users == old(users)[user.email := user]
    {
      if user.email in users {
        return Err(UserAlreadyExists);
      }
      users := users[user.email := user];
      return Ok(());
    }

    /** `get_user`: the stored user, or `UserNotFound`. */
    function GetUser(email: Emails.Email): (r: Result<User, UserStoreError>)
      reads this
      requires Valid()
      ensures r.Ok? <==> email in users
      ensures r.Ok? ==> r.value == users[email] && r.value.email == email
      ensures r.Err? ==> r.error == UserNotFound
    {
      if email in users then Ok(users[email]) else Err(UserNotFound)
    }

    /** `validate_user`: succeeds only for a stored email whose password matches exactly. */
    function ValidateUser(email: Emails.Email, password: Passwords.Password): (r: Result<(), UserStoreError>)
      reads this
      ensures r.Ok? <==> email in users && users[email].password == password
      ensures r == Err(InvalidCredentials) <==> email in users && users[email].password != password
      ensures r == Err(UserNotFound) <==> email !in users
    {
      if email in users then
        if users[email].password.Eq(password) then Ok(()) else Err(InvalidCredentials)
      else
        Err(UserNotFound)
    }
  }

  /**
   * The module's test scenario: adding a user succeeds once, then the same
   * user is refused, and afterwards the store answers lookups and credential
   * checks for that user.
   */
  method AddThenLookUp(user: User, wrong: Passwords.Password, other: Emails.Email)
    returns (first: Result<(), UserStoreError>, second: Result<(), UserStoreError>,
             found: Result<User, UserStoreError>, missing: Result<User, UserStoreError>,
             right: Result<(), UserStoreError>, mismatch: Result<(), UserStoreError>,
             unknown: Result<(), UserStoreError>)
    requires wrong != user.password && other != user.email
    ensures first == Ok(()) && second == Err(UserAlreadyExists)
    ensures found == Ok(user) && missing == Err(UserNotFound)
    ensures right == Ok(()) && mismatch == Err(InvalidCredentials) && unknown == Err(UserNotFound)
  {
    var store := new HashmapUserStore();
    first := store.AddUser(user);
    second := store.AddUser(user);
    found := store.GetUser(user.email);
    missing := store.GetUser(other);
    right := store.ValidateUser(user.email, user.password);
    mismatch := store.ValidateUser(user.email, wrong);
    unknown := store.ValidateUser(other, user.password);
  }
}
