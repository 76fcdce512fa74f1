/**
 * The in-memory two-factor challenge store: at most one
 * (login attempt id, code) pair per email, last write wins.
 */
module TwoFACodeStores {
  import opened Common
  import Emails

  /** The identifier correlating a login with its challenge. Its parsing is not part of this model. */
  datatype LoginAttemptId = LoginAttemptId(raw: string)

  /** The code sent out of band. Its parsing is not part of this model. */
  datatype TwoFACode = TwoFACode(raw: string)

  datatype TwoFACodeStoreError = LoginAttemptIdNotFound | UnexpectedError

  class HashmapTwoFACodeStore {
    var codes: map<Emails.Email, (LoginAttemptId, TwoFACode)>

    /** `HashmapTwoFACodeStore::default()`: no challenges. */
    constructor ()
      ensures codes == map[]
    {
      codes := map[];
    }

    /**
     * `add_code`: records the pair for `email`, replacing any earlier one.
     * Afterwards exactly the new pair is redeemable for `email`.
     */
    method AddCode(email: Emails.Email, loginAttemptId: LoginAttemptId, code: TwoFACode)
      returns (r: Result<(), TwoFACodeStoreError>)
      modifies this
      ensures r == Ok(())
      ensures codes == old(codes)[email := (loginAttemptId, code)]
      ensures forall id, c :: Redeemable(email, id, c) <==> id == loginAttemptId && c == code
    {
      codes := codes[email := (loginAttemptId, code)];
      return Ok(());
    }

    /**
     * `remove_code`: deletes the pair for `email`; `LoginAttemptIdNotFound`
     * when there is none. Afterwards nothing is redeemable for `email`.
     */
    method RemoveCode(email: Emails.Email) returns (r: Result<(), TwoFACodeStoreError>)
      modifies this
      ensures r == Ok(()) <==> email in old(codes)
      ensures r.Err? <==> email !in old(codes)
      ensures r.Err? ==> r.error == LoginAttemptIdNotFound && codes == old(codes)
      ensures codes == old(codes) - {email}
      ensures forall id, c :: !Redeemable(email, id, c)
    {
      if email in codes {
        codes := codes - {email};
        r := Ok(());
      } else {
        r := Err(LoginAttemptIdNotFound);
      }
    }

    /** `get_code`: the stored pair, or `LoginAttemptIdNotFound`. */
    function GetCode(email: Emails.Email): (r: Result<(LoginAttemptId, TwoFACode), TwoFACodeStoreError>)
      reads this
      ensures r.Ok? <==> email in codes
      ensures r.Ok? ==> r.value == codes[email]
      ensures r.Err? ==> r.error == LoginAttemptIdNotFound
    {
      if email in codes then Ok(codes[email]) else Err(LoginAttemptIdNotFound)
    }

    /**
     * What a second-factor check against this store accepts: `get_code`
     * succeeds and both the attempt id and the code equal the presented ones.
     */
    predicate Redeemable(email: Emails.Email, loginAttemptId: LoginAttemptId, code: TwoFACode)
      reads this
    {
      GetCode(email) == Ok((loginAttemptId, code))
    }
  }

  /**
   * A second login before the first challenge is answered: the second pair
   * replaces the first, so the first pair is no longer accepted unless it
   * happens to equal the second.
   */
  method SecondChallengeReplacesFirst(email: Emails.Email, firstId: LoginAttemptId, firstCode: TwoFACode,
                                      secondId: LoginAttemptId, secondCode: TwoFACode)
    returns (firstAccepted: bool, secondAccepted: bool)
    ensures secondAccepted
    ensures firstAccepted <==> firstId == secondId && firstCode == secondCode
  {
    var store := new HashmapTwoFACodeStore();
    var _ := store.AddCode(email, firstId, firstCode);
    var _ := store.AddCode(email, secondId, secondCode);
    firstAccepted := store.Redeemable(email, firstId, firstCode);
    secondAccepted := store.Redeemable(email, secondId, secondCode);
  }

  /**
   * Consuming a challenge: it is accepted before removal, removal succeeds,
   * and afterwards the same pair is refused, `get_code` reports
   * `LoginAttemptIdNotFound` and a second removal fails.
   */
  method ChallengeIsSingleUse(email: Emails.Email, loginAttemptId: LoginAttemptId, code: TwoFACode)
    returns (before: bool, removed: Result<(), TwoFACodeStoreError>, after: bool,
             lookup: Result<(LoginAttemptId, TwoFACode), TwoFACodeStoreError>,
             removedAgain: Result<(), TwoFACodeStoreError>)
    ensures before && removed == Ok(()) && !after
    ensures lookup == Err(LoginAttemptIdNotFound) && removedAgain == Err(LoginAttemptIdNotFound)
  {
    var store := new HashmapTwoFACodeStore();
    var _ := store.AddCode(email, loginAttemptId, code);
    before := store.Redeemable(email, loginAttemptId, code);
    removed := store.RemoveCode(email);
    after := store.Redeemable(email, loginAttemptId, code);
    lookup := store.GetCode(email);
    removedAgain := store.RemoveCode(email);
  }
}
