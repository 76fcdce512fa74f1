/** The in-memory revocation ledger: a set of banned token strings that only grows. */
module BannedTokenStores {
  import opened Common

  datatype BannedTokenStoreError = UnexpectedError(cause: Report)

  class HashsetBannedTokenStore {
    var tokens: set<string>

    /** `HashsetBannedTokenStore::default()`: nothing banned. */
    constructor ()
      ensures tokens == {}
    {
      tokens := {};
    }

    /** `add_token`: bans `token`; never fails, and banning twice changes nothing. */
    method AddToken(token: string) returns (r: Result<(), BannedTokenStoreError>)
      modifies this
      ensures r == Ok(())
      ensures tokens == old(tokens) + {token}
      ensures old(tokens) <= tokens && token in tokens
      ensures token in old(tokens) ==> tokens == old(tokens)
    {
      tokens := tokens + {token};
      return Ok(());
    }

    /** `contains_token`: never fails; true exactly for banned tokens. */
    function ContainsToken(token: string): (r: Result<bool, BannedTokenStoreError>)
      reads this
      ensures r.Ok?
      ensures r.value <==> token in tokens
    {
      Ok(token in tokens)
    }
  }

  /**
   * Once banned, always banned: after `token` is banned, banning any other
   * token leaves it banned, and banning it again changes nothing.
   */
  method BanIsPermanent(token: string, other: string) returns (afterBan: bool, afterOther: bool, again: Result<(), BannedTokenStoreError>, afterAgain: bool)
    ensures afterBan && afterOther && again == Ok(()) && afterAgain
  {
    var store := new HashsetBannedTokenStore();
    var _ := store.AddToken(token);
    afterBan := store.ContainsToken(token).value;
    var _ := store.AddToken(other);
    afterOther := store.ContainsToken(token).value;
    again := store.AddToken(token);
    afterAgain := store.ContainsToken(token).value;
  }
}
