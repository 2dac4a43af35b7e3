/** `checkAndGetAccount`: look an address up by its lower-cased form and
    build a new account on first sight. */
module Resolver {
  import opened Results
  import opened Ascii
  import opened Decimal
  import opened Entities

  /** The chain's address codec (`decodeAddress`): the raw public-key bytes
      of a well-formed address, `None` where the codec throws. */
  type Decoder = string -> Option<seq<byte>>

  /** The resolution of `address` fails exactly when the account is new and
      the codec refuses the address. */
  ghost predicate ResolveFails(accounts: map<string, Account>, address: string, decode: Decoder) {
    Lower(address) !in accounts && decode(address).None?
  }

  /** A stored account is returned as it is; otherwise a new one is built
      under the lower-cased address, first seen at `blockNumber`, not yet
      stamped, whose public key is exactly the text of the bytes the codec
      decoded from the address as given (not lower-cased), lower-casing
      having left that text unchanged; the text reads back as those bytes. */
  function Resolve(accounts: map<string, Account>, address: string, blockNumber: nat, decode: Decoder)
    : (r: Result<Account>)
    ensures r.Err? <==> ResolveFails(accounts, address, decode)
    ensures r.Err? ==> r.error == DecodeError(address)
    ensures Lower(address) in accounts ==> r == Ok(accounts[Lower(address)])
    ensures r.Ok? && Lower(address) !in accounts ==>
      && r.value.id == Lower(address)
      && r.value.firstTransferBlock == blockNumber
      && r.value.lastTransferBlock.None?
      && r.value.publicKey == ByteListText(decode(address).value)
      && ParseByteList(r.value.publicKey) == Some(decode(address).value)
  {
    var key := Lower(address);
    if key in accounts then Ok(accounts[key])
    else match decode(address)
      case None => Err(DecodeError(address))
      case Some(bytes) =>
        LowerOfByteListText(bytes);
        ParseByteListText(bytes);
        Ok(Account(key, Lower(ByteListText(bytes)), blockNumber, None))
  }

  /** In a well-formed store the resolved account's id is always the
      lower-cased address. */
  lemma ResolveIdIsCanonical(accounts: map<string, Account>, address: string, blockNumber: nat, decode: Decoder)
    requires ValidAccounts(accounts)
    requires Resolve(accounts, address, blockNumber, decode).Ok?
    ensures Resolve(accounts, address, blockNumber, decode).value.id == Lower(address)
  {
  }

  /** Addresses that differ only in ASCII case resolve to the same key: the
      very same stored account when there is one, and new accounts with the
      same id otherwise. */
  lemma ResolveCaseInsensitive(
    accounts: map<string, Account>, a: string, b: string, blockNumber: nat, decode: Decoder)
    requires ValidAccounts(accounts)
    requires TextSameUpToCase(a, b)
    ensures Lower(a) in accounts ==>
      Resolve(accounts, a, blockNumber, decode) == Resolve(accounts, b, blockNumber, decode)
    ensures Resolve(accounts, a, blockNumber, decode).Ok? && Resolve(accounts, b, blockNumber, decode).Ok? ==>
      Resolve(accounts, a, blockNumber, decode).value.id == Resolve(accounts, b, blockNumber, decode).value.id
  {
    LowerEqualIffSameUpToCase(a, b);
  }

  /** The codec is consulted only for new accounts: for a stored one, any two
      codecs give the same answer. */
  lemma ResolveIgnoresDecoderWhenPresent(
    accounts: map<string, Account>, address: string, blockNumber: nat, d1: Decoder, d2: Decoder)
    requires Lower(address) in accounts
    ensures Resolve(accounts, address, blockNumber, d1) == Resolve(accounts, address, blockNumber, d2)
  {
  }
}
