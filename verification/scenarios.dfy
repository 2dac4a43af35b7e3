/** Worked examples: concrete events on a concrete store. */
module Scenarios {
  import opened Results
  import opened Ascii
  import opened Decimal
  import opened EventIds
  import opened Entities
  import opened Resolver
  import opened Handlers

  function EmptyStore(): Store {
    Store(map[], map[], map[], map[], map[])
  }

  /** A codec that refuses the address "bad" and decodes every other
      address to the bytes 1, 2. */
  function SampleDecoder(address: string): Option<seq<byte>> {
    if address == "bad" then None else Some([1, 2])
  }

  /** A transfer at block 100, index 2, between two unseen addresses. */
  lemma TransferBetweenNewAccounts()
    ensures
      var r := HandleBalancesTransfer(EmptyStore(), TransferPayload("5A", "5B", 1000),
                                      EventContext(100, 7, 2), SampleDecoder);
      && r.Ok?
      && r.value.accounts == map[
           "5a" := Account("5a", "1,2", 100, Some(100)),
           "5b" := Account("5b", "1,2", 100, Some(100))]
      && r.value.transfers == map["100-2" := Transfer("100-2", 100, 7, "5a", "5b", 1000)]
  {
    assert Lower("5A") == "5a";
    assert Lower("5B") == "5b";
    assert ByteListText([1, 2]) == "1,2";
    assert Lower("1,2") == "1,2";
    assert RecordId(100, 2) == "100-2";
  }

  /** An issue of asset 7 at block 50, index 0, to an unseen owner. */
  lemma IssueToNewOwner()
    ensures
      var r := HandleAssetIssued(EmptyStore(), AssetIssuedPayload(7, "5C"),
                                 EventContext(50, 3, 0), SampleDecoder);
      && r.Ok?
      && r.value.accounts == map["5c" := Account("5c", "1,2", 50, Some(50))]
      && r.value.assetIssues == map["50-0" := AssetIssued("50-0", 50, 3, 7, "5c")]
  {
    assert Lower("5C") == "5c";
    assert ByteListText([1, 2]) == "1,2";
    assert Lower("1,2") == "1,2";
    assert RecordId(50, 0) == "50-0";
  }

  /** A malformed address aborts the event: nothing is created. */
  lemma MalformedAddressAborts()
    ensures HandleLiquidStakingStaked(EmptyStore(), StakedPayload("bad"), EventContext(9, 0, 0), SampleDecoder)
      == Err(DecodeError("bad"))
  {
  }

  /** A known account keeps its first block and public key when it is seen
      again in a different letter case, and only its stamp moves. */
  lemma KnownAccountRestamped()
    ensures
      var s := EmptyStore().(accounts := map["5c" := Account("5c", "1,2", 50, Some(50))]);
      var r := HandleLiquidStakingStaked(s, StakedPayload("5C"), EventContext(60, 1, 4), SampleDecoder);
      && r.Ok?
      && r.value.accounts == map["5c" := Account("5c", "1,2", 50, Some(60))]
      && r.value.stakes == map["60-4" := LiquidStakingStaked("60-4", 60, 1, "5c")]
  {
    assert Lower("5C") == "5c";
    assert RecordId(60, 4) == "60-4";
  }
}
