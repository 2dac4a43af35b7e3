/** What each handler does to the accounts, and that each handler keeps the
    store invariant. */
module HandlerEffects {
  import opened Results
  import opened Ascii
  import opened Decimal
  import opened EventIds
  import opened Entities
  import opened Resolver
  import opened Handlers

  /** Saving one resolved participant, stamped with `blockNumber`. */
  lemma OneParticipantWritten(accounts: map<string, Account>, address: string, blockNumber: nat, decode: Decoder)
    requires ValidAccounts(accounts)
    requires !ResolveFails(accounts, address, decode)
    ensures
      var a := Resolve(accounts, address, blockNumber, decode).value;
      var after := accounts[a.id := Stamp(a, blockNumber)];
      && a.id == Lower(address)
      && Touched(accounts, after, address, blockNumber)
      && KeyFrom(accounts, after, address, decode)
      && AccountsWritten(accounts, after, {Lower(address)})
      && ValidAccounts(after)
  {
  }

  /** Saving two resolved participants in order, `from` then `to`, both
      stamped with `blockNumber`. When both addresses have the same
      lower-cased form the second save is the one that remains. */
  lemma TwoParticipantsWritten(
    accounts: map<string, Account>, from: string, to: string, blockNumber: nat, decode: Decoder)
    requires ValidAccounts(accounts)
    requires !ResolveFails(accounts, from, decode) && !ResolveFails(accounts, to, decode)
    ensures
      var a := Resolve(accounts, from, blockNumber, decode).value;
      var b := Resolve(accounts, to, blockNumber, decode).value;
      var after := accounts[a.id := Stamp(a, blockNumber)][b.id := Stamp(b, blockNumber)];
      && a.id == Lower(from)
      && b.id == Lower(to)
      && Touched(accounts, after, from, blockNumber)
      && Touched(accounts, after, to, blockNumber)
      && KeyFrom(accounts, after, to, decode)
      && (Lower(from) != Lower(to) ==> KeyFrom(accounts, after, from, decode))
      && AccountsWritten(accounts, after, {Lower(from), Lower(to)})
      && ValidAccounts(after)
  {
    var a := Resolve(accounts, from, blockNumber, decode).value;
    var b := Resolve(accounts, to, blockNumber, decode).value;
    var mid := accounts[a.id := Stamp(a, blockNumber)];
    OneParticipantWritten(accounts, from, blockNumber, decode);
    if Lower(from) == Lower(to) && Lower(from) !in accounts {
      assert mid.Keys == accounts.Keys + {Lower(from)};
    }
  }

  /** `handleBalancesTransferEvent` stamps both participants, keeps what
      the store knew about them, and writes no other account. */
  lemma BalancesTransferAccounts(s: Store, p: TransferPayload, ctx: EventContext, decode: Decoder)
    requires Valid(s)
    ensures HandleBalancesTransfer(s, p, ctx, decode).Ok? ==>
      var s' := HandleBalancesTransfer(s, p, ctx, decode).value;
      && Touched(s.accounts, s'.accounts, p.from, ctx.blockNumber)
      && Touched(s.accounts, s'.accounts, p.to, ctx.blockNumber)
      && KeyFrom(s.accounts, s'.accounts, p.to, decode)
      && (Lower(p.from) != Lower(p.to) ==> KeyFrom(s.accounts, s'.accounts, p.from, decode))
      && AccountsWritten(s.accounts, s'.accounts, {Lower(p.from), Lower(p.to)})
  {
    if HandleBalancesTransfer(s, p, ctx, decode).Ok? {
      TwoParticipantsWritten(s.accounts, p.from, p.to, ctx.blockNumber, decode);
    }
  }

  /** `handleAssetTransferredEvent`: the same account effect as a transfer. */
  lemma AssetTransferredAccounts(s: Store, p: AssetTransferredPayload, ctx: EventContext, decode: Decoder)
    requires Valid(s)
    ensures HandleAssetTransferred(s, p, ctx, decode).Ok? ==>
      var s' := HandleAssetTransferred(s, p, ctx, decode).value;
      && Touched(s.accounts, s'.accounts, p.from, ctx.blockNumber)
      && Touched(s.accounts, s'.accounts, p.to, ctx.blockNumber)
      && KeyFrom(s.accounts, s'.accounts, p.to, decode)
      && (Lower(p.from) != Lower(p.to) ==> KeyFrom(s.accounts, s'.accounts, p.from, decode))
      && AccountsWritten(s.accounts, s'.accounts, {Lower(p.from), Lower(p.to)})
  {
    if HandleAssetTransferred(s, p, ctx, decode).Ok? {
      TwoParticipantsWritten(s.accounts, p.from, p.to, ctx.blockNumber, decode);
    }
  }

  /** `handleAssetIssuedEvent` stamps the owner and writes no other account. */
  lemma AssetIssuedAccounts(s: Store, p: AssetIssuedPayload, ctx: EventContext, decode: Decoder)
    requires Valid(s)
    ensures HandleAssetIssued(s, p, ctx, decode).Ok? ==>
      var s' := HandleAssetIssued(s, p, ctx, decode).value;
      && Touched(s.accounts, s'.accounts, p.owner, ctx.blockNumber)
      && KeyFrom(s.accounts, s'.accounts, p.owner, decode)
      && AccountsWritten(s.accounts, s'.accounts, {Lower(p.owner)})
  {
    if HandleAssetIssued(s, p, ctx, decode).Ok? {
      OneParticipantWritten(s.accounts, p.owner, ctx.blockNumber, decode);
    }
  }

  /** `handleLiquidStakingStakedEvent` stamps the staker and writes no other
      account. */
  lemma LiquidStakingStakedAccounts(s: Store, p: StakedPayload, ctx: EventContext, decode: Decoder)
    requires Valid(s)
    ensures HandleLiquidStakingStaked(s, p, ctx, decode).Ok? ==>
      var s' := HandleLiquidStakingStaked(s, p, ctx, decode).value;
      && Touched(s.accounts, s'.accounts, p.who, ctx.blockNumber)
      && KeyFrom(s.accounts, s'.accounts, p.who, decode)
      && AccountsWritten(s.accounts, s'.accounts, {Lower(p.who)})
  {
    if HandleLiquidStakingStaked(s, p, ctx, decode).Ok? {
      OneParticipantWritten(s.accounts, p.who, ctx.blockNumber, decode);
    }
  }

  /** Records stay valid when accounts are only added or restamped. */
  lemma ValidWithMoreAccounts(s: Store, accounts: map<string, Account>)
    requires Valid(s)
    requires ValidAccounts(accounts)
    requires s.accounts.Keys <= accounts.Keys
    ensures Valid(s.(accounts := accounts))
  {
  }

  /** A fresh record id always reads back as its own block height. */
  lemma ContextRecordIdIsKey(ctx: EventContext)
    ensures RecordKey(ContextRecordId(ctx), ContextRecordId(ctx), ctx.blockNumber)
  {
    SplitRecordIdRoundTrip(ctx.blockNumber, ctx.idx);
  }

  lemma AddTransferKeepsValid(s: Store, t: Transfer)
    requires Valid(s)
    requires RecordKey(t.id, t.id, t.blockNumber) && t.fromId in s.accounts && t.toId in s.accounts
    ensures Valid(s.(transfers := s.transfers[t.id := t]))
  {
  }

  lemma AddAssetTransferKeepsValid(s: Store, t: AssetTransferred)
    requires Valid(s)
    requires RecordKey(t.id, t.id, t.blockNumber) && t.fromId in s.accounts && t.toId in s.accounts
    ensures Valid(s.(assetTransfers := s.assetTransfers[t.id := t]))
  {
  }

  lemma AddAssetIssueKeepsValid(s: Store, t: AssetIssued)
    requires Valid(s)
    requires RecordKey(t.id, t.id, t.blockNumber) && t.ownerId in s.accounts
    ensures Valid(s.(assetIssues := s.assetIssues[t.id := t]))
  {
  }

  lemma AddStakeKeepsValid(s: Store, t: LiquidStakingStaked)
    requires Valid(s)
    requires RecordKey(t.id, t.id, t.blockNumber) && t.whoId in s.accounts
    ensures Valid(s.(stakes := s.stakes[t.id := t]))
  {
  }

  lemma BalancesTransferPreservesValid(s: Store, p: TransferPayload, ctx: EventContext, decode: Decoder)
    requires Valid(s)
    ensures HandleBalancesTransfer(s, p, ctx, decode).Ok? ==> Valid(HandleBalancesTransfer(s, p, ctx, decode).value)
  {
    if HandleBalancesTransfer(s, p, ctx, decode).Ok? {
      var s' := HandleBalancesTransfer(s, p, ctx, decode).value;
      var id := ContextRecordId(ctx);
      TwoParticipantsWritten(s.accounts, p.from, p.to, ctx.blockNumber, decode);
      var mid := s.(accounts := s'.accounts);
      ValidWithMoreAccounts(s, s'.accounts);
      ContextRecordIdIsKey(ctx);
      AddTransferKeepsValid(mid, s'.transfers[id]);
      assert s' == mid.(transfers := mid.transfers[id := s'.transfers[id]]);
    }
  }

  lemma AssetTransferredPreservesValid(s: Store, p: AssetTransferredPayload, ctx: EventContext, decode: Decoder)
    requires Valid(s)
    ensures HandleAssetTransferred(s, p, ctx, decode).Ok? ==> Valid(HandleAssetTransferred(s, p, ctx, decode).value)
  {
    if HandleAssetTransferred(s, p, ctx, decode).Ok? {
      var s' := HandleAssetTransferred(s, p, ctx, decode).value;
      var id := ContextRecordId(ctx);
      TwoParticipantsWritten(s.accounts, p.from, p.to, ctx.blockNumber, decode);
      var mid := s.(accounts := s'.accounts);
      ValidWithMoreAccounts(s, s'.accounts);
      ContextRecordIdIsKey(ctx);
      AddAssetTransferKeepsValid(mid, s'.assetTransfers[id]);
      assert s' == mid.(assetTransfers := mid.assetTransfers[id := s'.assetTransfers[id]]);
    }
  }

  lemma AssetIssuedPreservesValid(s: Store, p: AssetIssuedPayload, ctx: EventContext, decode: Decoder)
    requires Valid(s)
    ensures HandleAssetIssued(s, p, ctx, decode).Ok? ==> Valid(HandleAssetIssued(s, p, ctx, decode).value)
  {
    if HandleAssetIssued(s, p, ctx, decode).Ok? {
      var s' := HandleAssetIssued(s, p, ctx, decode).value;
      var id := ContextRecordId(ctx);
      OneParticipantWritten(s.accounts, p.owner, ctx.blockNumber, decode);
      var mid := s.(accounts := s'.accounts);
      ValidWithMoreAccounts(s, s'.accounts);
      ContextRecordIdIsKey(ctx);
      AddAssetIssueKeepsValid(mid, s'.assetIssues[id]);
      assert s' == mid.(assetIssues := mid.assetIssues[id := s'.assetIssues[id]]);
    }
  }

  lemma LiquidStakingStakedPreservesValid(s: Store, p: StakedPayload, ctx: EventContext, decode: Decoder)
    requires Valid(s)
    ensures HandleLiquidStakingStaked(s, p, ctx, decode).Ok? ==> Valid(HandleLiquidStakingStaked(s, p, ctx, decode).value)
  {
    if HandleLiquidStakingStaked(s, p, ctx, decode).Ok? {
      var s' := HandleLiquidStakingStaked(s, p, ctx, decode).value;
      var id := ContextRecordId(ctx);
      OneParticipantWritten(s.accounts, p.who, ctx.blockNumber, decode);
      var mid := s.(accounts := s'.accounts);
      ValidWithMoreAccounts(s, s'.accounts);
      ContextRecordIdIsKey(ctx);
      AddStakeKeepsValid(mid, s'.stakes[id]);
      assert s' == mid.(stakes := mid.stakes[id := s'.stakes[id]]);
    }
  }
}
