/** The four event handlers, each a transition from a store to the store
    after its saves, or an error that leaves the store as it was (every save
    comes after every resolution, so a failing resolution saves nothing). */
module Handlers {
  import opened Results
  import opened Ascii
  import opened Decimal
  import opened EventIds
  import opened Entities
  import opened Resolver

  /** Payloads, in the order the chain's event data lists them. */
  datatype TransferPayload = TransferPayload(from: string, to: string, amount: nat)
  datatype AssetTransferredPayload = AssetTransferredPayload(assetId: nat, from: string, to: string)
  datatype AssetIssuedPayload = AssetIssuedPayload(assetId: nat, owner: string)
  datatype StakedPayload = StakedPayload(who: string)

  /** After the event, the account of `address` is stored under the
      lower-cased address and stamped with `blockNumber`; its first block and
      public key are the stored ones when it existed, and its first block is
      `blockNumber` when it is new. */
  ghost predicate Touched(before: map<string, Account>, after: map<string, Account>, address: string, blockNumber: nat) {
    var k := Lower(address);
    && k in after
    && after[k].id == k
    && after[k].lastTransferBlock == Some(blockNumber)
    && after[k].firstTransferBlock
         == (if k in before then before[k].firstTransferBlock else blockNumber)
    && (k in before ==> after[k].publicKey == before[k].publicKey)
  }

  /** A new account's public key is exactly the text of the bytes decoded
      from `address`, and reads back as those bytes. */
  ghost predicate KeyFrom(before: map<string, Account>, after: map<string, Account>, address: string, decode: Decoder) {
    var k := Lower(address);
    k !in before ==>
      && k in after
      && decode(address).Some?
      && after[k].publicKey == ByteListText(decode(address).value)
      && ParseByteList(after[k].publicKey) == Some(decode(address).value)
  }

  /** Only the accounts under `keys` are written: they are present afterwards
      and every other account is as it was. */
  ghost predicate AccountsWritten(before: map<string, Account>, after: map<string, Account>, keys: set<string>) {
    && after.Keys == before.Keys + keys
    && forall k :: k in before && k !in keys ==> after[k] == before[k]
  }

  /** Exactly one record is written, under `id`; every other record of the
      table is as it was. */
  ghost predicate RecordWritten<T>(m: map<string, T>, m': map<string, T>, id: string) {
    && m'.Keys == m.Keys + {id}
    && forall k :: k in m && k != id ==> m'[k] == m[k]
  }

  /** `handleBalancesTransferEvent`. */
  function HandleBalancesTransfer(s: Store, p: TransferPayload, ctx: EventContext, decode: Decoder)
    : (r: Result<Store>)
    requires Valid(s)
    ensures r.Err? <==> ResolveFails(s.accounts, p.from, decode) || ResolveFails(s.accounts, p.to, decode)
    ensures r.Err? ==>
      r.error == DecodeError(if ResolveFails(s.accounts, p.from, decode) then p.from else p.to)
    ensures r.Ok? ==>
      var s', id := r.value, ContextRecordId(ctx);
      && s'.accounts.Keys >= s.accounts.Keys
      && RecordWritten(s.transfers, s'.transfers, id)
      && s'.transfers[id]
           == Transfer(id, ctx.blockNumber, ctx.timestamp, Lower(p.from), Lower(p.to), p.amount)
      && s'.assetTransfers == s.assetTransfers
      && s'.assetIssues == s.assetIssues
      && s'.stakes == s.stakes
  {
    var from :- Resolve(s.accounts, p.from, ctx.blockNumber, decode);
    var to :- Resolve(s.accounts, p.to, ctx.blockNumber, decode);
    var evt := Transfer(ContextRecordId(ctx), ctx.blockNumber, ctx.timestamp, from.id, to.id, p.amount);
    Ok(s.(accounts := s.accounts[from.id := Stamp(from, ctx.blockNumber)][to.id := Stamp(to, ctx.blockNumber)],
          transfers := s.transfers[evt.id := evt]))
  }

  /** `handleAssetTransferredEvent`. */
  function HandleAssetTransferred(s: Store, p: AssetTransferredPayload, ctx: EventContext, decode: Decoder)
    : (r: Result<Store>)
    requires Valid(s)
    ensures r.Err? <==> ResolveFails(s.accounts, p.from, decode) || ResolveFails(s.accounts, p.to, decode)
    ensures r.Err? ==>
      r.error == DecodeError(if ResolveFails(s.accounts, p.from, decode) then p.from else p.to)
    ensures r.Ok? ==>
      var s', id := r.value, ContextRecordId(ctx);
      && s'.accounts.Keys >= s.accounts.Keys
      && RecordWritten(s.assetTransfers, s'.assetTransfers, id)
      && s'.assetTransfers[id]
           == AssetTransferred(id, ctx.blockNumber, ctx.timestamp, p.assetId, Lower(p.from), Lower(p.to))
      && s'.transfers == s.transfers
      && s'.assetIssues == s.assetIssues
      && s'.stakes == s.stakes
  {
    var from :- Resolve(s.accounts, p.from, ctx.blockNumber, decode);
    var to :- Resolve(s.accounts, p.to, ctx.blockNumber, decode);
    var evt := AssetTransferred(ContextRecordId(ctx), ctx.blockNumber, ctx.timestamp, p.assetId, from.id, to.id);
    Ok(s.(accounts := s.accounts[from.id := Stamp(from, ctx.blockNumber)][to.id := Stamp(to, ctx.blockNumber)],
          assetTransfers := s.assetTransfers[evt.id := evt]))
  }

  /** `handleAssetIssuedEvent`. */
  function HandleAssetIssued(s: Store, p: AssetIssuedPayload, ctx: EventContext, decode: Decoder)
    : (r: Result<Store>)
    requires Valid(s)
    ensures r.Err? <==> ResolveFails(s.accounts, p.owner, decode)
    ensures r.Err? ==> r.error == DecodeError(p.owner)
    ensures r.Ok? ==>
      var s', id := r.value, ContextRecordId(ctx);
      && s'.accounts.Keys >= s.accounts.Keys
      && RecordWritten(s.assetIssues, s'.assetIssues, id)
      && s'.assetIssues[id] == AssetIssued(id, ctx.blockNumber, ctx.timestamp, p.assetId, Lower(p.owner))
      && s'.transfers == s.transfers
      && s'.assetTransfers == s.assetTransfers
      && s'.stakes == s.stakes
  {
    var account :- Resolve(s.accounts, p.owner, ctx.blockNumber, decode);
    var evt := AssetIssued(ContextRecordId(ctx), ctx.blockNumber, ctx.timestamp, p.assetId, account.id);
    Ok(s.(accounts := s.accounts[account.id := Stamp(account, ctx.blockNumber)],
          assetIssues := s.assetIssues[evt.id := evt]))
  }

  /** `handleLiquidStakingStakedEvent`. */
  function HandleLiquidStakingStaked(s: Store, p: StakedPayload, ctx: EventContext, decode: Decoder)
    : (r: Result<Store>)
    requires Valid(s)
    ensures r.Err? <==> ResolveFails(s.accounts, p.who, decode)
    ensures r.Err? ==> r.error == DecodeError(p.who)
    ensures r.Ok? ==>
      var s', id := r.value, ContextRecordId(ctx);
      && s'.accounts.Keys >= s.accounts.Keys
      && RecordWritten(s.stakes, s'.stakes, id)
      && s'.stakes[id] == LiquidStakingStaked(id, ctx.blockNumber, ctx.timestamp, Lower(p.who))
      && s'.transfers == s.transfers
      && s'.assetTransfers == s.assetTransfers
      && s'.assetIssues == s.assetIssues
  {
    var account :- Resolve(s.accounts, p.who, ctx.blockNumber, decode);
    var evt := LiquidStakingStaked(ContextRecordId(ctx), ctx.blockNumber, ctx.timestamp, account.id);
    Ok(s.(accounts := s.accounts[account.id := Stamp(account, ctx.blockNumber)],
          stakes := s.stakes[evt.id := evt]))
  }
}
