/** The indexer's entities and the store that holds them.

    The host framework keeps one table per entity kind, keyed by the entity's
    `id`; here each table is an immutable map, and a handler's saves become
    map updates. */
module Entities {
  import opened Results
  import opened Ascii
  import opened EventIds

  /** A chain address seen as a participant. `id` is the lower-cased address;
      `lastTransferBlock` is unset on a freshly created account until the
      handler that created it stamps it. */
  datatype Account = Account(
    id: string,
    publicKey: string,
    firstTransferBlock: nat,
    lastTransferBlock: Option<nat>)

  /** The fact records, one per handled event; `date` is the block timestamp,
      kept as an opaque number. */
  datatype Transfer = Transfer(
    id: string, blockNumber: nat, date: nat, fromId: string, toId: string, amount: nat)

  datatype AssetTransferred = AssetTransferred(
    id: string, blockNumber: nat, date: nat, assetId: nat, fromId: string, toId: string)

  datatype AssetIssued = AssetIssued(
    id: string, blockNumber: nat, date: nat, assetId: nat, ownerId: string)

  datatype LiquidStakingStaked = LiquidStakingStaked(
    id: string, blockNumber: nat, date: nat, whoId: string)

  datatype Store = Store(
    accounts: map<string, Account>,
    transfers: map<string, Transfer>,
    assetTransfers: map<string, AssetTransferred>,
    assetIssues: map<string, AssetIssued>,
    stakes: map<string, LiquidStakingStaked>)

  /** What a handler reads from the event besides its payload: the block
      height, the block timestamp and the event's index within the block. */
  datatype EventContext = EventContext(blockNumber: nat, timestamp: nat, idx: nat)

  function ContextRecordId(ctx: EventContext): string {
    RecordId(ctx.blockNumber, ctx.idx)
  }

  function Stamp(a: Account, blockNumber: nat): Account {
    a.(lastTransferBlock := Some(blockNumber))
  }

  /** Each stored account sits under its own id, that id is lower-case, and
      it has been stamped by the handler that saved it. */
  ghost predicate ValidAccounts(accounts: map<string, Account>) {
    forall k :: k in accounts ==>
      && accounts[k].id == k
      && IsLowerText(k)
      && accounts[k].lastTransferBlock.Some?
  }

  /** A record key is the record's own id, and that id reads back as its
      block height and some event index. */
  ghost predicate RecordKey(k: string, id: string, blockNumber: nat) {
    && id == k
    && SplitRecordId(k).Some?
    && SplitRecordId(k).value.0 == blockNumber
  }

  /** The store invariant: accounts are keyed and stamped, every record is
      keyed by its id, and every account a record refers to exists. */
  ghost predicate Valid(s: Store) {
    && ValidAccounts(s.accounts)
    && (forall k :: k in s.transfers ==>
          && RecordKey(k, s.transfers[k].id, s.transfers[k].blockNumber)
          && s.transfers[k].fromId in s.accounts
          && s.transfers[k].toId in s.accounts)
    && (forall k :: k in s.assetTransfers ==>
          && RecordKey(k, s.assetTransfers[k].id, s.assetTransfers[k].blockNumber)
          && s.assetTransfers[k].fromId in s.accounts
          && s.assetTransfers[k].toId in s.accounts)
    && (forall k :: k in s.assetIssues ==>
          && RecordKey(k, s.assetIssues[k].id, s.assetIssues[k].blockNumber)
          && s.assetIssues[k].ownerId in s.accounts)
    && (forall k :: k in s.stakes ==>
          && RecordKey(k, s.stakes[k].id, s.stakes[k].blockNumber)
          && s.stakes[k].whoId in s.accounts)
  }

  /** The empty store satisfies the invariant. */
  lemma EmptyStoreValid()
    ensures Valid(Store(map[], map[], map[], map[], map[]))
  {
  }
}
