# parallel-accounts: account resolution and event mapping

This project models the SubQuery mapping of a Substrate chain indexer. The
indexer watches four kinds of chain events: `balances.Transfer`,
`assets.Transferred`, `assets.Issued` and `liquidStaking.Staked`. It projects
each event into an `Account` table and one fact table per event kind.

The model covers the whole of `src/mappings/mappingHandlers.ts`:

- `checkAndGetAccount` becomes `Resolver.Resolve`. It looks up the lower-cased
  address. If the account is missing, it builds one whose public key is the
  text of the decoded address bytes.
- The four handlers become pure store transitions in module `Handlers`. Each
  resolves its participants, stamps them with the block height, builds one
  record keyed `"{blockNumber}-{idx}"`, and saves the accounts and the record.

The store is an immutable value (`Entities.Store`). It has one map per table,
each keyed by entity id. A save is a map update. Saves happen in the order the
handler lists them. A handler either returns the new store or returns
`Err(DecodeError(address))`. Every save comes after every resolution, so an
error leaves the store as it was.

Three collaborators are modelled rather than run:

- **Address codec.** `decodeAddress` is the `Decoder` parameter. It maps an
  address to its public-key bytes, or to `None` where the codec throws.
- **Byte-array text.** `Uint8Array.prototype.toString` is written out as
  `Decimal.ByteListText`: the bytes in decimal, joined by commas.
- **Lower-casing.** `toLowerCase` is `Ascii.Lower`. It maps ASCII `A`-`Z` to
  `a`-`z` and leaves every other character alone.

Modules: `Results` (Option, Result, errors), `Ascii` (lower-casing),
`Decimal` (number and byte-array text), `EventIds` (record ids), `Entities`
(entities, store, store invariant), `Resolver`, `Handlers`, `HandlerEffects`
(account effects and invariant preservation), `Router` (one entry point for
all four events and the properties across events), `Scenarios` (worked
examples).

Two observations from the model:

- Record ids are strings, so they do not sort in chain order: `"10-0"` comes
  before `"9-0"`. What the model proves is that the id determines its
  (block, index) pair (`EventIds.SplitRecordIdRoundTrip`).
- `toLowerCase` on the public-key text never changes anything, because the
  text holds only digits and commas (`Decimal.LowerOfByteListText`).

## Model

| member | source | states |
|---|---|---|
| `Ascii.Lower` | src/mappings/mappingHandlers.ts:148-152 | lower-casing keeps the length, maps each character on its own, and leaves no upper-case ASCII letter |
| `Ascii.LowerEqualIffSameUpToCase` | src/mappings/mappingHandlers.ts:148-152 | two addresses get the same account key exactly when they differ only in ASCII letter case (both directions) |
| `Ascii.LowerIdempotent` | src/mappings/mappingHandlers.ts:152 | an account id, already lower-case, is its own key |
| `Decimal.NatToString` | src/mappings/mappingHandlers.ts:39 | JavaScript's rendering of a block height or event index: at least one character, decimal digits only, no leading zero |
| `Decimal.ByteListText` | src/mappings/mappingHandlers.ts:153 | `Uint8Array.prototype.toString` of the decoded key: only digits and commas, non-empty for a non-empty array |
| `EventIds.RecordId` | src/mappings/mappingHandlers.ts:39 | the record id template `"{block}-{idx}"` (also at lines 72, 103 and 132): decimal digits with exactly one `-`, placed right after the block height's digits |
| `Decimal.ParseNatToString` | src/mappings/mappingHandlers.ts:39 | the decimal text of a block height or event index reads back as that number |
| `Decimal.NatToStringInjective` | src/mappings/mappingHandlers.ts:39 | distinct numbers have distinct decimal texts |
| `Decimal.ParseByteListText` | src/mappings/mappingHandlers.ts:153 | the public-key text (comma-joined decimal bytes) reads back as the decoded bytes, so it determines them |
| `Decimal.LowerOfByteListText` | src/mappings/mappingHandlers.ts:153 | lower-casing the public-key text leaves it unchanged |
| `EventIds.SplitRecordIdRoundTrip` | src/mappings/mappingHandlers.ts:39 | a record id `"{block}-{idx}"` splits back into its block height and event index |
| `EventIds.RecordIdInjective` | src/mappings/mappingHandlers.ts:72 | distinct (block, index) pairs give distinct record ids |
| `Resolver.Resolve` | src/mappings/mappingHandlers.ts:144-158 | resolution fails exactly when the lower-cased address is absent and the codec refuses the address as given; a stored account is returned unchanged; a new one has id = lower-cased address, first block = current block, no stamp yet, and a public key that is exactly the comma-joined decimal text of the bytes decoded from the address as given, which reads back as those bytes |
| `Resolver.ResolveIdIsCanonical` | src/mappings/mappingHandlers.ts:148-152 | in a well-formed store the resolved account's id is the lower-cased address |
| `Resolver.ResolveCaseInsensitive` | src/mappings/mappingHandlers.ts:148-152 | addresses differing only in case resolve to the same stored account, or to new accounts with the same id |
| `Resolver.ResolveIgnoresDecoderWhenPresent` | src/mappings/mappingHandlers.ts:148-149 | the codec is not consulted for a stored account: any two codecs give the same result |
| `Handlers.HandleBalancesTransfer` | src/mappings/mappingHandlers.ts:18-51 | fails exactly when `from` or `to` is new and undecodable, reporting `from` first; on success writes exactly one Transfer under `"{block}-{idx}"` with `fromId`/`toId` the lower-cased addresses and the payload amount; leaves every other record and table as it was |
| `Handlers.HandleAssetTransferred` | src/mappings/mappingHandlers.ts:54-84 | as for a transfer, with an AssetTransferred record carrying the payload `assetId` and no amount |
| `Handlers.HandleAssetIssued` | src/mappings/mappingHandlers.ts:86-113 | fails exactly when the owner is new and undecodable; on success writes exactly one AssetIssued record carrying `assetId` and the lower-cased owner id, and nothing else among records |
| `Handlers.HandleLiquidStakingStaked` | src/mappings/mappingHandlers.ts:115-141 | fails exactly when the staker is new and undecodable; on success writes exactly one LiquidStakingStaked record carrying the lower-cased `whoId`, and nothing else among records |
| `HandlerEffects.TwoParticipantsWritten` | src/mappings/mappingHandlers.ts:47-50 | saving `from` then `to`, both stamped, stamps both keys, keeps each one's stored first block and public key, and writes no other account; when both share a key the later save remains |
| `HandlerEffects.BalancesTransferAccounts` | src/mappings/mappingHandlers.ts:34-50 | after a transfer both participants carry `lastTransferBlock` = block, keep their first block and public key if known, get first block = block and the decoded bytes' text as public key if new, and no other account changes |
| `HandlerEffects.AssetTransferredAccounts` | src/mappings/mappingHandlers.ts:67-83 | the same account effect for an asset transfer |
| `HandlerEffects.AssetIssuedAccounts` | src/mappings/mappingHandlers.ts:99-112 | the owner is stamped, keeps what the store knew about it or, if new, gets first block = block and the decoded bytes' text as public key, and no other account changes |
| `HandlerEffects.LiquidStakingStakedAccounts` | src/mappings/mappingHandlers.ts:128-140 | the staker is stamped, keeps what the store knew about it or, if new, gets first block = block and the decoded bytes' text as public key, and no other account changes |
| `HandlerEffects.BalancesTransferPreservesValid` | src/mappings/mappingHandlers.ts:38-50 | a transfer keeps the store invariant: keyed, lower-case, stamped accounts; records keyed by ids that read back as their block; every referenced account present |
| `HandlerEffects.AssetTransferredPreservesValid` | src/mappings/mappingHandlers.ts:71-83 | an asset transfer keeps the store invariant |
| `HandlerEffects.AssetIssuedPreservesValid` | src/mappings/mappingHandlers.ts:102-112 | an asset issue keeps the store invariant |
| `HandlerEffects.LiquidStakingStakedPreservesValid` | src/mappings/mappingHandlers.ts:131-140 | a staking event keeps the store invariant |
| `HandlerEffects.ContextRecordIdIsKey` | src/mappings/mappingHandlers.ts:103 | an event's record id reads back as the event's block height |
| `Router.HandleFailsIff` | src/mappings/mappingHandlers.ts:144-158 | any event fails exactly when one of its participants is new and its address undecodable |
| `Router.HandleKeepsValid` | src/mappings/mappingHandlers.ts:18-141 | every handler keeps the store invariant |
| `Router.HandleTouchesParticipants` | src/mappings/mappingHandlers.ts:47-48 | every participant of a handled event is stamped with the event's block |
| `Router.HandleWritesOnlyParticipants` | src/mappings/mappingHandlers.ts:50 | a handled event writes the participants' accounts and no other account |
| `Router.HandleWritesOnlyItsRecord` | src/mappings/mappingHandlers.ts:83 | a handled event leaves every record key other than its own id as it was, in every table |
| `Router.RecordsAreNeverOverwritten` | src/mappings/mappingHandlers.ts:132 | a record survives the handling of any event at a different (block, index) position |
| `Router.HandleKeepsChronology` | src/mappings/mappingHandlers.ts:139 | handling events in non-decreasing block order keeps first block <= last block <= current block for every account |
| `Router.SeenTwice` | src/mappings/mappingHandlers.ts:148-157 | an address first seen at block B1 and seen again at block B2, in any letter case, ends with first block B1 and last block B2 |
| `Scenarios.TransferBetweenNewAccounts` | src/mappings/mappingHandlers.ts:26-50 | a transfer of 1000 at block 100, index 2, from "5A" to "5B" creates accounts "5a" and "5b" first and last seen at 100, and Transfer "100-2" |
| `Scenarios.IssueToNewOwner` | src/mappings/mappingHandlers.ts:92-112 | issuing asset 7 at block 50, index 0, to "5C" creates account "5c" and AssetIssued "50-0" |
| `Scenarios.MalformedAddressAborts` | src/mappings/mappingHandlers.ts:153 | an address the codec refuses aborts the event with a decode error |
| `Scenarios.KnownAccountRestamped` | src/mappings/mappingHandlers.ts:128-140 | a known account seen again as "5C" keeps its first block and public key and only moves its stamp |

## Left out

- `handleBlock` and `handleCall` (lines 10-16) have empty bodies, so there is nothing to model.
- `logger.info` calls are observational logging and are not in the data path.
- `Promise.all` saves are modelled as sequential map writes that all succeed. Concurrent completion, store failures and the non-atomic partial-failure state belong to the host.
- `HandlerEffects.TwoParticipantsWritten`: when `from` and `to` lower-case to the same new key, the model keeps `to`'s account (its public key). In the source, the host's save completion order decides which one remains.
- `decodeAddress` internals (SS58/base58 decoding) are a foreign library, so the codec is a parameter.
- polkadot-js conversions (`toNumber`, `toBigInt`, `Number(assetId.toString())`) are not modelled. Payload values are unbounded naturals. The 2^53 precision limit of `Number` and the 128-bit balance range, which the code never checks, are not modelled.
- `Decimal.NatToString` is plain decimal. JavaScript switches to exponential notation at 10^21, far above any block height.
- `event.block.timestamp` (a `Date` in the host) is modelled as an opaque number copied into `date`.
- Unicode `toLowerCase` is not modelled: lower-casing is ASCII only.
- Positional payload destructuring is not modelled: payloads are typed, so a payload of the wrong shape cannot be expressed.
- The `amount` fields that are commented out in three handlers are not recorded, as in the code.
