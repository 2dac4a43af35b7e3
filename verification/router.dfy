/** The four handlers behind one entry point, and what holds of any event
    they handle: which accounts it touches, that records are never
    overwritten by a later event, and how the touch stamps evolve when events
    arrive in chain order. */
module Router {
  import opened Results
  import opened Ascii
  import opened EventIds
  import opened Entities
  import opened Resolver
  import opened Handlers
  import opened HandlerEffects

  /** The events the indexer subscribes to, with their payloads. */
  datatype Event =
    | BalancesTransferEvent(transfer: TransferPayload)
    | AssetTransferredEvent(assetTransfer: AssetTransferredPayload)
    | AssetIssuedEvent(issue: AssetIssuedPayload)
    | LiquidStakingStakedEvent(stake: StakedPayload)

  /** The addresses an event names, in the order they are resolved. */
  function Participants(ev: Event): (r: seq<string>)
    ensures 1 <= |r| <= 2
  {
    match ev
    case BalancesTransferEvent(p) => [p.from, p.to]
    case AssetTransferredEvent(p) => [p.from, p.to]
    case AssetIssuedEvent(p) => [p.owner]
    case LiquidStakingStakedEvent(p) => [p.who]
  }

  /** The account keys an event touches. */
  function TouchedKeys(ev: Event): (r: set<string>)
    ensures forall i :: 0 <= i < |Participants(ev)| ==> Lower(Participants(ev)[i]) in r
    ensures forall k :: k in r ==>
      k == Lower(Participants(ev)[0]) || k == Lower(Participants(ev)[|Participants(ev)| - 1])
  {
    match ev
    case BalancesTransferEvent(p) => {Lower(p.from), Lower(p.to)}
    case AssetTransferredEvent(p) => {Lower(p.from), Lower(p.to)}
    case AssetIssuedEvent(p) => {Lower(p.owner)}
    case LiquidStakingStakedEvent(p) => {Lower(p.who)}
  }

  function Handle(s: Store, ev: Event, ctx: EventContext, decode: Decoder): Result<Store>
    requires Valid(s)
  {
    match ev
    case BalancesTransferEvent(p) => HandleBalancesTransfer(s, p, ctx, decode)
    case AssetTransferredEvent(p) => HandleAssetTransferred(s, p, ctx, decode)
    case AssetIssuedEvent(p) => HandleAssetIssued(s, p, ctx, decode)
    case LiquidStakingStakedEvent(p) => HandleLiquidStakingStaked(s, p, ctx, decode)
  }

  /** The record tables of `s` and `s'` agree at key `k`. */
  ghost predicate SameRecordsAt(s: Store, s': Store, k: string) {
    && (k in s.transfers ==> k in s'.transfers && s'.transfers[k] == s.transfers[k])
    && (k in s.assetTransfers ==> k in s'.assetTransfers && s'.assetTransfers[k] == s.assetTransfers[k])
    && (k in s.assetIssues ==> k in s'.assetIssues && s'.assetIssues[k] == s.assetIssues[k])
    && (k in s.stakes ==> k in s'.stakes && s'.stakes[k] == s.stakes[k])
  }

  /** Every address of `ps` has been stamped with `blockNumber`. */
  ghost predicate AllTouched(before: map<string, Account>, after: map<string, Account>, ps: seq<string>, blockNumber: nat) {
    forall i :: 0 <= i < |ps| ==> Touched(before, after, ps[i], blockNumber)
  }

  /** Any handled event fails exactly when one of its participants is new
      and the codec refuses its address. */
  lemma HandleFailsIff(s: Store, ev: Event, ctx: EventContext, decode: Decoder)
    requires Valid(s)
    ensures Handle(s, ev, ctx, decode).Err? <==>
      exists i :: 0 <= i < |Participants(ev)| && ResolveFails(s.accounts, Participants(ev)[i], decode)
  {
    var ps := Participants(ev);
    if Handle(s, ev, ctx, decode).Err? {
      match ev
      case BalancesTransferEvent(p) =>
        if ResolveFails(s.accounts, p.from, decode) { assert ps[0] == p.from; } else { assert ps[1] == p.to; }
      case AssetTransferredEvent(p) =>
        if ResolveFails(s.accounts, p.from, decode) { assert ps[0] == p.from; } else { assert ps[1] == p.to; }
      case AssetIssuedEvent(p) =>
        assert ps[0] == p.owner;
      case LiquidStakingStakedEvent(p) =>
        assert ps[0] == p.who;
    }
  }

  /** A successfully handled event keeps the store invariant. */
  lemma HandleKeepsValid(s: Store, ev: Event, ctx: EventContext, decode: Decoder)
    requires Valid(s)
    ensures Handle(s, ev, ctx, decode).Ok? ==> Valid(Handle(s, ev, ctx, decode).value)
  {
    match ev
    case BalancesTransferEvent(p) =>
      BalancesTransferPreservesValid(s, p, ctx, decode);
    case AssetTransferredEvent(p) =>
      AssetTransferredPreservesValid(s, p, ctx, decode);
    case AssetIssuedEvent(p) =>
      AssetIssuedPreservesValid(s, p, ctx, decode);
    case LiquidStakingStakedEvent(p) =>
      LiquidStakingStakedPreservesValid(s, p, ctx, decode);
  }

  /** A successfully handled event stamps every participant with the event's
      block and keeps each participant's first block and public key. */
  lemma HandleTouchesParticipants(s: Store, ev: Event, ctx: EventContext, decode: Decoder)
    requires Valid(s)
    ensures Handle(s, ev, ctx, decode).Ok? ==>
      AllTouched(s.accounts, Handle(s, ev, ctx, decode).value.accounts, Participants(ev), ctx.blockNumber)
  {
    match ev
    case BalancesTransferEvent(p) =>
      BalancesTransferAccounts(s, p, ctx, decode);
    case AssetTransferredEvent(p) =>
      AssetTransferredAccounts(s, p, ctx, decode);
    case AssetIssuedEvent(p) =>
      AssetIssuedAccounts(s, p, ctx, decode);
    case LiquidStakingStakedEvent(p) =>
      LiquidStakingStakedAccounts(s, p, ctx, decode);
  }

  /** A successfully handled event writes the participants' accounts and no
      other account. */
  lemma HandleWritesOnlyParticipants(s: Store, ev: Event, ctx: EventContext, decode: Decoder)
    requires Valid(s)
    ensures Handle(s, ev, ctx, decode).Ok? ==>
      AccountsWritten(s.accounts, Handle(s, ev, ctx, decode).value.accounts, TouchedKeys(ev))
  {
    match ev
    case BalancesTransferEvent(p) =>
      BalancesTransferAccounts(s, p, ctx, decode);
    case AssetTransferredEvent(p) =>
      AssetTransferredAccounts(s, p, ctx, decode);
    case AssetIssuedEvent(p) =>
      AssetIssuedAccounts(s, p, ctx, decode);
    case LiquidStakingStakedEvent(p) =>
      LiquidStakingStakedAccounts(s, p, ctx, decode);
  }

  /** A successfully handled event writes no record other than the one under
      its own id. */
  lemma HandleWritesOnlyItsRecord(s: Store, ev: Event, ctx: EventContext, decode: Decoder, k: string)
    requires Valid(s)
    requires k != ContextRecordId(ctx)
    ensures Handle(s, ev, ctx, decode).Ok? ==> SameRecordsAt(s, Handle(s, ev, ctx, decode).value, k)
  {
  }

  /** A record written for one event survives the handling of any event at a
      different (block, index) position. */
  lemma RecordsAreNeverOverwritten(
    s: Store, ev: Event, ctx: EventContext, decode: Decoder, earlier: EventContext)
    requires Valid(s)
    requires (earlier.blockNumber, earlier.idx) != (ctx.blockNumber, ctx.idx)
    ensures Handle(s, ev, ctx, decode).Ok? ==> SameRecordsAt(s, Handle(s, ev, ctx, decode).value, ContextRecordId(earlier))
  {
    if ContextRecordId(earlier) == ContextRecordId(ctx) {
      RecordIdInjective(earlier.blockNumber, earlier.idx, ctx.blockNumber, ctx.idx);
    }
    HandleWritesOnlyItsRecord(s, ev, ctx, decode, ContextRecordId(earlier));
  }

  /** Every stored account has been stamped, was first seen no later than it
      was last touched, and was last touched no later than block `b`. */
  ghost predicate Chronological(s: Store, b: nat) {
    forall k :: k in s.accounts ==>
      && s.accounts[k].lastTransferBlock.Some?
      && s.accounts[k].firstTransferBlock <= s.accounts[k].lastTransferBlock.value <= b
  }

  /** Handling events in chain order (non-decreasing block heights) keeps
      every account's first block at or before its last. */
  lemma HandleKeepsChronology(s: Store, ev: Event, ctx: EventContext, decode: Decoder, b: nat)
    requires Valid(s) && Chronological(s, b) && b <= ctx.blockNumber
    ensures Handle(s, ev, ctx, decode).Ok? ==> Chronological(Handle(s, ev, ctx, decode).value, ctx.blockNumber)
  {
    if Handle(s, ev, ctx, decode).Ok? {
      var s' := Handle(s, ev, ctx, decode).value;
      HandleTouchesParticipants(s, ev, ctx, decode);
      HandleWritesOnlyParticipants(s, ev, ctx, decode);
      forall k | k in s'.accounts
        ensures s'.accounts[k].lastTransferBlock.Some?
        ensures s'.accounts[k].firstTransferBlock <= s'.accounts[k].lastTransferBlock.value <= ctx.blockNumber
      {
        if k in TouchedKeys(ev) {
          var i := if k == Lower(Participants(ev)[0]) then 0 else |Participants(ev)| - 1;
          assert AllTouched(s.accounts, s'.accounts, Participants(ev), ctx.blockNumber);
          assert Touched(s.accounts, s'.accounts, Participants(ev)[i], ctx.blockNumber);
        }
      }
    }
  }

  /** An address first seen at one event and seen again, in any letter case,
      at a later one: its account keeps the first block and carries the
      later block as its last. (`Valid(s1)` is what `HandleKeepsValid`
      guarantees of the intermediate store.) */
  lemma SeenTwice(
    s: Store, ev1: Event, ctx1: EventContext, s1: Store, ev2: Event, ctx2: EventContext, s2: Store,
    decode: Decoder, i: nat, j: nat)
    requires Valid(s) && Valid(s1)
    requires i < |Participants(ev1)| && j < |Participants(ev2)|
    requires Lower(Participants(ev1)[i]) !in s.accounts
    requires TextSameUpToCase(Participants(ev1)[i], Participants(ev2)[j])
    ensures Handle(s, ev1, ctx1, decode) == Ok(s1) && Handle(s1, ev2, ctx2, decode) == Ok(s2) ==>
      var k := Lower(Participants(ev1)[i]);
      && k in s2.accounts
      && s2.accounts[k].firstTransferBlock == ctx1.blockNumber
      && s2.accounts[k].lastTransferBlock == Some(ctx2.blockNumber)
  {
    HandleTouchesParticipants(s, ev1, ctx1, decode);
    HandleTouchesParticipants(s1, ev2, ctx2, decode);
    if Handle(s, ev1, ctx1, decode) == Ok(s1) && Handle(s1, ev2, ctx2, decode) == Ok(s2) {
      assert Touched(s.accounts, s1.accounts, Participants(ev1)[i], ctx1.blockNumber);
      assert Touched(s1.accounts, s2.accounts, Participants(ev2)[j], ctx2.blockNumber);
    }
    LowerEqualIffSameUpToCase(Participants(ev1)[i], Participants(ev2)[j]);
  }
}
