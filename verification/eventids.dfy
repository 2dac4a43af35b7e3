/** Record ids: every event record is keyed by `"{blockNumber}-{idx}"`, the
    block height and the event's index within its block, both in decimal. */
module EventIds {
  import opened Results
  import opened Ascii
  import opened Decimal

  /** The id is decimal digits with exactly one `-`, which sits right
      after the block height's digits. */
  function RecordId(blockNumber: nat, idx: nat): (id: string)
    ensures forall i :: 0 <= i < |id| ==> (id[i] == '-' <==> i == |NatToString(blockNumber)|)
    ensures forall i :: 0 <= i < |id| && id[i] != '-' ==> IsDigit(id[i])
  {
    NatToString(blockNumber) + "-" + NatToString(idx)
  }

  /** Reads an id back into its block height and event index: the text before
      the first `-` and the text after it must both be decimal numbers. */
  function SplitRecordId(id: string): Option<(nat, nat)> {
    match FirstIndexOf(id, '-')
    case None => None
    case Some(k) =>
      match ParseDigits(id[..k])
      case None => None
      case Some(b) =>
        match ParseDigits(id[k + 1..])
        case None => None
        case Some(i) => Some((b, i))
  }

  /** Splitting a record id recovers the pair it was made from. */
  lemma SplitRecordIdRoundTrip(blockNumber: nat, idx: nat)
    ensures SplitRecordId(RecordId(blockNumber, idx)) == Some((blockNumber, idx))
  {
    var head := NatToString(blockNumber);
    var tail := NatToString(idx);
    var id := RecordId(blockNumber, idx);
    NatToStringHasOnlyDigits(blockNumber, '-');
    FirstIndexAfterPrefix(head, '-', tail);
    assert id[..|head|] == head;
    assert id[|head| + 1..] == tail;
    ParseDigitsOfNat(blockNumber);
    ParseDigitsOfNat(idx);
  }

  /** Distinct (block, index) pairs give distinct record ids. */
  lemma RecordIdInjective(b1: nat, i1: nat, b2: nat, i2: nat)
    requires RecordId(b1, i1) == RecordId(b2, i2)
    ensures b1 == b2 && i1 == i2
  {
    SplitRecordIdRoundTrip(b1, i1);
    SplitRecordIdRoundTrip(b2, i2);
  }
}
