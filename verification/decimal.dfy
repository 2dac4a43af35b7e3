/** Decimal text: how JavaScript renders a non-negative integer (template
    literals and `toString`), its inverse, and the text form of a byte array
    (`Uint8Array.prototype.toString`, the decimal bytes joined by commas). */
module Decimal {
  import opened Results
  import opened Ascii

  newtype byte = x: int | 0 <= x < 256

  predicate IsDigit(c: char) {
    '0' <= c <= '9'
  }

  predicate IsDigitText(s: string) {
    forall i :: 0 <= i < |s| ==> IsDigit(s[i])
  }

  function DigitChar(d: nat): char
    requires d < 10
  {
    ('0' as int + d) as char
  }

  function DigitValue(c: char): nat
    requires IsDigit(c)
  {
    c as int - '0' as int
  }

  /** The canonical decimal form of `n`: at least one digit, nothing but
      digits, and no leading zero. */
  function NatToString(n: nat): (s: string)
    ensures |s| > 0 && IsDigitText(s)
    ensures s[0] == '0' ==> n == 0 && |s| == 1
  {
    if n < 10 then [DigitChar(n)] else NatToString(n / 10) + [DigitChar(n % 10)]
  }

  /** The value of a string of digits, most significant first. */
  function ParseNat(s: string): nat
    requires IsDigitText(s)
  {
    if s == [] then 0 else ParseNat(s[..|s| - 1]) * 10 + DigitValue(s[|s| - 1])
  }

  /** Parsing the decimal form of `n` gives `n` back. */
  lemma {:induction false} ParseNatToString(n: nat)
    ensures ParseNat(NatToString(n)) == n
  {
    if n >= 10 {
      var s := NatToString(n);
      assert s[..|s| - 1] == NatToString(n / 10);
      ParseNatToString(n / 10);
    }
  }

  /** Distinct numbers have distinct decimal forms. */
  lemma NatToStringInjective(m: nat, n: nat)
    requires NatToString(m) == NatToString(n)
    ensures m == n
  {
    ParseNatToString(m);
    ParseNatToString(n);
  }

  /** A decimal number has no sign, no separator and no letter. */
  lemma NatToStringHasOnlyDigits(n: nat, c: char)
    requires !IsDigit(c)
    ensures c !in NatToString(n)
  {
  }

  /** A non-empty string of digits, read as a number; `None` otherwise. */
  function ParseDigits(s: string): (r: Option<nat>)
    ensures r.Some? <==> |s| > 0 && IsDigitText(s)
  {
    if |s| > 0 && IsDigitText(s) then Some(ParseNat(s)) else None
  }

  lemma ParseDigitsOfNat(n: nat)
    ensures ParseDigits(NatToString(n)) == Some(n)
  {
    ParseNatToString(n);
  }

  /** `Uint8Array.prototype.toString`: the bytes in decimal, joined by `,`;
      the empty array gives the empty string. */
  function ByteListText(bs: seq<byte>): (s: string)
    ensures IsByteListChars(s)
    ensures |bs| > 0 ==> |s| > 0
  {
    if bs == [] then [] else ByteItemsText(bs)
  }

  function ByteItemsText(bs: seq<byte>): (s: string)
    requires |bs| > 0
    ensures |s| > 0 && IsByteListChars(s)
  {
    if |bs| == 1 then NatToString(bs[0] as nat)
    else NatToString(bs[0] as nat) + [','] + ByteItemsText(bs[1..])
  }

  /** Every character of a byte list's text is a digit or a comma. */
  predicate IsByteListChars(s: string) {
    forall i :: 0 <= i < |s| ==> IsDigit(s[i]) || s[i] == ','
  }

  /** Reads back a comma-separated list of decimal bytes. */
  function ParseByteList(s: string): Option<seq<byte>> {
    if s == [] then Some([]) else ParseByteItems(s)
  }

  function ParseByte(s: string): Option<byte> {
    match ParseDigits(s)
    case Some(v) => if v < 256 then Some(v as byte) else None
    case None => None
  }

  function ParseByteItems(s: string): Option<seq<byte>>
    decreases |s|
  {
    match FirstIndexOf(s, ',')
    case None =>
      (match ParseByte(s)
       case Some(b) => Some([b])
       case None => None)
    case Some(k) =>
      match ParseByte(s[..k])
      case None => None
      case Some(b) =>
        match ParseByteItems(s[k + 1..])
        case None => None
        case Some(rest) => Some([b] + rest)
  }

  lemma ParseByteOfByte(b: byte)
    ensures ParseByte(NatToString(b as nat)) == Some(b)
  {
    ParseDigitsOfNat(b as nat);
  }

  lemma {:induction false} ParseByteItemsText(bs: seq<byte>)
    requires |bs| > 0
    ensures ParseByteItems(ByteItemsText(bs)) == Some(bs)
  {
    var head := NatToString(bs[0] as nat);
    ParseByteOfByte(bs[0]);
    NatToStringHasOnlyDigits(bs[0] as nat, ',');
    if |bs| == 1 {
      assert ByteItemsText(bs) == head;
      assert FirstIndexOf(head, ',') == None;
      assert [bs[0]] == bs;
    } else {
      var tail := ByteItemsText(bs[1..]);
      var s := head + [','] + tail;
      FirstIndexAfterPrefix(head, ',', tail);
      assert s[..|head|] == head;
      assert s[|head| + 1..] == tail;
      ParseByteItemsText(bs[1..]);
      assert [bs[0]] + bs[1..] == bs;
    }
  }

  /** The text of a byte array determines the array: parsing it gives the
      bytes back, so distinct arrays have distinct texts. */
  lemma ParseByteListText(bs: seq<byte>)
    ensures ParseByteList(ByteListText(bs)) == Some(bs)
  {
    if bs != [] {
      ParseByteItemsText(bs);
    }
  }

  /** Lower-casing the text of a byte array changes nothing: it holds only
      digits and commas. */
  lemma LowerOfByteListText(bs: seq<byte>)
    ensures Lower(ByteListText(bs)) == ByteListText(bs)
  {
    var s := ByteListText(bs);
    assert IsLowerText(s) by {
      forall i | 0 <= i < |s|
        ensures !IsUpper(s[i])
      {
        assert IsDigit(s[i]) || s[i] == ',';
      }
    }
    LowerOfLowerText(s);
  }
}
