/** Automatic partitions are named `__flow_auto__:<bucket>`; a name may come as text, which is
    matched by a regular expression, or as bytes, which are scanned by a loop. */
module FlowAutoBucket {
  import opened Wrappers
  import opened Utf8

  /** The text "__flow_auto__:". */
  const AUTO_PREFIX: seq<bv8> :=
    [0x5f, 0x5f, 0x66, 0x6c, 0x6f, 0x77, 0x5f, 0x61, 0x75, 0x74, 0x6f, 0x5f, 0x5f, 0x3a]

  const ZERO: bv8 := 0x30
  const NINE: bv8 := 0x39

  predicate IsDigit(b: bv8) {
    ZERO <= b <= NINE
  }

  function DigitValue(b: bv8): nat {
    if IsDigit(b) then (b - ZERO) as nat else 0
  }

  function Number(digits: seq<bv8>): nat {
    if digits == [] then 0 else Number(digits[..|digits| - 1]) * 10 + DigitValue(digits[|digits| - 1])
  }

  /** A zero, or up to three digits that do not start with one. */
  predicate IsBucketNumeral(s: seq<bv8>) {
    1 <= |s| <= 3 && (forall i | 0 <= i < |s| :: IsDigit(s[i])) && (|s| > 1 ==> s[0] != ZERO)
  }

  /** What the regular expression `^__flow_auto__:(0|[1-9]\d{0,2})$` and the bound of 256 accept. */
  function BucketOf(s: seq<bv8>): Option<nat> {
    if !(AUTO_PREFIX <= s) || !IsBucketNumeral(s[|AUTO_PREFIX|..]) then None
    else
      var bucket := Number(s[|AUTO_PREFIX|..]);
      if bucket < 256 then Some(bucket) else None
  }

  /** The pattern is all ASCII, so a text that is not does not match it. */
  function BucketOfText(text: Text): Option<nat> {
    if IsAscii(text) then BucketOf(Narrowed(text)) else None
  }

  /** The byte form: prefix, length, leading zero, then digit by digit. */
  method FlowAutoBucketOfBytes(value: seq<bv8>) returns (bucket: Option<nat>)
    ensures bucket == BucketOf(value)
  {
    hide IsDigit, DigitValue;
    var digitCount := |value| - |AUTO_PREFIX|;
    if digitCount < 1 || digitCount > 3 { return None; }
    for index := 0 to |AUTO_PREFIX|
      invariant forall i | 0 <= i < index :: value[i] == AUTO_PREFIX[i]
    {
      if value[index] != AUTO_PREFIX[index] { return None; }
    }
    ghost var digits := value[|AUTO_PREFIX|..];
    if digitCount > 1 && value[|AUTO_PREFIX|] == ZERO {
      assert digits[0] == ZERO;
      return None;
    }
    var number := 0;
    for index := |AUTO_PREFIX| to |value|
      invariant number == Number(digits[..index - |AUTO_PREFIX|])
      invariant forall i | 0 <= i < index - |AUTO_PREFIX| :: IsDigit(digits[i])
    {
      ghost var k := index - |AUTO_PREFIX|;
      assert digits[k] == value[index] && digits[..k + 1][..k] == digits[..k];
      var digit := ReadDigit(value[index]);
      if digit.None? { return None; }
      number := number * 10 + digit.value;
    }
    assert digits[..|digits|] == digits;
    return if number < 256 then Some(number) else None;
  }

  method ReadDigit(b: bv8) returns (digit: Option<nat>)
    ensures digit == if IsDigit(b) then Some(DigitValue(b)) else None
  {
    if b < ZERO || b > NINE { return None; }
    return Some((b - ZERO) as nat);
  }

  // ----- Text and bytes agree -----

  lemma {:induction false} BucketIsAscii(s: seq<bv8>)
    requires BucketOf(s).Some?
    ensures forall i | 0 <= i < |s| :: s[i] < 0x80
  {
    forall i | 0 <= i < |s|
      ensures s[i] < 0x80
    {
      if i < |AUTO_PREFIX| {
        assert s[i] == AUTO_PREFIX[i];
        PrefixIsAscii(i);
      } else {
        assert s[i] == s[|AUTO_PREFIX|..][i - |AUTO_PREFIX|];
      }
    }
  }

  lemma PrefixIsAscii(i: nat)
    requires i < |AUTO_PREFIX|
    ensures AUTO_PREFIX[i] < 0x80
  {
  }

  /** A text and its UTF-8 bytes name the same bucket, or neither names one. */
  lemma {:induction false} TextAndBytesAgree(text: Text)
    ensures BucketOfText(text) == BucketOf(Encode(text))
  {
    AsciiEncodes(text);
    if !IsAscii(text) && BucketOf(Encode(text)).Some? { BucketIsAscii(Encode(text)); }
  }
}
