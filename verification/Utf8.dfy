/** UTF-16 text and its UTF-8 encoding (section 3 of RFC 3629). */
module Utf8 {
  import opened Wrappers

  /** Text as the language sees it: 16-bit code units, surrogates included. */
  type Text = seq<bv16>

  const REPLACEMENT: bv32 := 0xfffd

  predicate IsHighSurrogate(unit: bv32) {
    0xd800 <= unit <= 0xdbff
  }

  predicate IsLowSurrogate(unit: bv32) {
    0xdc00 <= unit <= 0xdfff
  }

  function Combine(high: bv32, low: bv32): bv32 {
    0x1_0000 + ((high - 0xd800) << 10) + low - 0xdc00
  }

  /** The first character of a text and the number of units it takes; a surrogate without its
      partner stands for U+FFFD. */
  function FirstPoint(text: Text): (r: (bv32, nat))
    requires text != []
    ensures 0 < r.1 <= |text|
  {
    var first := text[0] as bv32;
    if IsHighSurrogate(first) then
      if |text| > 1 && IsLowSurrogate(text[1] as bv32) then (Combine(first, text[1] as bv32), 2) else (REPLACEMENT, 1)
    else if IsLowSurrogate(first) then (REPLACEMENT, 1)
    else (first, 1)
  }

  predicate IsScalar(point: bv32) {
    point < 0xd800 || 0xe000 <= point < 0x11_0000
  }

  function Points(text: Text): seq<bv32>
    decreases |text|
  {
    if text == [] then []
    else
      var (point, used) := FirstPoint(text);
      [point] + Points(text[used..])
  }

  // The bytes of a multi-byte character: a lead that says how many, then six bits at a time.

  function Lead2(point: bv32): bv8
    requires point < 0x800
  {
    (0xc0 | (point >> 6)) as bv8
  }

  function Lead3(point: bv32): bv8
    requires point < 0x1_0000
  {
    (0xe0 | (point >> 12)) as bv8
  }

  function Lead4(point: bv32): bv8
    requires point < 0x11_0000
  {
    (0xf0 | (point >> 18)) as bv8
  }

  function Tail12(point: bv32): bv8 {
    (0x80 | ((point >> 12) & 0x3f)) as bv8
  }

  function Tail6(point: bv32): bv8 {
    (0x80 | ((point >> 6) & 0x3f)) as bv8
  }

  function Tail0(point: bv32): bv8 {
    (0x80 | (point & 0x3f)) as bv8
  }

  function EncodePoint(point: bv32): (bytes: seq<bv8>)
    requires point < 0x11_0000
    ensures 1 <= |bytes| <= 4
  {
    if point < 0x80 then [point as bv8]
    else if point < 0x800 then [Lead2(point), Tail0(point)]
    else if point < 0x1_0000 then [Lead3(point), Tail6(point), Tail0(point)]
    else [Lead4(point), Tail12(point), Tail6(point), Tail0(point)]
  }

  lemma CombineIsScalar(high: bv32, low: bv32)
    requires IsHighSurrogate(high) && IsLowSurrogate(low)
    ensures 0x1_0000 <= Combine(high, low) < 0x11_0000
  {
  }

  lemma {:induction false} FirstPointIsScalar(text: Text)
    requires text != []
    ensures IsScalar(FirstPoint(text).0)
  {
    var first := text[0] as bv32;
    if IsHighSurrogate(first) && |text| > 1 && IsLowSurrogate(text[1] as bv32) { CombineIsScalar(first, text[1] as bv32); }
  }

  /** The UTF-8 encoding of a text. */
  function Encode(text: Text): seq<bv8>
    decreases |text|
  {
    if text == [] then []
    else
      var (point, used) := FirstPoint(text);
      FirstPointIsScalar(text);
      EncodePoint(point) + Encode(text[used..])
  }

  // ----- Reading UTF-8 back -----

  predicate IsContinuation(b: bv8) {
    b & 0xc0 == 0x80
  }

  /** The number of bytes that a lead byte announces; none for a byte that cannot lead. */
  function Announced(b: bv8): nat {
    if b < 0x80 then 1
    else if b & 0xe0 == 0xc0 then 2
    else if b & 0xf0 == 0xe0 then 3
    else if b & 0xf8 == 0xf0 then 4
    else 0
  }

  function Low6(b: bv8): bv32 {
    (b & 0x3f) as bv32
  }

  function Join2(a: bv8, b: bv8): bv32 {
    ((a & 0x1f) as bv32 << 6) | Low6(b)
  }

  function Join3(a: bv8, b: bv8, c: bv8): bv32 {
    ((a & 0x0f) as bv32 << 12) | (Low6(b) << 6) | Low6(c)
  }

  function Join4(a: bv8, b: bv8, c: bv8, d: bv8): bv32 {
    ((a & 0x07) as bv32 << 18) | (Low6(b) << 12) | (Low6(c) << 6) | Low6(d)
  }

  /** The character at the start of a byte sequence, which must be the shortest form of a scalar
      value, and the number of bytes it takes. */
  function DecodePoint(s: seq<bv8>): (r: Option<(bv32, nat)>)
    ensures r.Some? ==> 0 < r.value.1 <= |s|
  {
    if s == [] then None
    else
      match Announced(s[0])
      case 1 => Some((s[0] as bv32, 1))
      case 2 => if |s| > 1 && IsContinuation(s[1]) then Checked(Join2(s[0], s[1]), 0x80, 2) else None
      case 3 =>
        if |s| > 2 && IsContinuation(s[1]) && IsContinuation(s[2]) then Checked(Join3(s[0], s[1], s[2]), 0x800, 3) else None
      case 4 =>
        if |s| > 3 && IsContinuation(s[1]) && IsContinuation(s[2]) && IsContinuation(s[3])
        then Checked(Join4(s[0], s[1], s[2], s[3]), 0x1_0000, 4) else None
      case _ => None
  }

  function Checked(point: bv32, least: bv32, used: nat): (r: Option<(bv32, nat)>)
    ensures r.Some? ==> r.value.1 == used
  {
    if least <= point && IsScalar(point) then Some((point, used)) else None
  }

  function Decode(s: seq<bv8>): Option<seq<bv32>>
    decreases |s|
  {
    if s == [] then Some([])
    else
      match DecodePoint(s)
      case None => None
      case Some(first) =>
        match Decode(s[first.1..])
        case None => None
        case Some(rest) => Some([first.0] + rest)
  }

  lemma OneByte(point: bv32)
    requires point < 0x80
    ensures Announced(point as bv8) == 1 && (point as bv8) as bv32 == point
  {
  }

  lemma TwoBytes(point: bv32)
    requires 0x80 <= point < 0x800
    ensures Announced(Lead2(point)) == 2 && IsContinuation(Tail0(point)) && Join2(Lead2(point), Tail0(point)) == point
  {
  }

  lemma ThreeBytes(point: bv32)
    requires 0x800 <= point < 0x1_0000
    ensures Announced(Lead3(point)) == 3 && IsContinuation(Tail6(point)) && IsContinuation(Tail0(point))
    ensures Join3(Lead3(point), Tail6(point), Tail0(point)) == point
  {
  }

  lemma FourBytes(point: bv32)
    requires 0x1_0000 <= point < 0x11_0000
    ensures Announced(Lead4(point)) == 4
    ensures IsContinuation(Tail12(point)) && IsContinuation(Tail6(point)) && IsContinuation(Tail0(point))
    ensures Join4(Lead4(point), Tail12(point), Tail6(point), Tail0(point)) == point
  {
  }

  /** Whatever follows, the encoding of a scalar value is read back as that value. */
  lemma {:induction false} PointRoundTrip(point: bv32, rest: seq<bv8>)
    requires IsScalar(point)
    ensures DecodePoint(EncodePoint(point) + rest) == Some((point, |EncodePoint(point)|))
  {
    hide IsContinuation, Low6, Announced, Lead2, Lead3, Lead4, Tail0, Tail6, Tail12, Join2, Join3, Join4;
    if point < 0x80 {
      OneByte(point);
    } else if point < 0x800 {
      TwoBytes(point);
    } else if point < 0x1_0000 {
      ThreeBytes(point);
    } else {
      FourBytes(point);
    }
  }

  /** Decoding the encoding of any text gives its characters, lone surrogates replaced. */
  lemma {:induction false} EncodeRoundTrip(text: Text)
    ensures Decode(Encode(text)) == Some(Points(text))
    decreases |text|
  {
    if text != [] {
      var (point, used) := FirstPoint(text);
      FirstPointIsScalar(text);
      var rest := Encode(text[used..]);
      PointRoundTrip(point, rest);
      assert (EncodePoint(point) + rest)[|EncodePoint(point)|..] == rest;
      EncodeRoundTrip(text[used..]);
    }
  }

  // ----- ASCII text -----

  predicate IsAscii(text: Text) {
    forall i | 0 <= i < |text| :: text[i] < 0x80
  }

  function Narrow(unit: bv16): bv8 {
    if unit < 0x80 then unit as bv8 else 0xff
  }

  function Narrowed(text: Text): (s: seq<bv8>)
    requires IsAscii(text)
    ensures |s| == |text| && forall i | 0 <= i < |s| :: s[i] == Narrow(text[i])
  {
    seq(|text|, i requires 0 <= i < |text| => Narrow(text[i]))
  }

  lemma AsciiPoint(point: bv32)
    requires point < 0x11_0000
    ensures point < 0x80 ==> EncodePoint(point) == [point as bv8]
    ensures point >= 0x80 ==> EncodePoint(point)[0] >= 0x80
  {
  }

  lemma {:induction false} AsciiUnit(text: Text)
    requires text != []
    ensures text[0] < 0x80 ==> FirstPoint(text) == (text[0] as bv32, 1)
    ensures text[0] >= 0x80 ==> 0x80 <= FirstPoint(text).0 < 0x11_0000
  {
    if text[0] >= 0x80 { FirstPointIsScalar(text); }
    if IsHighSurrogate(text[0] as bv32) && |text| > 1 && IsLowSurrogate(text[1] as bv32) {
      CombineIsScalar(text[0] as bv32, text[1] as bv32);
    }
  }

  lemma {:induction false} AsciiEncodes(text: Text)
    ensures IsAscii(text) ==> Encode(text) == Narrowed(text)
    ensures !IsAscii(text) ==> exists i :: 0 <= i < |Encode(text)| && Encode(text)[i] >= 0x80
    decreases |text|
  {
    if text != [] {
      AsciiUnit(text);
      FirstPointIsScalar(text);
      hide FirstPoint, EncodePoint, IsScalar;
      if text[0] < 0x80 {
        AsciiPoint(text[0] as bv32);
        AsciiEncodes(text[1..]);
        var rest := Encode(text[1..]);
        assert Encode(text) == [Narrow(text[0])] + rest;
        AsciiTail(text);
        if !IsAscii(text) {
          var i :| 0 <= i < |rest| && rest[i] >= 0x80;
          assert Encode(text)[i + 1] >= 0x80;
        }
      } else {
        AsciiPoint(FirstPoint(text).0);
        assert Encode(text)[0] >= 0x80;
      }
    }
  }

  lemma {:induction false} AsciiTail(text: Text)
    requires text != [] && text[0] < 0x80
    ensures IsAscii(text) <==> IsAscii(text[1..])
    ensures IsAscii(text) ==> Narrowed(text) == [Narrow(text[0])] + Narrowed(text[1..])
  {
    if IsAscii(text[1..]) {
      forall i | 0 <= i < |text|
        ensures text[i] < 0x80
      {
        if i > 0 { assert text[i] == text[1..][i - 1]; }
      }
    }
    if IsAscii(text) {
      assert forall i | 0 <= i < |text| - 1 :: text[1..][i] == text[i + 1];
    }
  }
}
