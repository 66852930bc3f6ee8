/** Base64 with the standard alphabet and padding (section 4 of RFC 4648), and the strict decoder
    that accepts nothing but what the encoder writes. */
module Base64 {
  import opened Wrappers
  import opened Utf8

  const PAD: bv16 := 0x3d

  // ----- The alphabet -----

  function Letter(sextet: bv8): bv16
    requires sextet < 64
  {
    if sextet < 26 then 0x41 + sextet as bv16
    else if sextet < 52 then 0x61 + (sextet - 26) as bv16
    else if sextet < 62 then 0x30 + (sextet - 52) as bv16
    else if sextet == 62 then 0x2b
    else 0x2f
  }

  predicate IsLetter(c: bv16) {
    0x41 <= c <= 0x5a || 0x61 <= c <= 0x7a || 0x30 <= c <= 0x39 || c == 0x2b || c == 0x2f
  }

  function Sextet(c: bv16): (s: bv8)
    requires IsLetter(c)
  {
    if 0x41 <= c <= 0x5a then (c - 0x41) as bv8
    else if 0x61 <= c <= 0x7a then (c - 0x61 + 26) as bv8
    else if 0x30 <= c <= 0x39 then (c - 0x30 + 52) as bv8
    else if c == 0x2b then 62
    else 63
  }

  lemma LetterRoundTrip(sextet: bv8)
    requires sextet < 64
    ensures IsLetter(Letter(sextet)) && Sextet(Letter(sextet)) == sextet && Letter(sextet) != PAD
  {
  }

  // ----- Three bytes as four letters -----

  function First(a: bv8): (s: bv8)
    ensures s < 64
  {
    a >> 2
  }

  function Second(a: bv8, b: bv8): (s: bv8)
    ensures s < 64
  {
    ((a & 3) << 4) | (b >> 4)
  }

  function Third(b: bv8, c: bv8): (s: bv8)
    ensures s < 64
  {
    ((b & 15) << 2) | (c >> 6)
  }

  function Fourth(c: bv8): (s: bv8)
    ensures s < 64
  {
    c & 63
  }

  function Byte0(s: bv8, t: bv8): bv8 {
    (s << 2) | (t >> 4)
  }

  function Byte1(t: bv8, u: bv8): bv8 {
    ((t & 15) << 4) | (u >> 2)
  }

  function Byte2(u: bv8, v: bv8): bv8 {
    ((u & 3) << 6) | v
  }

  lemma GroupRoundTrip(a: bv8, b: bv8, c: bv8)
    ensures Byte0(First(a), Second(a, b)) == a
    ensures Byte1(Second(a, b), Third(b, c)) == b
    ensures Byte2(Third(b, c), Fourth(c)) == c
  {
  }

  function Encode(bytes: seq<bv8>): (text: Text)
    ensures |text| == 4 * ((|bytes| + 2) / 3)
  {
    if bytes == [] then []
    else if |bytes| == 1 then [Letter(First(bytes[0])), Letter(Second(bytes[0], 0)), PAD, PAD]
    else if |bytes| == 2 then
      [Letter(First(bytes[0])), Letter(Second(bytes[0], bytes[1])), Letter(Third(bytes[1], 0)), PAD]
    else
      [Letter(First(bytes[0])), Letter(Second(bytes[0], bytes[1])), Letter(Third(bytes[1], bytes[2])), Letter(Fourth(bytes[2]))]
      + Encode(bytes[3..])
  }

  /** Groups of four letters, the last of which may end in one or two pads. */
  predicate IsBase64(text: Text) {
    if text == [] then true
    else
      |text| >= 4 && IsLetter(text[0]) && IsLetter(text[1])
      && ((|text| == 4 && text[3] == PAD && (text[2] == PAD || IsLetter(text[2])))
          || (IsLetter(text[2]) && IsLetter(text[3]) && IsBase64(text[4..])))
  }

  /** The lenient decoder drops the bits that do not make up a byte. */
  function Lenient(text: Text): seq<bv8>
    requires IsBase64(text)
  {
    if text == [] then []
    else
      var s, t := Sextet(text[0]), Sextet(text[1]);
      if !IsLetter(text[2]) then [Byte0(s, t)]
      else if !IsLetter(text[3]) then [Byte0(s, t), Byte1(t, Sextet(text[2]))]
      else [Byte0(s, t), Byte1(t, Sextet(text[2])), Byte2(Sextet(text[2]), Sextet(text[3]))] + Lenient(text[4..])
  }

  /** The strict decoder: well-formed, and encoded again it is the same text. */
  function Decode(text: Text): Option<seq<bv8>> {
    if |text| % 4 != 0 || !IsBase64(text) then None
    else
      var decoded := Lenient(text);
      if Encode(decoded) != text then None else Some(decoded)
  }

  lemma PadIsNoLetter()
    ensures !IsLetter(PAD)
  {
  }

  lemma {:induction false} LenientRoundTrip(bytes: seq<bv8>)
    ensures IsBase64(Encode(bytes)) && Lenient(Encode(bytes)) == bytes
  {
    PadIsNoLetter();
    if bytes == [] {
    } else if |bytes| == 1 {
      ShortGroup(bytes[0], 0);
    } else if |bytes| == 2 {
      ShortGroup(bytes[0], bytes[1]);
    } else {
      FullGroup(bytes[0], bytes[1], bytes[2]);
      LenientRoundTrip(bytes[3..]);
      hide Letter, Sextet, IsLetter, First, Second, Third, Fourth, Byte0, Byte1, Byte2;
      var text := Encode(bytes);
      assert text[4..] == Encode(bytes[3..]);
      assert bytes == [bytes[0], bytes[1], bytes[2]] + bytes[3..];
    }
  }

  lemma {:induction false} FullGroup(a: bv8, b: bv8, c: bv8)
    ensures IsLetter(Letter(First(a))) && Sextet(Letter(First(a))) == First(a)
    ensures IsLetter(Letter(Second(a, b))) && Sextet(Letter(Second(a, b))) == Second(a, b)
    ensures IsLetter(Letter(Third(b, c))) && Sextet(Letter(Third(b, c))) == Third(b, c)
    ensures IsLetter(Letter(Fourth(c))) && Sextet(Letter(Fourth(c))) == Fourth(c)
    ensures Byte0(First(a), Second(a, b)) == a && Byte1(Second(a, b), Third(b, c)) == b && Byte2(Third(b, c), Fourth(c)) == c
  {
    hide Letter, Sextet, IsLetter, First, Second, Third, Fourth, Byte0, Byte1, Byte2;
    LetterRoundTrip(First(a));
    LetterRoundTrip(Second(a, b));
    LetterRoundTrip(Third(b, c));
    LetterRoundTrip(Fourth(c));
    GroupRoundTrip(a, b, c);
  }

  lemma {:induction false} ShortGroup(a: bv8, b: bv8)
    ensures var text := [Letter(First(a)), Letter(Second(a, b)), Letter(Third(b, 0)), PAD];
            IsBase64(text) && Lenient(text) == [a, b]
    ensures var text := [Letter(First(a)), Letter(Second(a, 0)), PAD, PAD]; IsBase64(text) && Lenient(text) == [a]
  {
    PadIsNoLetter();
    FullGroup(a, b, 0);
    FullGroup(a, 0, 0);
    hide Letter, Sextet, IsLetter, First, Second, Third, Fourth, Byte0, Byte1, Byte2;
  }

  /** The strict decoder inverts the encoder, and accepts exactly what the encoder writes. */
  lemma {:induction false} DecodeInvertsEncode(text: Text, bytes: seq<bv8>)
    ensures Decode(text) == Some(bytes) <==> text == Encode(bytes)
  {
    LenientRoundTrip(bytes);
    assert |Encode(bytes)| % 4 == 0;
  }

  /** Different byte strings have different encodings. */
  lemma {:induction false} EncodeIsInjective(a: seq<bv8>, b: seq<bv8>)
    requires Encode(a) == Encode(b)
    ensures a == b
  {
    LenientRoundTrip(a);
    LenientRoundTrip(b);
  }
}
