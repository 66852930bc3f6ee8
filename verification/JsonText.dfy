/** The JSON text of a request, byte by byte, and that its length is the one that the budget is compared
    with. */
module JsonText {
  import opened Wrappers
  import Utf8
  import opened HttpEnvelope

  /** A digit of a hexadecimal number, in lower case. */
  function Hex(d: bv16): bv8
    requires d < 16
  {
    if d < 10 then 0x30 + d as bv8 else 0x57 + d as bv8
  }

  /** A code unit as "\\u" and four digits. */
  function Escaped(unit: bv16): (s: seq<bv8>)
    ensures |s| == 6
  {
    [0x5c, 0x75, Hex(unit >> 12), Hex((unit >> 8) & 15), Hex((unit >> 4) & 15), Hex(unit & 15)]
  }

  /** The letter that stands for a character after a backslash, if there is one. */
  function Letter(unit: bv16): Option<bv8> {
    if unit == 0x22 then Some(0x22)
    else if unit == 0x5c then Some(0x5c)
    else if unit == 8 then Some(0x62)
    else if unit == 9 then Some(0x74)
    else if unit == 10 then Some(0x6e)
    else if unit == 12 then Some(0x66)
    else if unit == 13 then Some(0x72)
    else None
  }

  /** The first character of a text inside a JSON string. */
  function FirstQuoted(text: Utf8.Text): seq<bv8>
    requires text != []
  {
    var unit := text[0];
    if Letter(unit).Some? then [0x5c, Letter(unit).value]
    else if unit < 0x20 then Escaped(unit)
    else if 0xd800 <= unit <= 0xdfff && Utf8.FirstPoint(text).1 == 1 then Escaped(unit)
    else
      Utf8.FirstPointIsScalar(text);
      Utf8.EncodePoint(Utf8.FirstPoint(text).0)
  }

  function Inside(text: Utf8.Text): seq<bv8>
    decreases |text|
  {
    if text == [] then [] else FirstQuoted(text) + Inside(text[Utf8.FirstPoint(text).1..])
  }

  function Quoted(text: Utf8.Text): seq<bv8> {
    [0x22] + Inside(text) + [0x22]
  }

  /** The characters of a number, one byte each. */
  function Plain(text: Utf8.Text): (s: seq<bv8>)
    ensures |s| == |text|
  {
    if text == [] then [] else [(text[0] & 0x7f) as bv8] + Plain(text[1..])
  }

  const NULL_TEXT: seq<bv8> := [0x6e, 0x75, 0x6c, 0x6c]
  const TRUE_TEXT: seq<bv8> := [0x74, 0x72, 0x75, 0x65]
  const FALSE_TEXT: seq<bv8> := [0x66, 0x61, 0x6c, 0x73, 0x65]

  /** What `JSON.stringify` writes, without spaces. */
  function Serialize(j: Json): seq<bv8>
    decreases j
  {
    match j
    case JNull => NULL_TEXT
    case JBool(truth) => if truth then TRUE_TEXT else FALSE_TEXT
    case JNumber(n) => Plain(Decimal(n))
    case JString(text) => Quoted(text)
    case JArray(items) => [0x5b] + SerializeItems(j, |items|) + [0x5d]
    case JObject(members) => [0x7b] + SerializeMembers(j, |members|) + [0x7d]
  }

  /** The first k items with commas between them. */
  function SerializeItems(j: Json, k: nat): seq<bv8>
    requires j.JArray? && k <= |j.items|
    decreases j, k
  {
    if k == 0 then [] else SerializeItems(j, k - 1) + (if k > 1 then [0x2c] else []) + Serialize(j.items[k - 1])
  }

  function SerializeMembers(j: Json, k: nat): seq<bv8>
    requires j.JObject? && k <= |j.members|
    decreases j, k
  {
    if k == 0 then []
    else
      SerializeMembers(j, k - 1) + (if k > 1 then [0x2c] else [])
      + Quoted(j.members[k - 1].name) + [0x3a] + Serialize(j.members[k - 1].value)
  }

  // ----- Lengths -----

  lemma {:induction false} FirstQuotedLength(text: Utf8.Text)
    requires text != []
    ensures |FirstQuoted(text)| == QuotedPoint(text)
  {
    hide Utf8.EncodePoint, Utf8.FirstPoint, Escaped;
    LettersAreTwo(text[0]);
  }

  lemma LettersAreTwo(unit: bv16)
    ensures Letter(unit).Some? <==> unit == 0x22 || unit == 0x5c || (8 <= unit <= 10) || unit == 12 || unit == 13
  {
  }

  lemma {:induction false} InsideLength(text: Utf8.Text)
    ensures |Inside(text)| == QuotedLength(text)
    decreases |text|
  {
    hide Utf8.FirstPoint, FirstQuoted, QuotedPoint;
    if text != [] {
      FirstQuotedLength(text);
      InsideLength(text[Utf8.FirstPoint(text).1..]);
    }
  }

  /** The length that the model of the envelope gives a JSON value is that of its text. */
  lemma {:induction false} LengthIsOfText(j: Json)
    ensures |Serialize(j)| == JsonLength(j)
    decreases j
  {
    hide Inside, QuotedLength, Decimal;
    match j
    case JString(text) => InsideLength(text);
    case JArray(items) => ItemsLengthIsOfText(j, |items|);
    case JObject(members) => MembersLengthIsOfText(j, |members|);
    case _ =>
  }

  lemma {:induction false} ItemsLengthIsOfText(j: Json, k: nat)
    requires j.JArray? && k <= |j.items|
    ensures |SerializeItems(j, k)| == ItemsLength(j, k) + if k > 0 then k - 1 else 0
    decreases j, k
  {
    hide Serialize, JsonLength;
    if k > 0 {
      ItemsLengthIsOfText(j, k - 1);
      LengthIsOfText(j.items[k - 1]);
    }
  }

  lemma {:induction false} MembersLengthIsOfText(j: Json, k: nat)
    requires j.JObject? && k <= |j.members|
    ensures |SerializeMembers(j, k)| == MembersLength(j, k) + if k > 0 then k - 1 else 0
    decreases j, k
  {
    hide Serialize, JsonLength, Inside, QuotedLength;
    if k > 0 {
      MembersLengthIsOfText(j, k - 1);
      LengthIsOfText(j.members[k - 1].value);
      InsideLength(j.members[k - 1].name);
    }
  }

  /** A request refused for its size is truly too large: with more room, the bytes it would be sent as are
      more than allowed. */
  lemma {:induction false} RefusedRequestsAreTooLong(commands: seq<Value>, maxBytes: nat, ample: nat)
    requires EncodeCommands(commands, maxBytes) == Failure(OverBudget) && EncodeCommands(commands, ample).Success?
    ensures |Serialize(EncodeCommands(commands, ample).value)| > maxBytes
  {
    hide EncodeCommands, Serialize, JsonLength;
    RequestRejectionIsJustified(commands, maxBytes, ample);
    LengthIsOfText(EncodeCommands(commands, ample).value);
  }
}
