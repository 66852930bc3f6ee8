/** Which command values can be encoded: those that are not nested too deeply and whose cost is within the
    budget, with depth and cost told of the value alone. */
module HttpEnvelopeLimits {
  import opened Wrappers
  import Utf8
  import opened HttpEnvelope
  import Base64

  function Max(a: nat, b: nat): nat {
    if a < b then b else a
  }

  /** How many values are nested inside one another below this one; the names of a record are values. */
  function Height(v: Value): nat
    decreases v
  {
    match v
    case List(items) => ItemsHeight(v, |items|)
    case Map(entries) => EntriesHeight(v, |entries|)
    case Record(fields) => FieldsHeight(v, |fields|)
    case _ => 0
  }

  function ItemsHeight(v: Value, k: nat): nat
    requires v.List? && k <= |v.items|
    decreases v, k
  {
    if k == 0 then 0 else Max(ItemsHeight(v, k - 1), 1 + Height(v.items[k - 1]))
  }

  function EntriesHeight(v: Value, k: nat): nat
    requires v.Map? && k <= |v.entries|
    decreases v, k
  {
    if k == 0 then 0
    else Max(EntriesHeight(v, k - 1), 1 + Max(Height(v.entries[k - 1].key), Height(v.entries[k - 1].value)))
  }

  function FieldsHeight(v: Value, k: nat): nat
    requires v.Record? && k <= |v.fields|
    decreases v, k
  {
    if k == 0 then 0 else Max(FieldsHeight(v, k - 1), 1 + Height(v.fields[k - 1].value))
  }

  /** The number of bytes of a text in UTF-8, and its quotes. */
  function Quoted(text: Utf8.Text): nat {
    |Utf8.Encode(text)| + 2
  }

  /** What a value costs: one for a literal, the bytes of a text and its quotes, the brackets and commas of
      a list, the marker of a map or of bytes, and what the values in it cost. */
  function Cost(v: Value): nat
    decreases v
  {
    match v
    case Str(text) => Quoted(text)
    case Bytes(bytes) => 25 + 4 * ((|bytes| + 2) / 3)
    case Big(n) => if -9007199254740991 <= n <= 9007199254740991 then 1 else Quoted(Decimal(n))
    case List(items) => if items == [] then 2 else 1 + |items| + ItemsCost(v, |items|)
    case Map(entries) => 23 + |entries| + EntriesCost(v, |entries|)
    case Record(fields) => 23 + |fields| + FieldsCost(v, |fields|)
    case _ => 1
  }

  function ItemsCost(v: Value, k: nat): nat
    requires v.List? && k <= |v.items|
    decreases v, k
  {
    if k == 0 then 0 else ItemsCost(v, k - 1) + Cost(v.items[k - 1])
  }

  function EntriesCost(v: Value, k: nat): nat
    requires v.Map? && k <= |v.entries|
    decreases v, k
  {
    if k == 0 then 0 else EntriesCost(v, k - 1) + Cost(v.entries[k - 1].key) + Cost(v.entries[k - 1].value)
  }

  function FieldsCost(v: Value, k: nat): nat
    requires v.Record? && k <= |v.fields|
    decreases v, k
  {
    if k == 0 then 0 else FieldsCost(v, k - 1) + Quoted(v.fields[k - 1].name) + Cost(v.fields[k - 1].value)
  }

  /** Encoding succeeds if the condition holds, and takes the cost out of the budget. */
  ghost predicate Takes<T>(r: Result<(T, nat), Error>, budget: nat, fits: bool, cost: nat) {
    && (r.Success? <==> fits && cost <= budget)
    && (r.Success? ==> r.value.1 == budget - cost)
  }

  /** A value at some depth is encoded exactly when nothing in it is deeper than 64 and it costs no more
      than is left of the budget, which is lowered by exactly that. */
  lemma {:induction false} EncodesExactly(v: Value, depth: nat, budget: nat)
    ensures Takes(EncodeJson(v, depth, budget), budget, depth + Height(v) <= 64, Cost(v))
    decreases v
  {
    hide Utf8.Encode, Decimal;
    if depth <= 64 && OwnCost(v) <= budget {
      var left := budget - OwnCost(v);
      match v
      case List(items) => ItemsExactly(v, |items|, depth, left);
      case Map(entries) => EntriesExactly(v, |entries|, depth, left);
      case Record(fields) => FieldsExactly(v, |fields|, depth, left);
      case _ =>
    }
  }

  lemma {:induction false} ItemsExactly(v: Value, k: nat, depth: nat, budget: nat)
    requires v.List? && k <= |v.items| && depth <= 64
    ensures Takes(EncodeItems(v, k, depth + 1, budget), budget, depth + ItemsHeight(v, k) <= 64, ItemsCost(v, k))
    decreases v, k
  {
    hide EncodeJson, Height, Cost;
    if k > 0 {
      ItemsExactly(v, k - 1, depth, budget);
      var before := EncodeItems(v, k - 1, depth + 1, budget);
      EncodesExactly(v.items[k - 1], depth + 1, if before.Success? then before.value.1 else 0);
    }
  }

  lemma {:induction false} EntriesExactly(v: Value, k: nat, depth: nat, budget: nat)
    requires v.Map? && k <= |v.entries| && depth <= 64
    ensures Takes(EncodeEntries(v, k, depth + 1, budget), budget, depth + EntriesHeight(v, k) <= 64, EntriesCost(v, k))
    decreases v, k
  {
    hide EncodeJson, Height, Cost;
    if k > 0 {
      EntriesExactly(v, k - 1, depth, budget);
      var before := EncodeEntries(v, k - 1, depth + 1, budget);
      var left := if before.Success? then before.value.1 else 0;
      EncodesExactly(v.entries[k - 1].key, depth + 1, left);
      var key := EncodeJson(v.entries[k - 1].key, depth + 1, left);
      EncodesExactly(v.entries[k - 1].value, depth + 1, if key.Success? then key.value.1 else 0);
    }
  }

  lemma {:induction false} FieldsExactly(v: Value, k: nat, depth: nat, budget: nat)
    requires v.Record? && k <= |v.fields| && depth <= 64
    ensures Takes(EncodeFields(v, k, depth + 1, budget), budget, depth + FieldsHeight(v, k) <= 64, FieldsCost(v, k))
    decreases v, k
  {
    hide Utf8.Encode, EncodeJson, Height, Cost;
    if k > 0 {
      FieldsExactly(v, k - 1, depth, budget);
      var before := EncodeFields(v, k - 1, depth + 1, budget);
      var name := EncodeName(v.fields[k - 1].name, depth + 1, if before.Success? then before.value.1 else 0);
      EncodesExactly(v.fields[k - 1].value, depth + 1, if name.Success? then name.value.1 else 0);
    }
  }

  /** A request is encoded exactly when each of its commands is no deeper than 64 and all of them together
      cost no more than the limit. */
  lemma {:induction false} RequestEncodesExactly(commands: seq<Value>, maxBytes: nat)
    ensures EncodeCommands(commands, maxBytes).Success?
            <==> (forall i | 0 <= i < |commands| :: Height(commands[i]) <= 64) && ItemsCost(List(commands), |commands|) <= maxBytes
  {
    CommandsExactly(List(commands), |commands|, maxBytes);
  }

  lemma {:induction false} CommandsExactly(v: Value, k: nat, budget: nat)
    requires v.List? && k <= |v.items|
    ensures Takes(EncodeItems(v, k, 0, budget), budget, forall i | 0 <= i < k :: Height(v.items[i]) <= 64, ItemsCost(v, k))
    decreases k
  {
    hide EncodeJson, Height, Cost;
    if k > 0 {
      CommandsExactly(v, k - 1, budget);
      var before := EncodeItems(v, k - 1, 0, budget);
      EncodesExactly(v.items[k - 1], 0, if before.Success? then before.value.1 else 0);
    }
  }

  // ----- Decimal texts -----

  /** The integer that a text of digits stands for. */
  function Read(text: Utf8.Text): int {
    if text == [] then 0 else Read(text[..|text| - 1]) * 10 + (text[|text| - 1] as int - 0x30)
  }

  predicate IsNumeral(text: Utf8.Text) {
    && text != [] && (forall i | 0 <= i < |text| :: 0x30 <= text[i] <= 0x39)
    && (|text| > 1 ==> text[0] != 0x30)
  }

  lemma DigitIsRead(d: nat)
    requires d < 10
    ensures 0x30 <= Digit(d) <= 0x39 && Digit(d) as int - 0x30 == d && (Digit(d) == 0x30 <==> d == 0)
  {
  }

  lemma {:induction false} DigitsAreRead(n: nat)
    ensures IsNumeral(Digits(n)) && Read(Digits(n)) == n && (n > 0 ==> Digits(n)[0] != 0x30)
  {
    hide Digit;
    DigitIsRead(n % 10);
    if n < 10 {
      assert Digits(n)[..0] == [];
    } else {
      DigitsAreRead(n / 10);
      var front := Digits(n / 10);
      assert Digits(n)[..|front|] == front;
      assert Digits(n)[0] == front[0];
    }
  }

  /** A bigint beyond the safe range travels as its decimal text: the digits stand for it, without leading
      zeros, after a sign if it is negative. */
  lemma {:induction false} DecimalIsRead(n: int)
    ensures n >= 0 ==> IsNumeral(Decimal(n)) && Read(Decimal(n)) == n
    ensures n < 0 ==> Decimal(n)[0] == 0x2d && IsNumeral(Decimal(n)[1..]) && Read(Decimal(n)[1..]) == -n
  {
    DigitsAreRead(if n < 0 then -n else n);
    if n < 0 { assert Decimal(n)[1..] == Digits(-n); }
  }

  // ----- The envelope -----

  /** A text is this string of ASCII characters. */
  predicate Spells(text: Utf8.Text, s: string) {
    |text| == |s| && forall i | 0 <= i < |s| :: text[i] as int == s[i] as int
  }

  lemma EncodingNameIsSpelled()
    ensures Spells(ENCODING_NAME, "encoding") && Spells(COMMANDS_NAME, "commands")
  {
  }

  lemma EncodingIsSpelledFirst(i: nat)
    requires i < 9
    ensures ENCODING[i] as int == "ferricstore-json-v1"[i] as int
  {
  }

  lemma EncodingIsSpelledSecond(i: nat)
    requires 9 <= i < 19
    ensures ENCODING[i] as int == "ferricstore-json-v1"[i] as int
  {
  }

  lemma {:induction false} EncodingIsSpelled()
    ensures Spells(ENCODING, "ferricstore-json-v1")
  {
    forall i | 0 <= i < 19
      ensures ENCODING[i] as int == "ferricstore-json-v1"[i] as int
    {
      if i < 9 { EncodingIsSpelledFirst(i); } else { EncodingIsSpelledSecond(i); }
    }
  }

  lemma BytesMarkerIsSpelledFirst(i: nat)
    requires i < 9
    ensures BYTES_MARKER[i] as int == "$ferricstore_bytes"[i] as int
  {
  }

  lemma BytesMarkerIsSpelledSecond(i: nat)
    requires 9 <= i < 18
    ensures BYTES_MARKER[i] as int == "$ferricstore_bytes"[i] as int
  {
  }

  lemma {:induction false} BytesMarkerIsSpelled()
    ensures Spells(BYTES_MARKER, "$ferricstore_bytes")
  {
    forall i | 0 <= i < 18
      ensures BYTES_MARKER[i] as int == "$ferricstore_bytes"[i] as int
    {
      if i < 9 { BytesMarkerIsSpelledFirst(i); } else { BytesMarkerIsSpelledSecond(i); }
    }
  }

  lemma MapMarkerIsSpelledFirst(i: nat)
    requires i < 8
    ensures MAP_MARKER[i] as int == "$ferricstore_map"[i] as int
  {
  }

  lemma MapMarkerIsSpelledSecond(i: nat)
    requires 8 <= i < 16
    ensures MAP_MARKER[i] as int == "$ferricstore_map"[i] as int
  {
  }

  lemma {:induction false} MapMarkerIsSpelled()
    ensures Spells(MAP_MARKER, "$ferricstore_map")
  {
    forall i | 0 <= i < 16
      ensures MAP_MARKER[i] as int == "$ferricstore_map"[i] as int
    {
      if i < 8 { MapMarkerIsSpelledFirst(i); } else { MapMarkerIsSpelledSecond(i); }
    }
  }

  /** The JSON of this value, as far as some budget allows. */
  ghost predicate IsJsonOf(v: Value, j: Json) {
    exists budget :: EncodeJson(v, 0, budget).Success? && EncodeJson(v, 0, budget).value.0 == j
  }

  /** The body names its encoding and holds the commands in order, each encoded within what those before
      it have left of the budget. */
  lemma {:induction false} RequestHoldsCommands(commands: seq<Value>, maxBytes: nat)
    requires EncodeCommands(commands, maxBytes).Success?
    ensures var j := EncodeCommands(commands, maxBytes).value;
            && j.JObject? && |j.members| == 2
            && Spells(j.members[0].name, "encoding") && j.members[0].value.JString? && Spells(j.members[0].value.text, "ferricstore-json-v1")
            && Spells(j.members[1].name, "commands") && j.members[1].value.JArray? && |j.members[1].value.items| == |commands|
            && forall i | 0 <= i < |commands| :: IsJsonOf(commands[i], j.members[1].value.items[i])
  {
    EncodingNameIsSpelled();
    EncodingIsSpelled();
    hide EncodeJson, Spells, IsJsonOf;
    forall i: nat | i < |commands|
      ensures IsJsonOf(commands[i], EncodeItems(List(commands), |commands|, 0, maxBytes).value.0[i])
    {
      ItemIsEncoded(List(commands), |commands|, maxBytes, i);
    }
  }

  lemma {:induction false} ItemIsEncoded(v: Value, k: nat, budget: nat, i: nat)
    requires v.List? && i < k <= |v.items| && EncodeItems(v, k, 0, budget).Success?
    ensures IsJsonOf(v.items[i], EncodeItems(v, k, 0, budget).value.0[i])
    decreases k
  {
    hide EncodeJson;
    var before := EncodeItems(v, k - 1, 0, budget).value;
    if i < k - 1 {
      ItemIsEncoded(v, k - 1, budget, i);
    } else {
      assert EncodeJson(v.items[i], 0, before.1).Success?;
    }
  }

  // ----- Decoding -----

  /** An object with the one member that marks bytes, or a map. */
  predicate MarksBytes(j: Json) {
    j.JObject? && |j.members| == 1 && j.members[0].name == BYTES_MARKER && j.members[0].value.JString?
  }

  predicate MarksMap(j: Json) {
    j.JObject? && |j.members| == 1 && j.members[0].name == MAP_MARKER && j.members[0].value.JArray?
  }

  /** How many values are nested inside one another below this one; a marker and the pairs of a map are not
      values of their own. */
  function JsonHeight(j: Json): nat
    decreases j
  {
    if j.JArray? then JsonItemsHeight(j, |j.items|)
    else if MarksBytes(j) then 0
    else if MarksMap(j) then PairsHeight(j.members[0].value, |j.members[0].value.items|)
    else if j.JObject? then MembersHeight(j, |j.members|)
    else 0
  }

  function JsonItemsHeight(j: Json, k: nat): nat
    requires j.JArray? && k <= |j.items|
    decreases j, k
  {
    if k == 0 then 0 else Max(JsonItemsHeight(j, k - 1), 1 + JsonHeight(j.items[k - 1]))
  }

  predicate IsPair(j: Json) {
    j.JArray? && |j.items| == 2
  }

  function PairsHeight(j: Json, k: nat): nat
    requires j.JArray? && k <= |j.items|
    decreases j, k
  {
    if k == 0 then 0
    else
      var pair := j.items[k - 1];
      if IsPair(pair) then Max(PairsHeight(j, k - 1), 1 + Max(JsonHeight(pair.items[0]), JsonHeight(pair.items[1])))
      else PairsHeight(j, k - 1)
  }

  function MembersHeight(j: Json, k: nat): nat
    requires j.JObject? && k <= |j.members|
    decreases j, k
  {
    if k == 0 then 0 else Max(MembersHeight(j, k - 1), 1 + JsonHeight(j.members[k - 1].value))
  }

  predicate IsBase64Of(text: Utf8.Text, bytes: seq<bv8>) {
    text == Base64.Encode(bytes)
  }

  /** Everywhere in the value what is marked as bytes is what the encoder writes for some bytes, and what is
      marked as a map is a list of pairs. */
  ghost predicate WellMarked(j: Json)
    decreases j
  {
    if j.JArray? then forall i | 0 <= i < |j.items| :: WellMarked(j.items[i])
    else if MarksBytes(j) then exists bytes :: IsBase64Of(j.members[0].value.text, bytes)
    else if MarksMap(j) then
      forall i | 0 <= i < |j.members[0].value.items| ::
        var pair := j.members[0].value.items[i];
        IsPair(pair) && WellMarked(pair.items[0]) && WellMarked(pair.items[1])
    else if j.JObject? then forall i | 0 <= i < |j.members| :: WellMarked(j.members[i].value)
    else true
  }

  /** A value is decoded exactly when its markers are well-formed and nothing in it is deeper than 64. */
  lemma {:induction false} DecodesExactly(j: Json, depth: nat)
    ensures Decode(j, depth).Success? <==> depth + JsonHeight(j) <= 64 && WellMarked(j)
    decreases j
  {
    hide Base64.Encode, Base64.Decode;
    if depth <= 64 {
      if j.JArray? {
        DecodesItems(j, |j.items|, depth);
      } else if MarksBytes(j) {
        BytesExactly(j.members[0].value.text);
      } else if MarksMap(j) {
        DecodesPairs(j.members[0].value, |j.members[0].value.items|, depth);
      } else if j.JObject? {
        DecodesMembers(j, |j.members|, depth);
      }
    }
  }

  lemma {:induction false} BytesExactly(text: Utf8.Text)
    ensures Base64.Decode(text).Some? <==> exists bytes :: IsBase64Of(text, bytes)
  {
    hide Base64.Encode, Base64.Decode;
    forall bytes
      ensures Base64.Decode(text) == Some(bytes) <==> IsBase64Of(text, bytes)
    {
      Base64.DecodeInvertsEncode(text, bytes);
    }
    if Base64.Decode(text).Some? { assert Base64.Decode(text) == Some(Base64.Decode(text).value); }
  }

  lemma {:induction false} DecodesItems(j: Json, k: nat, depth: nat)
    requires j.JArray? && k <= |j.items| && depth <= 64
    ensures DecodeItems(j, k, depth + 1).Success?
            <==> depth + JsonItemsHeight(j, k) <= 64 && forall i | 0 <= i < k :: WellMarked(j.items[i])
    decreases j, k
  {
    hide Decode, JsonHeight, WellMarked;
    if k > 0 {
      DecodesItems(j, k - 1, depth);
      DecodesExactly(j.items[k - 1], depth + 1);
    }
  }

  lemma {:induction false} DecodesPairs(j: Json, k: nat, depth: nat)
    requires j.JArray? && k <= |j.items| && depth <= 64
    ensures DecodePairs(j, k, depth + 1).Success?
            <==> depth + PairsHeight(j, k) <= 64
                 && forall i | 0 <= i < k :: IsPair(j.items[i]) && WellMarked(j.items[i].items[0]) && WellMarked(j.items[i].items[1])
    decreases j, k
  {
    hide Decode, JsonHeight, WellMarked, MapSet;
    if k > 0 {
      DecodesPairs(j, k - 1, depth);
      if IsPair(j.items[k - 1]) {
        DecodesExactly(j.items[k - 1].items[0], depth + 1);
        DecodesExactly(j.items[k - 1].items[1], depth + 1);
      }
    }
  }

  lemma {:induction false} DecodesMembers(j: Json, k: nat, depth: nat)
    requires j.JObject? && k <= |j.members| && depth <= 64
    ensures DecodeMembers(j, k, depth + 1).Success?
            <==> depth + MembersHeight(j, k) <= 64 && forall i | 0 <= i < k :: WellMarked(j.members[i].value)
    decreases j, k
  {
    hide Decode, JsonHeight, WellMarked;
    if k > 0 {
      DecodesMembers(j, k - 1, depth);
      DecodesExactly(j.members[k - 1].value, depth + 1);
    }
  }

  /** An object without a marker is a record with its members, in order. */
  lemma {:induction false} ObjectsAreRecords(j: Json, depth: nat, i: nat)
    requires j.JObject? && !MarksBytes(j) && !MarksMap(j) && Decode(j, depth).Success? && i < |j.members|
    ensures var v := Decode(j, depth).value;
            && v.Record? && |v.fields| == |j.members| && v.fields[i].name == j.members[i].name
            && Decode(j.members[i].value, depth + 1) == Success(v.fields[i].value)
  {
    hide Base64.Encode, Base64.Decode;
    MemberAt(j, |j.members|, depth + 1, i);
  }

  lemma {:induction false} MemberAt(j: Json, k: nat, depth: nat, i: nat)
    requires j.JObject? && i < k <= |j.members| && DecodeMembers(j, k, depth).Success?
    ensures var fields := DecodeMembers(j, k, depth).value;
            && |fields| == k && fields[i].name == j.members[i].name && Decode(j.members[i].value, depth) == Success(fields[i].value)
    decreases k
  {
    hide Decode;
    if k > 1 { MemberAt(j, k - 1, depth, if i < k - 1 then i else 0); }
  }
}
