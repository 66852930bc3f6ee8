/** Command values as JSON, with markers for what JSON lacks, under a budget of bytes. */
module HttpEnvelope {
  import opened Wrappers
  import opened Utf8
  import Base64

  const MAX_DEPTH := 64
  const MIN_SAFE_INTEGER: int := -9007199254740991
  const MAX_SAFE_INTEGER: int := 9007199254740991

  /** The text "$ferricstore_bytes". */
  const BYTES_MARKER: Text :=
    [0x24, 0x66, 0x65, 0x72, 0x72, 0x69, 0x63, 0x73, 0x74, 0x6f, 0x72, 0x65, 0x5f, 0x62, 0x79, 0x74, 0x65, 0x73]
  /** The text "$ferricstore_map". */
  const MAP_MARKER: Text :=
    [0x24, 0x66, 0x65, 0x72, 0x72, 0x69, 0x63, 0x73, 0x74, 0x6f, 0x72, 0x65, 0x5f, 0x6d, 0x61, 0x70]
  const BYTES_MARKER_BASE_BYTES := 25
  const MAP_MARKER_BASE_BYTES := 23

  type SafeInt = n: int | MIN_SAFE_INTEGER <= n <= MAX_SAFE_INTEGER

  /** `Num` is a number and `Big` a bigint, which are different values even where they are equal as
      integers. Maps and records list their entries in order. */
  datatype Value = Null | Bool(truth: bool) | Num(number: SafeInt) | Big(integer: int) | Str(text: Text) | Bytes(bytes: seq<bv8>)
                 | List(items: seq<Value>) | Map(entries: seq<Entry>) | Record(fields: seq<Field>)

  datatype Entry = Entry(key: Value, value: Value)

  datatype Field = Field(name: Text, value: Value)

  datatype Json = JNull | JBool(truth: bool) | JNumber(number: int) | JString(text: Text) | JArray(items: seq<Json>)
                | JObject(members: seq<Member>)

  datatype Member = Member(name: Text, value: Json)

  datatype Error = TooDeep | OverBudget | BadBytesMarker | BadMapMarker

  predicate IsSafe(n: int) {
    MIN_SAFE_INTEGER <= n <= MAX_SAFE_INTEGER
  }

  function Digit(d: nat): bv16 {
    match d
    case 0 => 0x30 case 1 => 0x31 case 2 => 0x32 case 3 => 0x33 case 4 => 0x34
    case 5 => 0x35 case 6 => 0x36 case 7 => 0x37 case 8 => 0x38 case _ => 0x39
  }

  function Digits(n: nat): (text: Text)
    ensures text != []
  {
    if n < 10 then [Digit(n)] else Digits(n / 10) + [Digit(n % 10)]
  }

  function Decimal(n: int): (text: Text)
    ensures text != []
  {
    if n < 0 then [0x2d] + Digits(-n) else Digits(n)
  }

  // ----- Encoding -----

  function Spend(budget: nat, amount: nat): Result<nat, Error> {
    if amount > budget then Failure(OverBudget) else Success(budget - amount)
  }

  /** What a value costs by itself, without the values in it. */
  function OwnCost(v: Value): nat {
    match v
    case Null => 1
    case Bool(_) => 1
    case Num(_) => 1
    case Big(n) => if IsSafe(n) then 1 else |Utf8.Encode(Decimal(n))| + 2
    case Str(text) => |Utf8.Encode(text)| + 2
    case Bytes(bytes) => BYTES_MARKER_BASE_BYTES + 4 * ((|bytes| + 2) / 3)
    case List(items) => 2 + if |items| > 0 then |items| - 1 else 0
    case Map(entries) => MAP_MARKER_BASE_BYTES + |entries|
    case Record(fields) => MAP_MARKER_BASE_BYTES + |fields|
  }

  function Marked(marker: Text, value: Json): Json {
    JObject([Member(marker, value)])
  }

  /** The value as JSON, and what is left of the budget. */
  function EncodeJson(v: Value, depth: nat, budget: nat): Result<(Json, nat), Error>
    decreases v
  {
    if depth > MAX_DEPTH then Failure(TooDeep)
    else
      match Spend(budget, OwnCost(v))
      case Failure(error) => Failure(error)
      case Success(left) =>
        match v
        case Null => Success((JNull, left))
        case Bool(truth) => Success((JBool(truth), left))
        case Num(n) => Success((JNumber(n), left))
        case Big(n) => Success((if IsSafe(n) then JNumber(n) else JString(Decimal(n)), left))
        case Str(text) => Success((JString(text), left))
        case Bytes(bytes) => Success((Marked(BYTES_MARKER, JString(Base64.Encode(bytes))), left))
        case List(items) =>
          (match EncodeItems(v, |items|, depth + 1, left)
           case Failure(error) => Failure(error)
           case Success(done) => Success((JArray(done.0), done.1)))
        case Map(entries) =>
          (match EncodeEntries(v, |entries|, depth + 1, left)
           case Failure(error) => Failure(error)
           case Success(done) => Success((Marked(MAP_MARKER, JArray(done.0)), done.1)))
        case Record(fields) =>
          (match EncodeFields(v, |fields|, depth + 1, left)
           case Failure(error) => Failure(error)
           case Success(done) => Success((Marked(MAP_MARKER, JArray(done.0)), done.1)))
  }

  /** The first k items of a list. */
  function EncodeItems(v: Value, k: nat, depth: nat, budget: nat): (r: Result<(seq<Json>, nat), Error>)
    requires v.List? && k <= |v.items|
    decreases v, k
    ensures r.Success? ==> |r.value.0| == k
  {
    if k == 0 then Success(([], budget))
    else
      match EncodeItems(v, k - 1, depth, budget)
      case Failure(error) => Failure(error)
      case Success(before) =>
        match EncodeJson(v.items[k - 1], depth, before.1)
        case Failure(error) => Failure(error)
        case Success(last) => Success((before.0 + [last.0], last.1))
  }

  function EncodeEntries(v: Value, k: nat, depth: nat, budget: nat): (r: Result<(seq<Json>, nat), Error>)
    requires v.Map? && k <= |v.entries|
    decreases v, k
    ensures r.Success? ==> |r.value.0| == k
  {
    if k == 0 then Success(([], budget))
    else
      match EncodeEntries(v, k - 1, depth, budget)
      case Failure(error) => Failure(error)
      case Success(before) =>
        match EncodeJson(v.entries[k - 1].key, depth, before.1)
        case Failure(error) => Failure(error)
        case Success(key) =>
          match EncodeJson(v.entries[k - 1].value, depth, key.1)
          case Failure(error) => Failure(error)
          case Success(value) => Success((before.0 + [JArray([key.0, value.0])], value.1))
  }

  function EncodeName(name: Text, depth: nat, budget: nat): Result<(Json, nat), Error> {
    if depth > MAX_DEPTH then Failure(TooDeep)
    else
      match Spend(budget, |Utf8.Encode(name)| + 2)
      case Failure(error) => Failure(error)
      case Success(left) => Success((JString(name), left))
  }

  function EncodeFields(v: Value, k: nat, depth: nat, budget: nat): (r: Result<(seq<Json>, nat), Error>)
    requires v.Record? && k <= |v.fields|
    decreases v, k
    ensures r.Success? ==> |r.value.0| == k
  {
    if k == 0 then Success(([], budget))
    else
      match EncodeFields(v, k - 1, depth, budget)
      case Failure(error) => Failure(error)
      case Success(before) =>
        match EncodeName(v.fields[k - 1].name, depth, before.1)
        case Failure(error) => Failure(error)
        case Success(name) =>
          match EncodeJson(v.fields[k - 1].value, depth, name.1)
          case Failure(error) => Failure(error)
          case Success(value) => Success((before.0 + [JArray([name.0, value.0])], value.1))
  }

  // ----- Decoding -----

  predicate IsScalar(v: Value) {
    v.Null? || v.Bool? || v.Num? || v.Big? || v.Str?
  }

  /** `Map.set`: scalar keys are compared by value, others are always new. */
  function MapSet(entries: seq<Entry>, key: Value, value: Value): seq<Entry> {
    if entries == [] then [Entry(key, value)]
    else if entries[0].key == key && IsScalar(key) then [Entry(key, value)] + entries[1..]
    else [entries[0]] + MapSet(entries[1..], key, value)
  }

  /** An integer literal beyond the safe range is kept exactly, as a bigint. */
  function Decode(j: Json, depth: nat): Result<Value, Error>
    decreases j
  {
    if depth > MAX_DEPTH then Failure(TooDeep)
    else
      match j
      case JNull => Success(Null)
      case JBool(truth) => Success(Bool(truth))
      case JNumber(n) => Success(if IsSafe(n) then Num(n) else Big(n))
      case JString(text) => Success(Str(text))
      case JArray(items) =>
        (match DecodeItems(j, |items|, depth + 1)
         case Failure(error) => Failure(error)
         case Success(values) => Success(List(values)))
      case JObject(members) =>
        if |members| == 1 && members[0].name == BYTES_MARKER && members[0].value.JString? then
          match Base64.Decode(members[0].value.text)
          case None => Failure(BadBytesMarker)
          case Some(bytes) => Success(Bytes(bytes))
        else if |members| == 1 && members[0].name == MAP_MARKER && members[0].value.JArray? then
          match DecodePairs(members[0].value, |members[0].value.items|, depth + 1)
          case Failure(error) => Failure(error)
          case Success(entries) => Success(Map(entries))
        else
          match DecodeMembers(j, |members|, depth + 1)
          case Failure(error) => Failure(error)
          case Success(fields) => Success(Record(fields))
  }

  function DecodeItems(j: Json, k: nat, depth: nat): Result<seq<Value>, Error>
    requires j.JArray? && k <= |j.items|
    decreases j, k
  {
    if k == 0 then Success([])
    else
      match DecodeItems(j, k - 1, depth)
      case Failure(error) => Failure(error)
      case Success(before) =>
        match Decode(j.items[k - 1], depth)
        case Failure(error) => Failure(error)
        case Success(last) => Success(before + [last])
  }

  function DecodePairs(j: Json, k: nat, depth: nat): Result<seq<Entry>, Error>
    requires j.JArray? && k <= |j.items|
    decreases j, k
  {
    if k == 0 then Success([])
    else
      match DecodePairs(j, k - 1, depth)
      case Failure(error) => Failure(error)
      case Success(before) =>
        var pair := j.items[k - 1];
        if !pair.JArray? || |pair.items| != 2 then Failure(BadMapMarker)
        else
          match Decode(pair.items[0], depth)
          case Failure(error) => Failure(error)
          case Success(key) =>
            match Decode(pair.items[1], depth)
            case Failure(error) => Failure(error)
            case Success(value) => Success(MapSet(before, key, value))
  }

  function DecodeMembers(j: Json, k: nat, depth: nat): Result<seq<Field>, Error>
    requires j.JObject? && k <= |j.members|
    decreases j, k
  {
    if k == 0 then Success([])
    else
      match DecodeMembers(j, k - 1, depth)
      case Failure(error) => Failure(error)
      case Success(before) =>
        match Decode(j.members[k - 1].value, depth)
        case Failure(error) => Failure(error)
        case Success(value) => Success(before + [Field(j.members[k - 1].name, value)])
  }

  // ----- Round trip -----

  /** What comes back: records as maps, a bigint as the equal number, or as its decimal text when it
      is beyond the safe range. */
  function Received(v: Value): Value
    decreases v
  {
    match v
    case Big(n) => if IsSafe(n) then Num(n) else Str(Decimal(n))
    case List(items) => List(ReceivedItems(v, |items|))
    case Map(entries) => Map(ReceivedEntries(v, |entries|))
    case Record(fields) => Map(ReceivedFields(v, |fields|))
    case _ => v
  }

  function ReceivedItems(v: Value, k: nat): (r: seq<Value>)
    requires v.List? && k <= |v.items|
    ensures |r| == k
    decreases v, k
  {
    if k == 0 then [] else ReceivedItems(v, k - 1) + [Received(v.items[k - 1])]
  }

  function ReceivedEntries(v: Value, k: nat): (r: seq<Entry>)
    requires v.Map? && k <= |v.entries|
    ensures |r| == k
    decreases v, k
  {
    if k == 0 then []
    else ReceivedEntries(v, k - 1) + [Entry(Received(v.entries[k - 1].key), Received(v.entries[k - 1].value))]
  }

  function ReceivedFields(v: Value, k: nat): (r: seq<Entry>)
    requires v.Record? && k <= |v.fields|
    ensures |r| == k
    decreases v, k
  {
    if k == 0 then []
    else ReceivedFields(v, k - 1) + [Entry(Str(v.fields[k - 1].name), Received(v.fields[k - 1].value))]
  }

  /** No two entries before position k have the same scalar key. */
  predicate KeysDistinct(entries: seq<Entry>) {
    forall i, j | 0 <= i < j < |entries| && IsScalar(entries[i].key) :: entries[i].key != entries[j].key
  }

  /** No map, at any depth, has two keys that arrive as the same scalar. */
  predicate KeysStayApart(v: Value)
    decreases v
  {
    match v
    case List(items) => forall i | 0 <= i < |items| :: KeysStayApart(items[i])
    case Map(entries) =>
      && KeysDistinct(ReceivedEntries(v, |entries|))
      && forall i | 0 <= i < |entries| :: KeysStayApart(entries[i].key) && KeysStayApart(entries[i].value)
    case Record(fields) =>
      && KeysDistinct(ReceivedFields(v, |fields|))
      && forall i | 0 <= i < |fields| :: KeysStayApart(fields[i].value)
    case _ => true
  }

  predicate IsNewKey(entries: seq<Entry>, key: Value) {
    forall i | 0 <= i < |entries| :: !(IsScalar(key) && entries[i].key == key)
  }

  lemma {:induction false} MapSetAdds(entries: seq<Entry>, key: Value, value: Value)
    requires IsNewKey(entries, key)
    ensures MapSet(entries, key, value) == entries + [Entry(key, value)]
  {
    if entries != [] {
      forall i | 0 <= i < |entries| - 1
        ensures !(IsScalar(key) && entries[1..][i].key == key)
      {
        assert entries[1..][i] == entries[i + 1];
      }
      MapSetAdds(entries[1..], key, value);
      assert entries == [entries[0]] + entries[1..];
      assert [entries[0]] + (entries[1..] + [Entry(key, value)]) == entries + [Entry(key, value)];
    }
  }

  lemma {:induction false} EntryAt(v: Value, k: nat, i: nat)
    requires v.Map? && i < k <= |v.entries|
    ensures ReceivedEntries(v, k)[i] == Entry(Received(v.entries[i].key), Received(v.entries[i].value))
    decreases k
  {
    if i < k - 1 { EntryAt(v, k - 1, i); }
  }

  lemma {:induction false} FieldAt(v: Value, k: nat, i: nat)
    requires v.Record? && i < k <= |v.fields|
    ensures ReceivedFields(v, k)[i] == Entry(Str(v.fields[i].name), Received(v.fields[i].value))
    decreases k
  {
    if i < k - 1 { FieldAt(v, k - 1, i); }
  }

  /** What is encoded decodes to what was meant, with records as maps and even when names equal the
      markers, as long as no two keys of a map arrive as the same scalar. */
  lemma {:induction false} RoundTrip(v: Value, depth: nat, budget: nat)
    requires KeysStayApart(v) && EncodeJson(v, depth, budget).Success?
    ensures Decode(EncodeJson(v, depth, budget).value.0, depth) == Success(Received(v))
    decreases v
  {
    hide OwnCost, Decimal, KeysDistinct, MapSet;
    var left := budget - OwnCost(v);
    match v
    case List(items) =>
      var j := JArray(EncodeItems(v, |items|, depth + 1, left).value.0);
      assert j.items[..|items|] == j.items;
      RoundTripItems(v, |items|, depth + 1, left, j);
    case Map(entries) =>
      var j := JArray(EncodeEntries(v, |entries|, depth + 1, left).value.0);
      assert j.items[..|entries|] == j.items;
      RoundTripEntries(v, |entries|, depth + 1, left, j);
    case Record(fields) =>
      var j := JArray(EncodeFields(v, |fields|, depth + 1, left).value.0);
      assert j.items[..|fields|] == j.items;
      RoundTripFields(v, |fields|, depth + 1, left, j);
    case _ => LeafRoundTrip(v, depth, budget);
  }

  /** A value without values in it. */
  lemma {:induction false} LeafRoundTrip(v: Value, depth: nat, budget: nat)
    requires IsScalar(v) || v.Bytes?
    requires EncodeJson(v, depth, budget).Success?
    ensures Decode(EncodeJson(v, depth, budget).value.0, depth) == Success(Received(v))
  {
    hide OwnCost, Decimal, Base64.Encode, Base64.Decode;
    if v.Bytes? { Base64.DecodeInvertsEncode(Base64.Encode(v.bytes), v.bytes); }
  }

  lemma {:induction false} RoundTripItems(v: Value, k: nat, depth: nat, budget: nat, j: Json)
    requires v.List? && k <= |v.items| && KeysStayApart(v) && j.JArray? && k <= |j.items|
    requires EncodeItems(v, k, depth, budget).Success? && EncodeItems(v, k, depth, budget).value.0 == j.items[..k]
    ensures DecodeItems(j, k, depth) == Success(ReceivedItems(v, k))
    decreases v, k
  {
    if k > 0 {
      var before := EncodeItems(v, k - 1, depth, budget).value;
      assert j.items[..k][..k - 1] == j.items[..k - 1] && j.items[..k][k - 1] == j.items[k - 1];
      RoundTripItems(v, k - 1, depth, budget, j);
      RoundTrip(v.items[k - 1], depth, before.1);
    }
  }

  lemma {:induction false} RoundTripEntries(v: Value, k: nat, depth: nat, budget: nat, j: Json)
    requires v.Map? && k <= |v.entries| && KeysStayApart(v) && j.JArray? && k <= |j.items|
    requires EncodeEntries(v, k, depth, budget).Success? && EncodeEntries(v, k, depth, budget).value.0 == j.items[..k]
    ensures DecodePairs(j, k, depth) == Success(ReceivedEntries(v, k))
    decreases v, k
  {
    hide KeysDistinct, MapSet, IsNewKey;
    if k > 0 {
      var entry := v.entries[k - 1];
      var before := EncodeEntries(v, k - 1, depth, budget).value;
      var key := EncodeJson(entry.key, depth, before.1).value;
      assert j.items[..k][..k - 1] == j.items[..k - 1] && j.items[..k][k - 1] == j.items[k - 1];
      RoundTripEntries(v, k - 1, depth, budget, j);
      RoundTrip(entry.key, depth, before.1);
      RoundTrip(entry.value, depth, key.1);
      EntriesStayApart(v, k);
      MapSetAdds(ReceivedEntries(v, k - 1), Received(entry.key), Received(entry.value));
    }
  }

  lemma {:induction false} EntriesStayApart(v: Value, k: nat)
    requires v.Map? && 0 < k <= |v.entries| && KeysDistinct(ReceivedEntries(v, |v.entries|))
    ensures IsNewKey(ReceivedEntries(v, k - 1), Received(v.entries[k - 1].key))
  {
    var before, all := ReceivedEntries(v, k - 1), ReceivedEntries(v, |v.entries|);
    forall i | 0 <= i < |before|
      ensures before[i] == all[i] && all[k - 1].key == Received(v.entries[k - 1].key)
    {
      EntryAt(v, k - 1, i);
      EntryAt(v, |v.entries|, i);
      EntryAt(v, |v.entries|, k - 1);
    }
  }

  lemma {:induction false} RoundTripFields(v: Value, k: nat, depth: nat, budget: nat, j: Json)
    requires v.Record? && k <= |v.fields| && KeysStayApart(v) && j.JArray? && k <= |j.items|
    requires EncodeFields(v, k, depth, budget).Success? && EncodeFields(v, k, depth, budget).value.0 == j.items[..k]
    ensures DecodePairs(j, k, depth) == Success(ReceivedFields(v, k))
    decreases v, k
  {
    hide KeysDistinct, MapSet, Utf8.Encode, IsNewKey;
    if k > 0 {
      var field := v.fields[k - 1];
      var before := EncodeFields(v, k - 1, depth, budget).value;
      var name := EncodeName(field.name, depth, before.1).value;
      assert j.items[..k][..k - 1] == j.items[..k - 1] && j.items[..k][k - 1] == j.items[k - 1];
      RoundTripFields(v, k - 1, depth, budget, j);
      RoundTrip(field.value, depth, name.1);
      FieldsStayApart(v, k);
      MapSetAdds(ReceivedFields(v, k - 1), Str(field.name), Received(field.value));
    }
  }

  lemma {:induction false} FieldsStayApart(v: Value, k: nat)
    requires v.Record? && 0 < k <= |v.fields| && KeysDistinct(ReceivedFields(v, |v.fields|))
    ensures IsNewKey(ReceivedFields(v, k - 1), Str(v.fields[k - 1].name))
  {
    var before, all := ReceivedFields(v, k - 1), ReceivedFields(v, |v.fields|);
    forall i | 0 <= i < |before|
      ensures before[i] == all[i] && all[k - 1].key == Str(v.fields[k - 1].name)
    {
      FieldAt(v, k - 1, i);
      FieldAt(v, |v.fields|, i);
      FieldAt(v, |v.fields|, k - 1);
    }
  }

  // ----- The length of the JSON text -----

  predicate IsSurrogate(unit: bv16) {
    0xd800 <= unit <= 0xdfff
  }

  /** How a JSON string writes its first character: the quote, the backslash and the five common
      control characters take two bytes, other control characters and lone surrogates six, and
      everything else its UTF-8 bytes. */
  function QuotedPoint(text: Text): nat
    requires text != []
  {
    var unit := text[0];
    if unit == 0x22 || unit == 0x5c || (8 <= unit <= 10) || unit == 12 || unit == 13 then 2
    else if unit < 0x20 then 6
    else if IsSurrogate(unit) && FirstPoint(text).1 == 1 then 6
    else
      FirstPointIsScalar(text);
      |EncodePoint(FirstPoint(text).0)|
  }

  function QuotedLength(text: Text): nat
    decreases |text|
  {
    if text == [] then 0 else QuotedPoint(text) + QuotedLength(text[FirstPoint(text).1..])
  }

  function JsonLength(j: Json): (n: nat)
    ensures n > 0
    decreases j
  {
    match j
    case JNull => 4
    case JBool(truth) => if truth then 4 else 5
    case JNumber(n) => |Decimal(n)|
    case JString(text) => 2 + QuotedLength(text)
    case JArray(items) => 2 + ItemsLength(j, |items|) + if |items| > 0 then |items| - 1 else 0
    case JObject(members) => 2 + MembersLength(j, |members|) + if |members| > 0 then |members| - 1 else 0
  }

  function ItemsLength(j: Json, k: nat): nat
    requires j.JArray? && k <= |j.items|
    decreases j, k
  {
    if k == 0 then 0 else ItemsLength(j, k - 1) + JsonLength(j.items[k - 1])
  }

  /** A member is its quoted name, a colon and its value. */
  function MembersLength(j: Json, k: nat): nat
    requires j.JObject? && k <= |j.members|
    decreases j, k
  {
    if k == 0 then 0
    else MembersLength(j, k - 1) + (3 + QuotedLength(j.members[k - 1].name)) + JsonLength(j.members[k - 1].value)
  }

  lemma {:induction false} ShortCharacter(text: Text)
    requires text != []
    ensures IsScalarPoint(FirstPoint(text).0) && |EncodePoint(FirstPoint(text).0)| <= QuotedPoint(text)
  {
    FirstPointIsScalar(text);
    if text[0] < 0x80 {
      AsciiFirst(text);
    }
  }

  predicate IsScalarPoint(point: bv32) {
    point < 0x11_0000
  }

  lemma AsciiFirst(text: Text)
    requires text != [] && text[0] < 0x80
    ensures FirstPoint(text).0 < 0x80
  {
  }

  /** No JSON string is shorter than its UTF-8 bytes in quotes. */
  lemma {:induction false} QuotedIsNoShorter(text: Text)
    ensures |Utf8.Encode(text)| <= QuotedLength(text)
    decreases |text|
  {
    if text != [] {
      ShortCharacter(text);
      QuotedIsNoShorter(text[FirstPoint(text).1..]);
    }
  }

  /** Nor shorter than its code units. */
  lemma {:induction false} QuotedCoversUnits(text: Text)
    ensures |text| <= QuotedLength(text)
    decreases |text|
  {
    if text != [] {
      PointCoversUnits(text);
      QuotedCoversUnits(text[FirstPoint(text).1..]);
    }
  }

  lemma {:induction false} PointCoversUnits(text: Text)
    requires text != []
    ensures FirstPoint(text).1 <= QuotedPoint(text)
  {
    FirstPointIsScalar(text);
    if FirstPoint(text).1 == 2 { CombineIsScalar(text[0] as bv32, text[1] as bv32); }
  }

  // ----- The budget -----

  /** What encoding takes from the budget is never more than the length of the JSON text. */
  lemma {:induction false} BudgetIsLowerBound(v: Value, depth: nat, budget: nat)
    requires EncodeJson(v, depth, budget).Success?
    ensures var (j, left) := EncodeJson(v, depth, budget).value; left <= budget && budget - left <= JsonLength(j)
    decreases v
  {
    hide QuotedLength, Utf8.Encode, Base64.Encode, Decimal;
    var left := budget - OwnCost(v);
    match v
    case Big(n) => QuotedIsNoShorter(Decimal(n));
    case Str(text) => QuotedIsNoShorter(text);
    case Bytes(bytes) =>
      QuotedCoversUnits(Base64.Encode(bytes));
      MarkedLength(BYTES_MARKER, JString(Base64.Encode(bytes)));
    case List(items) =>
      var j := JArray(EncodeItems(v, |items|, depth + 1, left).value.0);
      assert j.items[..|items|] == j.items;
      ItemsBudget(v, |items|, depth + 1, left, j);
    case Map(entries) =>
      var j := JArray(EncodeEntries(v, |entries|, depth + 1, left).value.0);
      assert j.items[..|entries|] == j.items;
      EntriesBudget(v, |entries|, depth + 1, left, j);
      MarkedLength(MAP_MARKER, j);
    case Record(fields) =>
      var j := JArray(EncodeFields(v, |fields|, depth + 1, left).value.0);
      assert j.items[..|fields|] == j.items;
      FieldsBudget(v, |fields|, depth + 1, left, j);
      MarkedLength(MAP_MARKER, j);
    case _ =>
  }

  lemma {:induction false} MarkedLength(marker: Text, value: Json)
    ensures JsonLength(Marked(marker, value)) >= 5 + |marker| + JsonLength(value)
  {
    QuotedCoversUnits(marker);
    hide QuotedLength;
    var j := Marked(marker, value);
    assert MembersLength(j, 1) == MembersLength(j, 0) + (3 + QuotedLength(marker)) + JsonLength(value);
  }

  lemma {:induction false} ItemsBudget(v: Value, k: nat, depth: nat, budget: nat, j: Json)
    requires v.List? && k <= |v.items| && j.JArray? && k <= |j.items|
    requires EncodeItems(v, k, depth, budget).Success? && EncodeItems(v, k, depth, budget).value.0 == j.items[..k]
    ensures EncodeItems(v, k, depth, budget).value.1 <= budget
    ensures budget - EncodeItems(v, k, depth, budget).value.1 <= ItemsLength(j, k)
    decreases v, k
  {
    if k > 0 {
      assert j.items[..k][..k - 1] == j.items[..k - 1] && j.items[..k][k - 1] == j.items[k - 1];
      ItemsBudget(v, k - 1, depth, budget, j);
      BudgetIsLowerBound(v.items[k - 1], depth, EncodeItems(v, k - 1, depth, budget).value.1);
    }
  }

  lemma {:induction false} PairLength(key: Json, value: Json)
    ensures JsonLength(JArray([key, value])) == 3 + JsonLength(key) + JsonLength(value)
  {
    var j := JArray([key, value]);
    assert ItemsLength(j, 2) == ItemsLength(j, 1) + JsonLength(value);
    assert ItemsLength(j, 1) == ItemsLength(j, 0) + JsonLength(key);
  }

  lemma {:induction false} EntriesBudget(v: Value, k: nat, depth: nat, budget: nat, j: Json)
    requires v.Map? && k <= |v.entries| && j.JArray? && k <= |j.items|
    requires EncodeEntries(v, k, depth, budget).Success? && EncodeEntries(v, k, depth, budget).value.0 == j.items[..k]
    ensures EncodeEntries(v, k, depth, budget).value.1 <= budget
    ensures budget - EncodeEntries(v, k, depth, budget).value.1 + 3 * k <= ItemsLength(j, k)
    decreases v, k
  {
    if k > 0 {
      var entry, before := v.entries[k - 1], EncodeEntries(v, k - 1, depth, budget).value;
      var key := EncodeJson(entry.key, depth, before.1).value;
      assert j.items[..k][..k - 1] == j.items[..k - 1] && j.items[..k][k - 1] == j.items[k - 1];
      EntriesBudget(v, k - 1, depth, budget, j);
      BudgetIsLowerBound(entry.key, depth, before.1);
      BudgetIsLowerBound(entry.value, depth, key.1);
      PairLength(key.0, EncodeJson(entry.value, depth, key.1).value.0);
    }
  }

  lemma {:induction false} FieldsBudget(v: Value, k: nat, depth: nat, budget: nat, j: Json)
    requires v.Record? && k <= |v.fields| && j.JArray? && k <= |j.items|
    requires EncodeFields(v, k, depth, budget).Success? && EncodeFields(v, k, depth, budget).value.0 == j.items[..k]
    ensures EncodeFields(v, k, depth, budget).value.1 <= budget
    ensures budget - EncodeFields(v, k, depth, budget).value.1 + 3 * k <= ItemsLength(j, k)
    decreases v, k
  {
    hide Utf8.Encode, QuotedLength;
    if k > 0 {
      var field, before := v.fields[k - 1], EncodeFields(v, k - 1, depth, budget).value;
      var name := EncodeName(field.name, depth, before.1).value;
      assert j.items[..k][..k - 1] == j.items[..k - 1] && j.items[..k][k - 1] == j.items[k - 1];
      FieldsBudget(v, k - 1, depth, budget, j);
      QuotedIsNoShorter(field.name);
      BudgetIsLowerBound(field.value, depth, name.1);
      PairLength(name.0, EncodeJson(field.value, depth, name.1).value.0);
    }
  }

  /** The same value under another budget: it succeeds exactly when that covers what it takes. */
  ghost predicate ShiftsTo<T>(r: Result<(T, nat), Error>, budget: nat, s: Result<(T, nat), Error>, other: nat) {
    r.Success? && r.value.1 <= budget ==>
      s == if budget - r.value.1 <= other then Success((r.value.0, other - (budget - r.value.1))) else Failure(OverBudget)
  }

  lemma {:induction false} EncodeShifts(v: Value, depth: nat, budget: nat, other: nat)
    requires EncodeJson(v, depth, budget).Success?
    ensures EncodeJson(v, depth, budget).value.1 <= budget
    ensures ShiftsTo(EncodeJson(v, depth, budget), budget, EncodeJson(v, depth, other), other)
    decreases v
  {
    hide Utf8.Encode, Base64.Encode, Decimal, OwnCost;
    var cost := OwnCost(v);
    if cost <= other {
      match v
      case List(items) => ItemsShift(v, |items|, depth + 1, budget - cost, other - cost);
      case Map(entries) => EntriesShift(v, |entries|, depth + 1, budget - cost, other - cost);
      case Record(fields) => FieldsShift(v, |fields|, depth + 1, budget - cost, other - cost);
      case _ =>
    } else {
      match v
      case List(items) => ItemsShift(v, |items|, depth + 1, budget - cost, 0);
      case Map(entries) => EntriesShift(v, |entries|, depth + 1, budget - cost, 0);
      case Record(fields) => FieldsShift(v, |fields|, depth + 1, budget - cost, 0);
      case _ =>
    }
  }

  lemma {:induction false} ItemsShift(v: Value, k: nat, depth: nat, budget: nat, other: nat)
    requires v.List? && k <= |v.items| && EncodeItems(v, k, depth, budget).Success?
    ensures EncodeItems(v, k, depth, budget).value.1 <= budget
    ensures ShiftsTo(EncodeItems(v, k, depth, budget), budget, EncodeItems(v, k, depth, other), other)
    decreases v, k
  {
    if k > 0 {
      ItemsShift(v, k - 1, depth, budget, other);
      var before, after := EncodeItems(v, k - 1, depth, budget).value, EncodeItems(v, k - 1, depth, other);
      EncodeShifts(v.items[k - 1], depth, before.1, if after.Success? then after.value.1 else 0);
    }
  }

  lemma {:induction false} EntriesShift(v: Value, k: nat, depth: nat, budget: nat, other: nat)
    requires v.Map? && k <= |v.entries| && EncodeEntries(v, k, depth, budget).Success?
    ensures EncodeEntries(v, k, depth, budget).value.1 <= budget
    ensures ShiftsTo(EncodeEntries(v, k, depth, budget), budget, EncodeEntries(v, k, depth, other), other)
    decreases v, k
  {
    if k > 0 {
      var entry := v.entries[k - 1];
      EntriesShift(v, k - 1, depth, budget, other);
      var before, after := EncodeEntries(v, k - 1, depth, budget).value, EncodeEntries(v, k - 1, depth, other);
      var left := if after.Success? then after.value.1 else 0;
      EncodeShifts(entry.key, depth, before.1, left);
      var key, again := EncodeJson(entry.key, depth, before.1).value, EncodeJson(entry.key, depth, left);
      EncodeShifts(entry.value, depth, key.1, if again.Success? then again.value.1 else 0);
    }
  }

  lemma {:induction false} FieldsShift(v: Value, k: nat, depth: nat, budget: nat, other: nat)
    requires v.Record? && k <= |v.fields| && EncodeFields(v, k, depth, budget).Success?
    ensures EncodeFields(v, k, depth, budget).value.1 <= budget
    ensures ShiftsTo(EncodeFields(v, k, depth, budget), budget, EncodeFields(v, k, depth, other), other)
    decreases v, k
  {
    hide Utf8.Encode;
    if k > 0 {
      var field := v.fields[k - 1];
      FieldsShift(v, k - 1, depth, budget, other);
      var before, after := EncodeFields(v, k - 1, depth, budget).value, EncodeFields(v, k - 1, depth, other);
      var left := if after.Success? then after.value.1 else 0;
      var name, again := EncodeName(field.name, depth, before.1).value, EncodeName(field.name, depth, left);
      EncodeShifts(field.value, depth, name.1, if again.Success? then again.value.1 else 0);
    }
  }

  /** A value is rejected for its size only if its JSON text really is longer than the budget. */
  lemma {:induction false} RejectionIsJustified(v: Value, depth: nat, budget: nat, ample: nat)
    requires EncodeJson(v, depth, budget) == Failure(OverBudget) && EncodeJson(v, depth, ample).Success?
    ensures JsonLength(EncodeJson(v, depth, ample).value.0) > budget
  {
    hide EncodeJson, JsonLength;
    EncodeShifts(v, depth, ample, budget);
    BudgetIsLowerBound(v, depth, ample);
  }

  // ----- The request body -----

  /** The texts "encoding", "ferricstore-json-v1" and "commands". */
  const ENCODING_NAME: Text := [0x65, 0x6e, 0x63, 0x6f, 0x64, 0x69, 0x6e, 0x67]
  const ENCODING: Text :=
    [0x66, 0x65, 0x72, 0x72, 0x69, 0x63, 0x73, 0x74, 0x6f, 0x72, 0x65, 0x2d, 0x6a, 0x73, 0x6f, 0x6e, 0x2d, 0x76, 0x31]
  const COMMANDS_NAME: Text := [0x63, 0x6f, 0x6d, 0x6d, 0x61, 0x6e, 0x64, 0x73]

  function Body(items: seq<Json>): Json {
    JObject([Member(ENCODING_NAME, JString(ENCODING)), Member(COMMANDS_NAME, JArray(items))])
  }

  /** The commands share one budget. */
  function EncodeCommands(commands: seq<Value>, maxBytes: nat): Result<Json, Error> {
    match EncodeItems(List(commands), |commands|, 0, maxBytes)
    case Failure(error) => Failure(error)
    case Success(done) => Success(Body(done.0))
  }

  /** A request is rejected for its size only if its body is longer than allowed. */
  lemma {:induction false} RequestRejectionIsJustified(commands: seq<Value>, maxBytes: nat, ample: nat)
    requires EncodeCommands(commands, maxBytes) == Failure(OverBudget) && EncodeCommands(commands, ample).Success?
    ensures JsonLength(EncodeCommands(commands, ample).value) > maxBytes
  {
    var v, n := List(commands), |commands|;
    var j := JArray(EncodeItems(v, n, 0, ample).value.0);
    assert j.items[..n] == j.items;
    ItemsShift(v, n, 0, ample, maxBytes);
    ItemsBudget(v, n, 0, ample, j);
    BodyLength(j.items);
  }

  lemma {:induction false} BodyLength(items: seq<Json>)
    ensures JsonLength(Body(items)) > ItemsLength(JArray(items), |items|)
  {
    hide QuotedLength;
    var j := Body(items);
    assert MembersLength(j, 2) == MembersLength(j, 1) + (3 + QuotedLength(COMMANDS_NAME)) + JsonLength(JArray(items));
  }

  // ----- The encoder with its shared budget -----

  class EncodeBudget {
    var remaining: nat

    constructor (maxBytes: nat)
      ensures remaining == maxBytes
    {
      remaining := maxBytes;
    }

    method Consume(amount: nat) returns (ok: bool)
      modifies this
      ensures ok == (amount <= old(remaining)) && remaining == if ok then old(remaining) - amount else old(remaining)
    {
      if amount > remaining { return false; }
      remaining := remaining - amount;
      return true;
    }

    /** The result is that of the function, and on success so is what is left. */
    ghost predicate Agrees<T>(spec: Result<(T, nat), Error>, r: Result<T, Error>)
      reads this
    {
      match spec
      case Failure(error) => r == Failure(error)
      case Success(done) => r == Success(done.0) && remaining == done.1
    }

    method EncodeValue(v: Value, depth: nat) returns (r: Result<Json, Error>)
      modifies this
      ensures Agrees(EncodeJson(v, depth, old(remaining)), r)
      decreases v, 1
    {
      if depth > MAX_DEPTH { return Failure(TooDeep); }
      var ok := Consume(OwnCost(v));
      if !ok { return Failure(OverBudget); }
      match v {
        case Null => return Success(JNull);
        case Bool(truth) => return Success(JBool(truth));
        case Num(n) => return Success(JNumber(n));
        case Big(n) => return Success(if IsSafe(n) then JNumber(n) else JString(Decimal(n)));
        case Str(text) => return Success(JString(text));
        case Bytes(bytes) => return Success(Marked(BYTES_MARKER, JString(Base64.Encode(bytes))));
        case List(_) =>
          var items := EncodeDense(v, depth + 1);
          return if items.Failure? then Failure(items.error) else Success(JArray(items.value));
        case Map(_) =>
          var pairs := EncodeMap(v, depth + 1);
          return if pairs.Failure? then Failure(pairs.error) else Success(Marked(MAP_MARKER, JArray(pairs.value)));
        case Record(_) =>
          var pairs := EncodeRecord(v, depth + 1);
          return if pairs.Failure? then Failure(pairs.error) else Success(Marked(MAP_MARKER, JArray(pairs.value)));
      }
    }

    method EncodeDense(v: Value, depth: nat) returns (r: Result<seq<Json>, Error>)
      requires v.List?
      modifies this
      ensures Agrees(EncodeItems(v, |v.items|, depth, old(remaining)), r)
      decreases v, 0
    {
      var result := [];
      ghost var budget := remaining;
      for index := 0 to |v.items|
        invariant EncodeItems(v, index, depth, budget) == Success((result, remaining))
      {
        var item := EncodeValue(v.items[index], depth);
        if item.Failure? {
          FailedItem(v, index, depth, budget);
          return Failure(item.error);
        }
        result := result + [item.value];
      }
      return Success(result);
    }

    method EncodeMap(v: Value, depth: nat) returns (r: Result<seq<Json>, Error>)
      requires v.Map?
      modifies this
      ensures Agrees(EncodeEntries(v, |v.entries|, depth, old(remaining)), r)
      decreases v, 0
    {
      var pairs := [];
      ghost var budget := remaining;
      for index := 0 to |v.entries|
        invariant EncodeEntries(v, index, depth, budget) == Success((pairs, remaining))
      {
        var key := EncodeValue(v.entries[index].key, depth);
        if key.Failure? {
          FailedEntry(v, index, depth, budget);
          return Failure(key.error);
        }
        var value := EncodeValue(v.entries[index].value, depth);
        if value.Failure? {
          FailedEntry(v, index, depth, budget);
          return Failure(value.error);
        }
        pairs := pairs + [JArray([key.value, value.value])];
      }
      return Success(pairs);
    }

    method EncodeRecord(v: Value, depth: nat) returns (r: Result<seq<Json>, Error>)
      requires v.Record?
      modifies this
      ensures Agrees(EncodeFields(v, |v.fields|, depth, old(remaining)), r)
      decreases v, 0
    {
      var pairs := [];
      ghost var budget := remaining;
      for index := 0 to |v.fields|
        invariant EncodeFields(v, index, depth, budget) == Success((pairs, remaining))
      {
        var name := EncodeFieldName(v.fields[index].name, depth);
        if name.Failure? {
          FailedField(v, index, depth, budget);
          return Failure(name.error);
        }
        var value := EncodeValue(v.fields[index].value, depth);
        if value.Failure? {
          FailedField(v, index, depth, budget);
          return Failure(value.error);
        }
        pairs := pairs + [JArray([name.value, value.value])];
      }
      return Success(pairs);
    }

    method EncodeFieldName(name: Text, depth: nat) returns (r: Result<Json, Error>)
      modifies this
      ensures Agrees(EncodeName(name, depth, old(remaining)), r)
    {
      if depth > MAX_DEPTH { return Failure(TooDeep); }
      var ok := Consume(|Utf8.Encode(name)| + 2);
      if !ok { return Failure(OverBudget); }
      return Success(JString(name));
    }
  }

  /** Once an item fails, so does every longer prefix, with the same error. */
  lemma {:induction false} FailedItem(v: Value, k: nat, depth: nat, budget: nat)
    requires v.List? && k < |v.items| && EncodeItems(v, k + 1, depth, budget).Failure?
    ensures EncodeItems(v, |v.items|, depth, budget) == Failure(EncodeItems(v, k + 1, depth, budget).error)
    decreases |v.items| - k
  {
    if k + 1 < |v.items| { FailedItem(v, k + 1, depth, budget); }
  }

  lemma {:induction false} FailedEntry(v: Value, k: nat, depth: nat, budget: nat)
    requires v.Map? && k < |v.entries| && EncodeEntries(v, k + 1, depth, budget).Failure?
    ensures EncodeEntries(v, |v.entries|, depth, budget) == Failure(EncodeEntries(v, k + 1, depth, budget).error)
    decreases |v.entries| - k
  {
    if k + 1 < |v.entries| { FailedEntry(v, k + 1, depth, budget); }
  }

  lemma {:induction false} FailedField(v: Value, k: nat, depth: nat, budget: nat)
    requires v.Record? && k < |v.fields| && EncodeFields(v, k + 1, depth, budget).Failure?
    ensures EncodeFields(v, |v.fields|, depth, budget) == Failure(EncodeFields(v, k + 1, depth, budget).error)
    decreases |v.fields| - k
  {
    if k + 1 < |v.fields| { FailedField(v, k + 1, depth, budget); }
  }
}
