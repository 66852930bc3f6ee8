/** Exactly when a value survives the journey: which maps lose an entry on the way. */
module HttpEnvelopeKeys {
  import opened Wrappers
  import opened HttpEnvelope
  import Utf8

  // ----- What comes back tells that no keys met -----

  lemma {:induction false} MapSetCollides(entries: seq<Entry>, key: Value, value: Value)
    requires !IsNewKey(entries, key)
    ensures |MapSet(entries, key, value)| == |entries|
  {
    if !(entries[0].key == key && IsScalar(key)) {
      var i :| 0 <= i < |entries| && IsScalar(key) && entries[i].key == key;
      assert entries[1..][i - 1] == entries[i];
      MapSetCollides(entries[1..], key, value);
    }
  }

  lemma {:induction false} PairsAreNoMore(j: Json, k: nat, depth: nat)
    requires j.JArray? && k <= |j.items|
    ensures DecodePairs(j, k, depth).Success? ==> |DecodePairs(j, k, depth).value| <= k
    decreases k
  {
    hide MapSet, Decode, IsNewKey;
    if k > 0 && DecodePairs(j, k, depth).Success? {
      PairsAreNoMore(j, k - 1, depth);
      var pair := j.items[k - 1];
      SetAddsOneAtMost(DecodePairs(j, k - 1, depth).value, Decode(pair.items[0], depth).value, Decode(pair.items[1], depth).value);
    }
  }

  lemma {:induction false} SetAddsOneAtMost(before: seq<Entry>, key: Value, value: Value)
    ensures |MapSet(before, key, value)| <= |before| + 1
  {
    hide MapSet;
    if IsNewKey(before, key) { MapSetAdds(before, key, value); } else { MapSetCollides(before, key, value); }
  }

  /** A pair that makes the map as long as the list of pairs had a new key. */
  lemma {:induction false} LongEnoughMeansNew(before: seq<Entry>, key: Value, value: Value, expected: seq<Entry>, last: Entry)
    requires MapSet(before, key, value) == expected + [last] && |before| <= |expected|
    ensures IsNewKey(before, key) && before == expected && last == Entry(key, value)
  {
    hide MapSet;
    if IsNewKey(before, key) {
      MapSetAdds(before, key, value);
      SameParts(before, Entry(key, value), expected, last);
    } else {
      MapSetCollides(before, key, value);
    }
  }

  lemma {:induction false} SameParts<T>(a: seq<T>, x: T, b: seq<T>, y: T)
    requires a + [x] == b + [y]
    ensures a == b && x == y
  {
    assert |a + [x]| == |b + [y]|;
    assert a == (a + [x])[..|a|] == (b + [y])[..|b|] == b;
    assert x == (a + [x])[|a|] == (b + [y])[|b|] == y;
  }

  /** One more entry with a new key keeps the keys distinct. */
  lemma DistinctGrows(entries: seq<Entry>, last: Entry)
    requires KeysDistinct(entries) && IsNewKey(entries, last.key)
    ensures KeysDistinct(entries + [last])
  {
  }

  lemma {:induction false} ApartIfReceived(v: Value, depth: nat, budget: nat)
    requires EncodeJson(v, depth, budget).Success?
    requires Decode(EncodeJson(v, depth, budget).value.0, depth) == Success(Received(v))
    ensures KeysStayApart(v)
    decreases v
  {
    hide KeysDistinct;
    var left := budget - OwnCost(v);
    match v
    case List(items) =>
      var j := JArray(EncodeItems(v, |items|, depth + 1, left).value.0);
      assert j.items[..|items|] == j.items;
      ItemsApart(v, |items|, depth + 1, left, j);
    case Map(entries) =>
      var j := JArray(EncodeEntries(v, |entries|, depth + 1, left).value.0);
      assert j.items[..|entries|] == j.items;
      EntriesApart(v, |entries|, depth + 1, left, j);
    case Record(fields) =>
      var j := JArray(EncodeFields(v, |fields|, depth + 1, left).value.0);
      assert j.items[..|fields|] == j.items;
      FieldsApart(v, |fields|, depth + 1, left, j);
    case _ =>
  }

  lemma {:induction false} ItemsApart(v: Value, k: nat, depth: nat, budget: nat, j: Json)
    requires v.List? && k <= |v.items| && j.JArray? && k <= |j.items|
    requires EncodeItems(v, k, depth, budget).Success? && EncodeItems(v, k, depth, budget).value.0 == j.items[..k]
    requires DecodeItems(j, k, depth) == Success(ReceivedItems(v, k))
    ensures forall i | 0 <= i < k :: KeysStayApart(v.items[i])
    decreases v, k
  {
    hide KeysStayApart, Decode, Received;
    if k > 0 {
      var before := EncodeItems(v, k - 1, depth, budget).value;
      assert j.items[..k][..k - 1] == j.items[..k - 1] && j.items[..k][k - 1] == j.items[k - 1];
      SameParts(DecodeItems(j, k - 1, depth).value, Decode(j.items[k - 1], depth).value,
                ReceivedItems(v, k - 1), Received(v.items[k - 1]));
      ItemsApart(v, k - 1, depth, budget, j);
      ApartIfReceived(v.items[k - 1], depth, before.1);
    }
  }

  predicate EntriesStay(v: Value, k: nat)
    requires v.Map? && k <= |v.entries|
  {
    forall i | 0 <= i < k :: KeysStayApart(v.entries[i].key) && KeysStayApart(v.entries[i].value)
  }

  predicate FieldsStay(v: Value, k: nat)
    requires v.Record? && k <= |v.fields|
  {
    forall i | 0 <= i < k :: KeysStayApart(v.fields[i].value)
  }

  lemma {:induction false} EntryStays(v: Value, k: nat)
    requires v.Map? && k < |v.entries| && EntriesStay(v, k) && KeysStayApart(v.entries[k].key) && KeysStayApart(v.entries[k].value)
    ensures EntriesStay(v, k + 1)
  {
    hide KeysStayApart;
  }

  lemma {:induction false} FieldStays(v: Value, k: nat)
    requires v.Record? && k < |v.fields| && FieldsStay(v, k) && KeysStayApart(v.fields[k].value)
    ensures FieldsStay(v, k + 1)
  {
    hide KeysStayApart;
  }

  /** The last pair came back as an entry of its own, and the pairs before as theirs. */
  lemma {:induction false} LastEntryApart(v: Value, k: nat, depth: nat, budget: nat, j: Json)
    requires v.Map? && 0 < k <= |v.entries| && j.JArray? && k <= |j.items|
    requires EncodeEntries(v, k, depth, budget).Success? && EncodeEntries(v, k, depth, budget).value.0 == j.items[..k]
    requires DecodePairs(j, k, depth) == Success(ReceivedEntries(v, k))
    ensures EncodeEntries(v, k - 1, depth, budget).Success? && EncodeEntries(v, k - 1, depth, budget).value.0 == j.items[..k - 1]
    ensures DecodePairs(j, k - 1, depth) == Success(ReceivedEntries(v, k - 1))
    ensures IsNewKey(ReceivedEntries(v, k - 1), Received(v.entries[k - 1].key))
    ensures var start := EncodeEntries(v, k - 1, depth, budget).value.1;
            && EncodeJson(v.entries[k - 1].key, depth, start).Success?
            && var key := EncodeJson(v.entries[k - 1].key, depth, start).value;
               && Decode(key.0, depth) == Success(Received(v.entries[k - 1].key))
               && EncodeJson(v.entries[k - 1].value, depth, key.1).Success?
               && Decode(EncodeJson(v.entries[k - 1].value, depth, key.1).value.0, depth) == Success(Received(v.entries[k - 1].value))
  {
    hide Decode, EncodeJson, Received, MapSet, IsNewKey;
    var entry := v.entries[k - 1];
    var key := EncodeJson(entry.key, depth, EncodeEntries(v, k - 1, depth, budget).value.1).value;
    assert j.items[..k][..k - 1] == j.items[..k - 1] && j.items[..k][k - 1] == j.items[k - 1];
    PairsAreNoMore(j, k - 1, depth);
    LongEnoughMeansNew(DecodePairs(j, k - 1, depth).value, Decode(key.0, depth).value,
                       Decode(j.items[k - 1].items[1], depth).value,
                       ReceivedEntries(v, k - 1), Entry(Received(entry.key), Received(entry.value)));
  }

  lemma {:induction false} EntriesApart(v: Value, k: nat, depth: nat, budget: nat, j: Json)
    requires v.Map? && k <= |v.entries| && j.JArray? && k <= |j.items|
    requires EncodeEntries(v, k, depth, budget).Success? && EncodeEntries(v, k, depth, budget).value.0 == j.items[..k]
    requires DecodePairs(j, k, depth) == Success(ReceivedEntries(v, k))
    ensures KeysDistinct(ReceivedEntries(v, k))
    ensures EntriesStay(v, k)
    decreases v, k
  {
    hide KeysStayApart, Decode, EncodeJson, Received, KeysDistinct, IsNewKey, DecodePairs, EncodeEntries, EntriesStay, ReceivedEntries;
    if k > 0 {
      LastEntryApart(v, k, depth, budget, j);
      var entry := v.entries[k - 1];
      var start := EncodeEntries(v, k - 1, depth, budget).value.1;
      EntriesApart(v, k - 1, depth, budget, j);
      DistinctGrows(ReceivedEntries(v, k - 1), Entry(Received(entry.key), Received(entry.value)));
      ApartIfReceived(entry.key, depth, start);
      ApartIfReceived(entry.value, depth, EncodeJson(entry.key, depth, start).value.1);
      EntryStays(v, k - 1);
      OneMoreReceived(v, k - 1);
    } else {
      NoKeys();
      NothingReceived(v);
    }
  }

  lemma OneMoreReceived(v: Value, k: nat)
    requires v.Map? && k < |v.entries|
    ensures ReceivedEntries(v, k + 1) == ReceivedEntries(v, k) + [Entry(Received(v.entries[k].key), Received(v.entries[k].value))]
  {
  }

  lemma NothingReceived(v: Value)
    requires v.Map?
    ensures ReceivedEntries(v, 0) == [] && EntriesStay(v, 0)
  {
  }

  lemma NoKeys()
    ensures KeysDistinct([])
  {
  }

  lemma {:induction false} FieldsApart(v: Value, k: nat, depth: nat, budget: nat, j: Json)
    requires v.Record? && k <= |v.fields| && j.JArray? && k <= |j.items|
    requires EncodeFields(v, k, depth, budget).Success? && EncodeFields(v, k, depth, budget).value.0 == j.items[..k]
    requires DecodePairs(j, k, depth) == Success(ReceivedFields(v, k))
    ensures KeysDistinct(ReceivedFields(v, k))
    ensures FieldsStay(v, k)
    decreases v, k
  {
    if k > 0 {
      hide KeysStayApart, EncodeJson, Received, MapSet, KeysDistinct, IsNewKey, Utf8.Encode, Decode, FieldsStay;
      var field := v.fields[k - 1];
      var before := EncodeFields(v, k - 1, depth, budget).value;
      var name := EncodeName(field.name, depth, before.1).value;
      assert j.items[..k][..k - 1] == j.items[..k - 1] && j.items[..k][k - 1] == j.items[k - 1];
      PairsAreNoMore(j, k - 1, depth);
      LongEnoughMeansNew(DecodePairs(j, k - 1, depth).value, Decode(name.0, depth).value,
                         Decode(j.items[k - 1].items[1], depth).value,
                         ReceivedFields(v, k - 1), Entry(Str(field.name), Received(field.value)));
      FieldsApart(v, k - 1, depth, budget, j);
      DistinctGrows(ReceivedFields(v, k - 1), Entry(Str(field.name), Received(field.value)));
      ApartIfReceived(field.value, depth, name.1);
      FieldStays(v, k - 1);
    } else {
      NoKeys();
    }
  }

  /** An encoded value decodes to what was meant if and only if no map in it, at any depth, has two
      keys that arrive as the same scalar. */
  lemma {:induction false} RoundTripExactly(v: Value, depth: nat, budget: nat)
    requires EncodeJson(v, depth, budget).Success?
    ensures Decode(EncodeJson(v, depth, budget).value.0, depth) == Success(Received(v)) <==> KeysStayApart(v)
  {
    if KeysStayApart(v) { RoundTrip(v, depth, budget); }
    if Decode(EncodeJson(v, depth, budget).value.0, depth) == Success(Received(v)) { ApartIfReceived(v, depth, budget); }
  }

  // ----- Maps that lose an entry -----

  function Pair(first: Value, a: Value, second: Value, b: Value): Value {
    Map([Entry(first, a), Entry(second, b)])
  }

  /** When two keys arrive as the same scalar, the first value is lost. */
  lemma {:induction false} FirstIsLost(first: Value, a: Value, second: Value, b: Value, depth: nat, budget: nat)
    requires EncodeJson(Pair(first, a, second, b), depth, budget).Success?
    requires KeysStayApart(first) && KeysStayApart(a) && KeysStayApart(second) && KeysStayApart(b)
    requires Received(first) == Received(second) && IsScalar(Received(first))
    ensures Decode(EncodeJson(Pair(first, a, second, b), depth, budget).value.0, depth)
         == Success(Map([Entry(Received(second), Received(b))]))
    ensures Received(Pair(first, a, second, b)) != Map([Entry(Received(second), Received(b))])
  {
    hide DecodePairs;
    var v := Pair(first, a, second, b);
    var left := budget - OwnCost(v);
    var j := JArray(EncodeEntries(v, 2, depth + 1, left).value.0);
    MapTravels(v, depth, budget, j);
    hide KeysStayApart, IsScalar, MapSet, Received, EncodeJson, Decode, OwnCost;
    assert j.items[..2] == j.items;
    assert j.items[..1] == EncodeEntries(v, 1, depth + 1, left).value.0;
    OneEntry(v, depth + 1, left, j);
    NextEntry(v, depth + 1, left, j);
    KeepsLast(Received(first), Received(a), Received(b));
    LengthOfReceived(v);
  }

  lemma {:induction false} MapTravels(v: Value, depth: nat, budget: nat, j: Json)
    requires v.Map? && EncodeJson(v, depth, budget).Success? && j.JArray?
    requires OwnCost(v) <= budget && EncodeEntries(v, |v.entries|, depth + 1, budget - OwnCost(v)).Success?
    requires j.items == EncodeEntries(v, |v.entries|, depth + 1, budget - OwnCost(v)).value.0
    ensures EncodeJson(v, depth, budget).value.0 == Marked(MAP_MARKER, j)
    ensures DecodePairs(j, |j.items|, depth + 1).Success? ==>
              Decode(Marked(MAP_MARKER, j), depth) == Success(Map(DecodePairs(j, |j.items|, depth + 1).value))
  {
    hide OwnCost, MapSet;
  }

  lemma LengthOfReceived(v: Value)
    requires v.Map?
    ensures Received(v).Map? && |Received(v).entries| == |v.entries|
  {
  }

  lemma {:induction false} OneEntry(v: Value, depth: nat, budget: nat, j: Json)
    requires v.Map? && |v.entries| == 2 && j.JArray? && |j.items| == 2
    requires EncodeEntries(v, 1, depth, budget).Success? && EncodeEntries(v, 1, depth, budget).value.0 == j.items[..1]
    requires KeysStayApart(v.entries[0].key) && KeysStayApart(v.entries[0].value)
    ensures DecodePairs(j, 1, depth) == Success([Entry(Received(v.entries[0].key), Received(v.entries[0].value))])
  {
    hide KeysStayApart, Received;
    var key := EncodeJson(v.entries[0].key, depth, budget).value;
    assert EncodeEntries(v, 0, depth, budget) == Success(([], budget)) && DecodePairs(j, 0, depth) == Success([]);
    assert j.items[0] == j.items[..1][0];
    RoundTrip(v.entries[0].key, depth, budget);
    RoundTrip(v.entries[0].value, depth, key.1);
  }

  lemma {:induction false} NextEntry(v: Value, depth: nat, budget: nat, j: Json)
    requires v.Map? && |v.entries| == 2 && j.JArray? && |j.items| == 2
    requires EncodeEntries(v, 2, depth, budget).Success? && EncodeEntries(v, 2, depth, budget).value.0 == j.items
    requires KeysStayApart(v.entries[1].key) && KeysStayApart(v.entries[1].value) && DecodePairs(j, 1, depth).Success?
    ensures DecodePairs(j, 2, depth)
         == Success(MapSet(DecodePairs(j, 1, depth).value, Received(v.entries[1].key), Received(v.entries[1].value)))
  {
    hide KeysStayApart, Received, MapSet;
    var before := EncodeEntries(v, 1, depth, budget).value;
    var key := EncodeJson(v.entries[1].key, depth, before.1).value;
    RoundTrip(v.entries[1].key, depth, before.1);
    RoundTrip(v.entries[1].value, depth, key.1);
  }

  lemma KeepsLast(key: Value, a: Value, b: Value)
    requires IsScalar(key)
    ensures MapSet([Entry(key, a)], key, b) == [Entry(key, b)]
  {
  }

  /** A big integer and its decimal text. */
  lemma {:induction false} BigIntegerMeetsItsText(n: int, a: Value, b: Value, depth: nat, budget: nat)
    requires !IsSafe(n) && KeysStayApart(a) && KeysStayApart(b)
    requires EncodeJson(Pair(Big(n), a, Str(Decimal(n)), b), depth, budget).Success?
    ensures Decode(EncodeJson(Pair(Big(n), a, Str(Decimal(n)), b), depth, budget).value.0, depth)
         == Success(Map([Entry(Str(Decimal(n)), Received(b))]))
  {
    hide Decode, EncodeJson, Decimal;
    FirstIsLost(Big(n), a, Str(Decimal(n)), b, depth, budget);
  }

  /** A number and the equal bigint, which are different keys of a Map. */
  lemma {:induction false} NumberMeetsItsBigint(n: SafeInt, a: Value, b: Value, depth: nat, budget: nat)
    requires KeysStayApart(a) && KeysStayApart(b)
    requires EncodeJson(Pair(Num(n), a, Big(n), b), depth, budget).Success?
    ensures Decode(EncodeJson(Pair(Num(n), a, Big(n), b), depth, budget).value.0, depth)
         == Success(Map([Entry(Num(n), Received(b))]))
  {
    hide Decode, EncodeJson;
    FirstIsLost(Num(n), a, Big(n), b, depth, budget);
  }

  /** What a pair of scalars costs. */
  lemma {:induction false} PairSucceeds(first: Value, a: Value, second: Value, b: Value, budget: nat)
    requires IsScalar(first) && IsScalar(a) && IsScalar(second) && IsScalar(b)
    requires budget >= 25 + OwnCost(first) + OwnCost(a) + OwnCost(second) + OwnCost(b)
    ensures EncodeJson(Pair(first, a, second, b), 0, budget).Success?
  {
    hide OwnCost, Decimal, IsScalar, EncodeJson, EncodeEntries;
    var v := Pair(first, a, second, b);
    var left := budget - 25;
    PairCost(v);
    NoEntries(v, 1, left);
    EntrySucceeds(v, 0, left, left);
    EntrySucceeds(v, 1, left, left - OwnCost(first) - OwnCost(a));
    MapSucceeds(v, 0, budget);
  }

  lemma PairCost(v: Value)
    requires v.Map? && |v.entries| == 2
    ensures OwnCost(v) == 25
  {
  }

  lemma NoEntries(v: Value, depth: nat, budget: nat)
    requires v.Map?
    ensures EncodeEntries(v, 0, depth, budget) == Success(([], budget))
  {
  }

  lemma {:induction false} MapSucceeds(v: Value, depth: nat, budget: nat)
    requires v.Map? && depth <= MAX_DEPTH && OwnCost(v) <= budget
    requires EncodeEntries(v, |v.entries|, depth + 1, budget - OwnCost(v)).Success?
    ensures EncodeJson(v, depth, budget).Success?
  {
    hide OwnCost, EncodeEntries;
  }

  lemma {:induction false} EntrySucceeds(v: Value, k: nat, budget: nat, left: nat)
    requires v.Map? && k < |v.entries| && IsScalar(v.entries[k].key) && IsScalar(v.entries[k].value)
    requires EncodeEntries(v, k, 1, budget).Success? && EncodeEntries(v, k, 1, budget).value.1 == left
    requires left >= OwnCost(v.entries[k].key) + OwnCost(v.entries[k].value)
    ensures EncodeEntries(v, k + 1, 1, budget).Success?
    ensures EncodeEntries(v, k + 1, 1, budget).value.1 == left - OwnCost(v.entries[k].key) - OwnCost(v.entries[k].value)
  {
    hide OwnCost, IsScalar, EncodeJson;
    ScalarSucceeds(v.entries[k].key, 1, left);
    ScalarSucceeds(v.entries[k].value, 1, left - OwnCost(v.entries[k].key));
  }

  lemma ScalarSucceeds(v: Value, depth: nat, budget: nat)
    requires IsScalar(v) && depth <= MAX_DEPTH && budget >= OwnCost(v)
    ensures EncodeJson(v, depth, budget).Success? && EncodeJson(v, depth, budget).value.1 == budget - OwnCost(v)
  {
    hide OwnCost, Decimal;
  }

  const TWO_TO_53: int := 9007199254740992

  /** The text "9007199254740992". */
  const TEXT_OF_TWO_TO_53: Utf8.Text :=
    [0x39, 0x30, 0x30, 0x37, 0x31, 0x39, 0x39, 0x32, 0x35, 0x34, 0x37, 0x34, 0x30, 0x39, 0x39, 0x32]

  /** One more digit of that text. */
  lemma {:induction false} DigitsStep(n: nat, k: nat)
    requires n >= 10 && k < 16 && Digits(n / 10) == TEXT_OF_TWO_TO_53[..k] && TEXT_OF_TWO_TO_53[k] == Digit(n % 10)
    ensures Digits(n) == TEXT_OF_TWO_TO_53[..k + 1]
  {
  }

  lemma {:induction false} FirstHalf()
    ensures Digits(90071992) == TEXT_OF_TWO_TO_53[..8]
  {
    assert Digits(9) == TEXT_OF_TWO_TO_53[..1];
    hide Digits;
    DigitsStep(90, 1);
    DigitsStep(900, 2);
    DigitsStep(9007, 3);
    DigitsStep(90071, 4);
    DigitsStep(900719, 5);
    DigitsStep(9007199, 6);
    DigitsStep(90071992, 7);
  }

  lemma {:induction false} TextOfTwoTo53()
    ensures Decimal(TWO_TO_53) == TEXT_OF_TWO_TO_53
  {
    FirstHalf();
    hide Digits;
    DigitsStep(900719925, 8);
    DigitsStep(9007199254, 9);
    DigitsStep(90071992547, 10);
    DigitsStep(900719925474, 11);
    DigitsStep(9007199254740, 12);
    DigitsStep(90071992547409, 13);
    DigitsStep(900719925474099, 14);
    DigitsStep(9007199254740992, 15);
    assert TEXT_OF_TWO_TO_53[..16] == TEXT_OF_TWO_TO_53;
  }

  lemma {:induction false} BytesOfTwoTo53()
    ensures |Utf8.Encode(TEXT_OF_TWO_TO_53)| == 16
  {
    hide Utf8.Encode;
    Utf8.AsciiEncodes(TEXT_OF_TWO_TO_53);
    assert Utf8.IsAscii(TEXT_OF_TWO_TO_53);
  }

  lemma {:induction false} CostOfTwoTo53()
    ensures OwnCost(Big(TWO_TO_53)) == OwnCost(Str(TEXT_OF_TWO_TO_53)) == 18 && OwnCost(Bool(false)) == OwnCost(Bool(true)) == 1
  {
    TextOfTwoTo53();
    BytesOfTwoTo53();
    hide Decimal, Utf8.Encode;
  }

  /** The families are real: at the top level, within 63 bytes, 2^53 as a bigint and as a text become
      one key, and within 29 bytes so do 1 and the bigint 1. */
  lemma {:induction false} TwoTo53LosesAnEntry()
    ensures var v := Pair(Big(TWO_TO_53), Bool(false), Str(TEXT_OF_TWO_TO_53), Bool(true));
            && EncodeJson(v, 0, 63).Success?
            && Decode(EncodeJson(v, 0, 63).value.0, 0) == Success(Map([Entry(Str(TEXT_OF_TWO_TO_53), Bool(true))]))
  {
    TextOfTwoTo53();
    CostOfTwoTo53();
    assert !IsSafe(TWO_TO_53) && Received(Bool(true)) == Bool(true);
    hide EncodeJson, Decode, Decimal, OwnCost, Received;
    PairSucceeds(Big(TWO_TO_53), Bool(false), Str(TEXT_OF_TWO_TO_53), Bool(true), 63);
    BigIntegerMeetsItsText(TWO_TO_53, Bool(false), Bool(true), 0, 63);
  }

  lemma {:induction false} OneLosesAnEntry()
    ensures var v := Pair(Num(1), Bool(false), Big(1), Bool(true));
            && EncodeJson(v, 0, 29).Success?
            && Decode(EncodeJson(v, 0, 29).value.0, 0) == Success(Map([Entry(Num(1), Bool(true))]))
  {
    assert Received(Bool(true)) == Bool(true);
    assert OwnCost(Num(1)) == OwnCost(Big(1)) == OwnCost(Bool(false)) == OwnCost(Bool(true)) == 1;
    hide EncodeJson, Decode, OwnCost, Received;
    PairSucceeds(Num(1), Bool(false), Big(1), Bool(true), 29);
    NumberMeetsItsBigint(1, Bool(false), Bool(true), 0, 29);
  }

  // ----- Values for which nothing can go wrong -----

  /** No bigints, and maps and records whose keys differ, as those of a Map or an object do. */
  predicate Plain(v: Value)
    decreases v
  {
    match v
    case Big(_) => false
    case List(items) => forall i | 0 <= i < |items| :: Plain(items[i])
    case Map(entries) => KeysDistinct(entries) && forall i | 0 <= i < |entries| :: Plain(entries[i].key) && Plain(entries[i].value)
    case Record(fields) =>
      && (forall i, j | 0 <= i < j < |fields| :: fields[i].name != fields[j].name)
      && forall i | 0 <= i < |fields| :: Plain(fields[i].value)
    case _ => true
  }

  lemma PlainScalar(v: Value)
    requires Plain(v)
    ensures IsScalar(v) <==> IsScalar(Received(v))
    ensures IsScalar(v) ==> Received(v) == v
  {
  }

  lemma {:induction false} PlainStaysApart(v: Value)
    requires Plain(v)
    ensures KeysStayApart(v)
    decreases v
  {
    hide Received;
    match v
    case List(items) =>
      forall i | 0 <= i < |items|
        ensures KeysStayApart(items[i])
      {
        PlainStaysApart(items[i]);
      }
    case Map(entries) =>
      PlainKeysDistinct(v);
      forall i | 0 <= i < |entries|
        ensures KeysStayApart(entries[i].key) && KeysStayApart(entries[i].value)
      {
        PlainStaysApart(entries[i].key);
        PlainStaysApart(entries[i].value);
      }
    case Record(fields) =>
      PlainNamesDistinct(v);
      forall i | 0 <= i < |fields|
        ensures KeysStayApart(fields[i].value)
      {
        PlainStaysApart(fields[i].value);
      }
    case _ =>
  }

  lemma {:induction false} PlainKeysDistinct(v: Value)
    requires v.Map? && Plain(v)
    ensures KeysDistinct(ReceivedEntries(v, |v.entries|))
  {
    hide Received, ReceivedEntries;
    var all := ReceivedEntries(v, |v.entries|);
    forall i, j | 0 <= i < j < |all| && IsScalar(all[i].key)
      ensures all[i].key != all[j].key
    {
      EntryAt(v, |v.entries|, i);
      EntryAt(v, |v.entries|, j);
      PlainScalar(v.entries[i].key);
      PlainScalar(v.entries[j].key);
    }
  }

  lemma {:induction false} PlainNamesDistinct(v: Value)
    requires v.Record? && Plain(v)
    ensures KeysDistinct(ReceivedFields(v, |v.fields|))
  {
    hide Received, ReceivedFields;
    var all := ReceivedFields(v, |v.fields|);
    forall i, j | 0 <= i < j < |all| && IsScalar(all[i].key)
      ensures all[i].key != all[j].key
    {
      FieldAt(v, |v.fields|, i);
      FieldAt(v, |v.fields|, j);
    }
  }

  /** A plain value that is encoded decodes to itself, with records as maps. */
  lemma {:induction false} PlainRoundTrip(v: Value, depth: nat, budget: nat)
    requires Plain(v) && EncodeJson(v, depth, budget).Success?
    ensures Decode(EncodeJson(v, depth, budget).value.0, depth) == Success(Received(v))
  {
    PlainStaysApart(v);
    RoundTrip(v, depth, budget);
  }

  predicate HasNoRecord(v: Value)
    decreases v
  {
    match v
    case List(items) => forall i | 0 <= i < |items| :: HasNoRecord(items[i])
    case Map(entries) => forall i | 0 <= i < |entries| :: HasNoRecord(entries[i].key) && HasNoRecord(entries[i].value)
    case Record(_) => false
    case _ => true
  }

  /** Nothing else changes on the way: a plain value without records arrives as it was. */
  lemma {:induction false} PlainArrivesAsItWas(v: Value)
    requires Plain(v) && HasNoRecord(v)
    ensures Received(v) == v
    decreases v
  {
    match v
    case List(items) =>
      PlainItems(v, |items|);
      assert items[..|items|] == items;
    case Map(entries) =>
      PlainEntries(v, |entries|);
      assert entries[..|entries|] == entries;
    case _ =>
  }

  lemma {:induction false} PlainItems(v: Value, k: nat)
    requires v.List? && k <= |v.items| && Plain(v) && HasNoRecord(v)
    ensures ReceivedItems(v, k) == v.items[..k]
    decreases v, k
  {
    if k > 0 {
      PlainItems(v, k - 1);
      PlainArrivesAsItWas(v.items[k - 1]);
    }
  }

  lemma {:induction false} PlainEntries(v: Value, k: nat)
    requires v.Map? && k <= |v.entries| && Plain(v) && HasNoRecord(v)
    ensures ReceivedEntries(v, k) == v.entries[..k]
    decreases v, k
  {
    if k > 0 {
      PlainEntries(v, k - 1);
      PlainArrivesAsItWas(v.entries[k - 1].key);
      PlainArrivesAsItWas(v.entries[k - 1].value);
    }
  }
}
