/** CRC-32 (section 8 of RFC 1952): bit by bit as the definition, and table-driven, over bytes or
    straight over UTF-16 text, as the implementation. */
module Crc32 {
  import opened Utf8

  const POLY: bv32 := 0xedb8_8320
  const ONES: bv32 := 0xffff_ffff

  // ----- The definition -----

  function Xor(a: bv32, b: bv32): bv32 {
    a ^ b
  }

  predicate Odd(c: bv32) {
    c & 1 != 0
  }

  function Half(c: bv32): bv32 {
    c >> 1
  }

  function Pick(odd: bool, half: bv32): bv32 {
    if odd then Xor(POLY, half) else half
  }

  /** One bit enters the shift register: the polynomial is subtracted when it differs from the bit
      that leaves. */
  function FeedBit(c: bv32, bit: bool): bv32 {
    Pick(Odd(c) != bit, Half(c))
  }

  /** The lowest `n` bits of a byte enter, least significant first. */
  function FeedBits(c: bv32, b: bv32, n: nat): bv32
    decreases n
  {
    if n == 0 then c else FeedBits(FeedBit(c, Odd(b)), Half(b), n - 1)
  }

  function Feed(c: bv32, bytes: seq<bv8>): bv32
    decreases |bytes|
  {
    if bytes == [] then c else Feed(FeedBits(c, bytes[0] as bv32, 8), bytes[1..])
  }

  function Crc(bytes: seq<bv8>): bv32 {
    Xor(Feed(ONES, bytes), ONES)
  }

  lemma {:induction false} FeedConcat(c: bv32, a: seq<bv8>, b: seq<bv8>)
    ensures Feed(c, a + b) == Feed(Feed(c, a), b)
    decreases |a|
  {
    if a == [] {
      assert a + b == b;
    } else {
      assert (a + b)[1..] == a[1..] + b;
      FeedConcat(FeedBits(c, a[0] as bv32, 8), a[1..], b);
    }
  }

  // ----- The table -----

  /** One step of the table construction. */
  function Step(c: bv32): bv32 {
    Pick(Odd(c), Half(c))
  }

  function Steps(c: bv32, n: nat): bv32
    decreases n
  {
    if n == 0 then c else Steps(Step(c), n - 1)
  }

  lemma XorHalf(a: bv32, b: bv32)
    ensures Half(Xor(a, b)) == Xor(Half(a), Half(b))
  {
  }

  lemma XorOdd(a: bv32, b: bv32)
    ensures Odd(Xor(a, b)) <==> Odd(a) != Odd(b)
  {
  }

  lemma XorLaws(p: bv32, x: bv32, y: bv32)
    ensures Xor(Xor(p, x), Xor(p, y)) == Xor(x, y)
    ensures Xor(Xor(p, x), y) == Xor(p, Xor(x, y)) && Xor(x, Xor(p, y)) == Xor(p, Xor(x, y))
    ensures Xor(x, 0) == x && Xor(0, x) == x
  {
  }

  lemma {:induction false} PickXor(p: bool, q: bool, x: bv32, y: bv32)
    ensures Pick(p != q, Xor(x, y)) == Xor(Pick(p, x), Pick(q, y))
    ensures Xor(Pick(p, x), Pick(q, y)) == Xor(Pick(p != q, x), y)
  {
    hide Xor;
    XorLaws(POLY, x, y);
  }

  /** A step is linear. */
  lemma {:induction false} StepXor(a: bv32, b: bv32)
    ensures Step(Xor(a, b)) == Xor(Step(a), Step(b))
  {
    hide Odd, Half, Pick, Xor;
    XorHalf(a, b);
    XorOdd(a, b);
    PickXor(Odd(a), Odd(b), Half(a), Half(b));
  }

  lemma {:induction false} StepsXor(a: bv32, b: bv32, n: nat)
    ensures Steps(Xor(a, b), n) == Xor(Steps(a, n), Steps(b, n))
    decreases n
  {
    hide Step, Xor;
    if n > 0 {
      StepXor(a, b);
      StepsXor(Step(a), Step(b), n - 1);
    }
  }

  /** A bit that enters may as well be added to the register first. */
  lemma {:induction false} FeedBitIsStep(c: bv32, b: bv32)
    ensures Step(Xor(c, b)) == Xor(FeedBit(c, Odd(b)), Half(b))
  {
    hide Odd, Half, Pick, Xor;
    StepXor(c, b);
    PickXor(Odd(c), Odd(b), Half(c), Half(b));
  }

  /** Feeding n bits is n steps on the sum, when no other bits are set. */
  lemma {:induction false} FeedBitsAreSteps(c: bv32, b: bv32, n: nat)
    requires Shifted(b, n) == 0
    ensures FeedBits(c, b, n) == Steps(Xor(c, b), n)
    decreases n
  {
    hide Odd, Half, Step, FeedBit, Xor;
    if n == 0 {
      XorLaws(0, c, 0);
    } else {
      FeedBitIsStep(c, b);
      FeedBitsAreSteps(FeedBit(c, Odd(b)), Half(b), n - 1);
    }
  }

  /** What is left of b after n bits have been taken. */
  function Shifted(b: bv32, n: nat): bv32
    decreases n
  {
    if n == 0 then b else Shifted(Half(b), n - 1)
  }

  lemma {:induction false} ByteIsShort(b: bv8)
    ensures Shifted(b as bv32, 8) == 0
  {
    EightHalves(b);
    hide Half;
    var c := b as bv32;
    assert Shifted(c, 8) == Shifted(Half(Half(c)), 6);
    assert Shifted(Half(Half(c)), 6) == Shifted(Half(Half(Half(Half(c)))), 4);
    assert Shifted(Half(Half(Half(Half(c)))), 4) == Shifted(Half(Half(Half(Half(Half(Half(c)))))), 2);
  }

  lemma EightHalves(b: bv8)
    ensures Half(Half(Half(Half(Half(Half(Half(Half(b as bv32)))))))) == 0
  {
  }

  /** Eight steps on a value whose low byte is empty only shift it. */
  lemma {:induction false} StepsOnHigh(c: bv32)
    requires c & 0xff == 0
    ensures Steps(c, 8) == c >> 8
  {
    StepsUnrolled(c);
    EightShifts(c);
  }

  lemma EightShifts(c: bv32)
    requires c & 0xff == 0
    ensures Step(Step(Step(Step(Step(Step(Step(Step(c)))))))) == c >> 8
  {
  }

  lemma {:induction false} StepsUnrolled(c: bv32)
    ensures Steps(c, 8) == Step(Step(Step(Step(Step(Step(Step(Step(c))))))))
  {
    hide Step;
    assert Steps(c, 8) == Steps(Step(Step(c)), 6);
    assert Steps(Step(Step(c)), 6) == Steps(Step(Step(Step(Step(c)))), 4);
    assert Steps(Step(Step(Step(Step(c)))), 4) == Steps(Step(Step(Step(Step(Step(Step(c)))))), 2);
  }

  function LowByte(c: bv32): bv32 {
    c & 0xff
  }

  function HighBytes(c: bv32): bv32 {
    c & 0xffff_ff00
  }

  lemma SplitBytes(c: bv32, b: bv8)
    ensures Xor(HighBytes(c), LowByte(c)) == c && HighBytes(c) & 0xff == 0
    ensures HighBytes(Xor(c, b as bv32)) >> 8 == c >> 8
  {
  }

  /** The entry of a byte: eight steps on it. */
  function Entry(b: bv32): bv32 {
    Steps(b, 8)
  }

  /** One look-up does what feeding eight bits does. */
  lemma {:induction false} LookupFeedsByte(c: bv32, b: bv8)
    ensures Xor(c >> 8, Entry(LowByte(Xor(c, b as bv32)))) == FeedBits(c, b as bv32, 8)
  {
    hide Xor, LowByte, HighBytes, Steps, FeedBits;
    var x := Xor(c, b as bv32);
    ByteIsShort(b);
    FeedBitsAreSteps(c, b as bv32, 8);
    SplitBytes(x, 0);
    SplitBytes(c, b);
    StepsXor(HighBytes(x), LowByte(x), 8);
    StepsOnHigh(HighBytes(x));
  }

  /** Every entry of the table is that of its index. */
  predicate IsTable(table: seq<bv32>) {
    |table| == 256 && forall i | 0 <= i < 256 :: table[i] == Entry(i as bv32)
  }

  method BuildTable() returns (table: seq<bv32>)
    ensures IsTable(table)
  {
    hide Step;
    table := [];
    for index := 0 to 256
      invariant |table| == index && forall i | 0 <= i < index :: table[i] == Entry(i as bv32)
    {
      var value := index as bv32;
      for bit := 0 to 8
        invariant Steps(value, 8 - bit) == Entry(index as bv32)
      {
        assert Steps(value, 8 - bit) == Steps(Step(value), 8 - bit - 1);
        value := StepOnce(value);
      }
      table := table + [value];
    }
  }

  method StepOnce(value: bv32) returns (r: bv32)
    ensures r == Step(value)
  {
    if value & 1 != 0 { return 0xedb8_8320 ^ (value >> 1); }
    return value >> 1;
  }

  function Index(c: bv32): (i: nat)
    ensures i < 256
  {
    LowByte(c) as nat
  }

  lemma {:induction false} IndexIsLowByte(c: bv32)
    ensures Index(c) as bv32 == LowByte(c)
  {
    hide LowByte;
    BackAndForth(LowByte(c));
  }

  lemma BackAndForth(c: bv32)
    ensures (c as nat) as bv32 == c
  {
  }

  method UpdateCrc32(table: seq<bv32>, value: bv32, b: bv8) returns (r: bv32)
    requires IsTable(table)
    ensures r == FeedBits(value, b as bv32, 8)
  {
    LookupFeedsByte(value, b);
    IndexIsLowByte(Xor(value, b as bv32));
    hide Entry, FeedBits, LowByte, Index;
    return Xor(value >> 8, table[Index(Xor(value, b as bv32))]);
  }

  /** The table-driven CRC of a buffer is the CRC-32 of its bytes. */
  method Crc32(table: seq<bv32>, buffer: seq<bv8>) returns (r: bv32)
    requires IsTable(table)
    ensures r == Crc(buffer)
  {
    hide FeedBits, IsTable;
    var value := ONES;
    for index := 0 to |buffer|
      invariant Feed(value, buffer[index..]) == Feed(ONES, buffer)
    {
      assert buffer[index..][1..] == buffer[index + 1..];
      value := UpdateCrc32(table, value, buffer[index]);
    }
    return Xor(value, ONES);
  }

  /** The bytes of one character enter one by one. */
  method UpdatePoint(table: seq<bv32>, value: bv32, point: bv32) returns (r: bv32)
    requires IsTable(table) && point < 0x11_0000
    ensures r == Feed(value, EncodePoint(point))
  {
    hide FeedBits, IsTable, Lead2, Lead3, Lead4, Tail0, Tail6, Tail12;
    FeedSome(value, EncodePoint(point));
    if point < 0x80 {
      r := UpdateCrc32(table, value, point as bv8);
    } else if point < 0x800 {
      r := UpdateCrc32(table, value, Lead2(point));
      r := UpdateCrc32(table, r, Tail0(point));
    } else if point < 0x1_0000 {
      r := UpdateCrc32(table, value, Lead3(point));
      r := UpdateCrc32(table, r, Tail6(point));
      r := UpdateCrc32(table, r, Tail0(point));
    } else {
      r := UpdateCrc32(table, value, Lead4(point));
      r := UpdateCrc32(table, r, Tail12(point));
      r := UpdateCrc32(table, r, Tail6(point));
      r := UpdateCrc32(table, r, Tail0(point));
    }
  }

  lemma {:induction false} FeedSome(c: bv32, s: seq<bv8>)
    ensures |s| == 1 ==> Feed(c, s) == FeedBits(c, s[0] as bv32, 8)
    ensures |s| == 2 ==> Feed(c, s) == FeedBits(FeedBits(c, s[0] as bv32, 8), s[1] as bv32, 8)
    ensures |s| == 3 ==> Feed(c, s) == FeedBits(FeedBits(FeedBits(c, s[0] as bv32, 8), s[1] as bv32, 8), s[2] as bv32, 8)
    ensures |s| == 4 ==> Feed(c, s) == FeedBits(FeedBits(FeedBits(FeedBits(c, s[0] as bv32, 8), s[1] as bv32, 8), s[2] as bv32, 8),
                                                s[3] as bv32, 8)
  {
    hide FeedBits;
    if |s| == 1 {
      FeedOne(c, s);
    } else if |s| == 2 {
      FeedTwo(c, s);
    } else if |s| == 3 {
      FeedTwo(c, s);
      FeedOne(FeedBits(FeedBits(c, s[0] as bv32, 8), s[1] as bv32, 8), s[2..]);
    } else if |s| == 4 {
      FeedTwo(c, s);
      FeedTwo(FeedBits(FeedBits(c, s[0] as bv32, 8), s[1] as bv32, 8), s[2..]);
    }
  }

  lemma {:induction false} FeedTwo(c: bv32, s: seq<bv8>)
    requires |s| >= 2
    ensures Feed(c, s) == Feed(FeedBits(FeedBits(c, s[0] as bv32, 8), s[1] as bv32, 8), s[2..])
  {
    hide FeedBits;
    FeedOne(c, s);
    FeedOne(FeedBits(c, s[0] as bv32, 8), s[1..]);
    assert s[1..][1..] == s[2..];
  }

  lemma FeedOne(c: bv32, s: seq<bv8>)
    requires s != []
    ensures Feed(c, s) == Feed(FeedBits(c, s[0] as bv32, 8), s[1..])
  {
  }

  /** Of any range of a text, and without building its bytes: the CRC-32 of the UTF-8 encoding of
      that range, where a surrogate without its partner inside the range counts as U+FFFD. */
  method Crc32Utf8(table: seq<bv32>, text: Text, start: nat, end: nat) returns (r: bv32)
    requires IsTable(table) && start <= end <= |text|
    ensures r == Crc(Encode(text[start..end]))
  {
    hide FeedBits, IsTable, FirstPoint, EncodePoint, IsScalar;
    var value := ONES;
    var index := start;
    while index < end
      invariant start <= index <= end && Feed(value, Encode(text[index..end])) == Feed(ONES, Encode(text[start..end]))
    {
      var point, used := PointAt(text, index, end);
      EncodeFirst(value, text[index..end]);
      assert text[index..end][used..] == text[index + used..end];
      ScalarIsPoint(point);
      value := UpdatePoint(table, value, point);
      index := index + used;
    }
    return Xor(value, ONES);
  }

  lemma ScalarIsPoint(point: bv32)
    ensures IsScalar(point) ==> point < 0x11_0000
  {
  }

  lemma {:induction false} EncodeFirst(value: bv32, text: Text)
    requires text != []
    ensures IsScalar(FirstPoint(text).0)
    ensures Feed(value, Encode(text)) == Feed(Feed(value, EncodePoint(FirstPoint(text).0)), Encode(text[FirstPoint(text).1..]))
  {
    hide FirstPoint, EncodePoint;
    FirstPointIsScalar(text);
    var (point, used) := FirstPoint(text);
    FeedConcat(value, EncodePoint(point), Encode(text[used..]));
  }

  /** The character at an index, reading no further than the end of the range. */
  method PointAt(text: Text, index: nat, end: nat) returns (point: bv32, used: nat)
    requires index < end <= |text|
    ensures (point, used) == FirstPoint(text[index..end])
  {
    hide FirstPoint, IsHighSurrogate, IsLowSurrogate, Combine;
    ghost var rest := text[index..end];
    var first := text[index] as bv32;
    var second := if index + 1 < end then text[index + 1] as bv32 else 0;
    FirstPointFromUnits(rest, first, second);
    if IsHighSurrogate(first) {
      if IsLowSurrogate(second) { return Combine(first, second), 2; }
      return REPLACEMENT, 1;
    }
    if IsLowSurrogate(first) { return REPLACEMENT, 1; }
    return first, 1;
  }

  lemma {:induction false} FirstPointFromUnits(text: Text, first: bv32, second: bv32)
    requires text != [] && first == text[0] as bv32
    requires second == if |text| > 1 then text[1] as bv32 else 0
    ensures FirstPoint(text) == if IsHighSurrogate(first)
                                then if IsLowSurrogate(second) then (Combine(first, second), 2) else (REPLACEMENT, 1)
                                else if IsLowSurrogate(first) then (REPLACEMENT, 1) else (first, 1)
  {
    ZeroIsNoSurrogate();
    hide IsHighSurrogate, IsLowSurrogate, Combine;
  }

  lemma ZeroIsNoSurrogate()
    ensures !IsLowSurrogate(0)
  {
  }
}
