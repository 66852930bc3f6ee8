/** That the checksum is the standard one: the generator of section 3.2.9 of IEEE 802.3, and the residue that
    every message with its checksum leaves in the register. */
module Crc32Standard {
  import opened Crc32

  /** The exponents of the generator below its highest, 32. */
  predicate InGenerator(exponent: nat) {
    exponent in {26, 23, 22, 16, 12, 11, 10, 8, 7, 5, 4, 2, 1, 0}
  }

  /** The register is reflected: its lowest bit stands for the highest exponent. */
  lemma PolynomialIsStandard(i: nat)
    requires i < 32
    ensures (POLY >> i) & 1 == 1 <==> InGenerator(31 - i)
  {
  }

  function Down(c: bv32): bv32 {
    c >> 8
  }

  function Byte(c: bv32): bv8 {
    (c & 0xff) as bv8
  }

  /** The bytes of a checksum as they are sent, lowest first. */
  function Trailer(crc: bv32): seq<bv8> {
    [Byte(crc), Byte(Down(crc)), Byte(Down(Down(crc))), Byte(Down(Down(Down(crc))))]
  }

  // ----- Bits -----

  lemma ByteIsLow(c: bv32)
    ensures Byte(c) as bv32 == LowByte(c)
  {
  }

  lemma XorIs(a: bv32, b: bv32)
    ensures Xor(a, b) == a ^ b
  {
  }

  lemma LowBytesMeet(c: bv32, k: bv32)
    ensures LowByte(Xor(Xor(c, k), LowByte(Xor(c, ONES)))) == LowByte(Xor(k, 0xff))
  {
  }

  lemma ShiftBits(c: bv32, k: bv32)
    ensures (c ^ k) >> 8 == (c >> 8) ^ (k >> 8)
  {
  }

  lemma {:induction false} DownXor(c: bv32, k: bv32)
    ensures Down(Xor(c, k)) == Xor(Down(c), Down(k))
  {
    hide Xor;
    XorIs(c, k);
    XorIs(c >> 8, k >> 8);
    ShiftBits(c, k);
  }

  /** Shifting zeros into a complement or ones makes no difference to its lowest byte, three times. */
  lemma LowAfterOne(c: bv32)
    ensures ((c ^ ONES) >> 8) & 0xff == ((c >> 8) ^ ONES) & 0xff
  {
  }

  lemma LowAfterTwo(c: bv32)
    ensures ((c ^ ONES) >> 8 >> 8) & 0xff == ((c >> 8 >> 8) ^ ONES) & 0xff
  {
  }

  lemma LowAfterThree(c: bv32)
    ensures ((c ^ ONES) >> 8 >> 8 >> 8) & 0xff == ((c >> 8 >> 8 >> 8) ^ ONES) & 0xff
  {
  }

  lemma NothingLeft(c: bv32)
    ensures Down(Down(Down(Down(c)))) == 0
  {
  }

  lemma XorZero(c: bv32)
    ensures Xor(c, 0) == c && Xor(0, c) == c
  {
  }

  lemma {:induction false} FirstByte(c: bv32)
    ensures Byte(Xor(c, ONES)) as bv32 == LowByte(Xor(c, ONES))
  {
    ByteIsLow(Xor(c, ONES));
    hide Byte, LowByte, Xor;
  }

  lemma {:induction false} SecondByte(c: bv32)
    ensures Byte(Down(Xor(c, ONES))) as bv32 == LowByte(Xor(Down(c), ONES))
  {
    hide Byte, Xor;
    ByteIsLow(Down(Xor(c, ONES)));
    XorIs(c, ONES);
    XorIs(Down(c), ONES);
    LowAfterOne(c);
  }

  lemma {:induction false} ThirdByte(c: bv32)
    ensures Byte(Down(Down(Xor(c, ONES)))) as bv32 == LowByte(Xor(Down(Down(c)), ONES))
  {
    hide Byte, Xor;
    ByteIsLow(Down(Down(Xor(c, ONES))));
    XorIs(c, ONES);
    XorIs(Down(Down(c)), ONES);
    LowAfterTwo(c);
  }

  lemma {:induction false} FourthByte(c: bv32)
    ensures Byte(Down(Down(Down(Xor(c, ONES))))) as bv32 == LowByte(Xor(Down(Down(Down(c))), ONES))
  {
    hide Byte, Xor;
    ByteIsLow(Down(Down(Down(Xor(c, ONES)))));
    XorIs(c, ONES);
    XorIs(Down(Down(Down(c))), ONES);
    LowAfterThree(c);
  }

  // ----- The residue -----

  /** Feeding the complement of the register's lowest byte leaves nothing of that byte. */
  lemma {:induction false} ComplementFed(c: bv32, k: bv32, b: bv8)
    requires b as bv32 == LowByte(Xor(c, ONES))
    ensures FeedBits(Xor(c, k), b as bv32, 8) == Xor(Down(c), Xor(Down(k), Entry(LowByte(Xor(k, 0xff)))))
  {
    LookupFeedsByte(Xor(c, k), b);
    assert Down(Xor(c, k)) == Xor(c, k) >> 8;
    hide Entry, FeedBits, LowByte, Xor, Down;
    LowBytesMeet(c, k);
    DownXor(c, k);
    XorLaws(Down(c), Down(k), Entry(LowByte(Xor(k, 0xff))));
  }

  /** What the registers of the four steps have in common, whatever the message. */
  lemma {:induction false} FirstConstant()
    ensures Xor(Down(0), Entry(LowByte(Xor(0, 0xff)))) == 0x2d02_ef8d
  {
    StepsUnrolled(0xff);
  }

  lemma {:induction false} SecondConstant()
    ensures Xor(Down(0x2d02_ef8d), Entry(LowByte(Xor(0x2d02_ef8d, 0xff)))) == 0xbe26_12ff
  {
    StepsUnrolled(0x72);
  }

  lemma {:induction false} ThirdConstant()
    ensures Xor(Down(0xbe26_12ff), Entry(LowByte(Xor(0xbe26_12ff, 0xff)))) == 0x00be_2612
  {
    StepsUnrolled(0x00);
  }

  lemma {:induction false} FourthConstant()
    ensures Xor(Down(0x00be_2612), Entry(LowByte(Xor(0x00be_2612, 0xff)))) == 0xdebb_20e3
  {
    StepsUnrolled(0xed);
  }

  lemma {:induction false} FourFed(c: bv32, s: seq<bv8>)
    requires |s| == 4
    ensures Feed(c, s) == FeedBits(FeedBits(FeedBits(FeedBits(c, s[0] as bv32, 8), s[1] as bv32, 8), s[2] as bv32, 8), s[3] as bv32, 8)
  {
    hide FeedBits;
    var t, u := s[1..], s[2..];
    assert t[1..] == u && u[1..] == s[3..] && s[3..][1..] == [];
    assert t[0] == s[1] && u[0] == s[2] && s[3..][0] == s[3];
    var d := FeedBits(c, s[0] as bv32, 8);
    var e := FeedBits(d, s[1] as bv32, 8);
    var f := FeedBits(e, s[2] as bv32, 8);
    assert Feed(c, s) == Feed(d, t);
    assert Feed(d, t) == Feed(e, u);
    assert Feed(e, u) == Feed(f, s[3..]);
    assert Feed(f, s[3..]) == Feed(FeedBits(f, s[3] as bv32, 8), []);
  }

  lemma {:induction false} FirstFed(c: bv32)
    ensures FeedBits(c, Byte(Xor(c, ONES)) as bv32, 8) == Xor(Down(c), 0x2d02_ef8d)
  {
    hide FeedBits, Entry, LowByte, Xor, Byte, Down;
    FirstByte(c);
    ComplementFed(c, 0, Byte(Xor(c, ONES)));
    FirstConstant();
    XorZero(c);
  }

  lemma {:induction false} SecondFed(c: bv32)
    ensures FeedBits(Xor(Down(c), 0x2d02_ef8d), Byte(Down(Xor(c, ONES))) as bv32, 8) == Xor(Down(Down(c)), 0xbe26_12ff)
  {
    hide FeedBits, Entry, LowByte, Xor, Byte, Down;
    SecondByte(c);
    ComplementFed(Down(c), 0x2d02_ef8d, Byte(Down(Xor(c, ONES))));
    SecondConstant();
  }

  lemma {:induction false} ThirdFed(c: bv32)
    ensures FeedBits(Xor(Down(Down(c)), 0xbe26_12ff), Byte(Down(Down(Xor(c, ONES)))) as bv32, 8)
         == Xor(Down(Down(Down(c))), 0x00be_2612)
  {
    hide FeedBits, Entry, LowByte, Xor, Byte, Down;
    ThirdByte(c);
    ComplementFed(Down(Down(c)), 0xbe26_12ff, Byte(Down(Down(Xor(c, ONES)))));
    ThirdConstant();
  }

  lemma {:induction false} FourthFed(c: bv32)
    ensures FeedBits(Xor(Down(Down(Down(c))), 0x00be_2612), Byte(Down(Down(Down(Xor(c, ONES))))) as bv32, 8) == 0xdebb_20e3
  {
    hide FeedBits, Entry, LowByte, Xor, Byte, Down;
    FourthByte(c);
    ComplementFed(Down(Down(Down(c))), 0x00be_2612, Byte(Down(Down(Down(Xor(c, ONES))))));
    FourthConstant();
    NothingLeft(c);
    XorZero(0xdebb_20e3);
  }

  lemma {:induction false} TrailerFed(c: bv32)
    ensures Feed(c, Trailer(Xor(c, ONES))) == 0xdebb_20e3
  {
    hide Feed, FeedBits, Xor, Byte, Down;
    FourFed(c, Trailer(Xor(c, ONES)));
    FirstFed(c);
    SecondFed(c);
    ThirdFed(c);
    FourthFed(c);
  }

  /** Every message followed by its own checksum, lowest byte first, leaves the residue of the standard
      in the register, so that one test tells whether both are intact. */
  lemma {:induction false} ResidueIsStandard(message: seq<bv8>)
    ensures Feed(ONES, message + Trailer(Crc(message))) == 0xdebb_20e3
  {
    hide Feed, Trailer, Xor;
    FeedConcat(ONES, message, Trailer(Crc(message)));
    TrailerFed(Feed(ONES, message));
  }
}
