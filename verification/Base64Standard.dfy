/** That the encoding is the standard one, section 4 of RFC 4648. */
module Base64Standard {
  import opened Base64

  /** From one value to the next the letters go on, except where upper case, lower case, digits, plus and
      slash follow one another. */
  lemma AlphabetIsStandard(s: bv8)
    requires s < 64
    ensures s == 0 ==> Letter(s) == 0x41
    ensures s == 25 ==> Letter(s) == 0x5a
    ensures s == 26 ==> Letter(s) == 0x61
    ensures s == 51 ==> Letter(s) == 0x7a
    ensures s == 52 ==> Letter(s) == 0x30
    ensures s == 61 ==> Letter(s) == 0x39
    ensures s == 62 ==> Letter(s) == 0x2b
    ensures s == 63 ==> Letter(s) == 0x2f
    ensures s < 61 && s != 25 && s != 51 ==> Letter(s + 1) == Letter(s) + 1
  {
  }

  /** The test vectors of section 10: "f", "fo" and "foo", and "foobar" which is two groups. */
  lemma {:induction false} TestVectors()
    ensures Encode([]) == []
    ensures Encode([0x66]) == [0x5a, 0x67, 0x3d, 0x3d]
    ensures Encode([0x66, 0x6f]) == [0x5a, 0x6d, 0x38, 0x3d]
    ensures Encode([0x66, 0x6f, 0x6f]) == [0x5a, 0x6d, 0x39, 0x76]
  {
    var foo: seq<bv8> := [0x66, 0x6f, 0x6f];
    assert foo[3..] == [];
  }

  /** Groups of three bytes are encoded one after the other. */
  lemma {:induction false} GroupsFollow(a: seq<bv8>, b: seq<bv8>)
    requires |a| % 3 == 0
    ensures Encode(a + b) == Encode(a) + Encode(b)
  {
    hide Letter, First, Second, Third, Fourth;
    if a == [] {
      assert a + b == b;
    } else {
      assert (a + b)[3..] == a[3..] + b;
      GroupsFollow(a[3..], b);
    }
  }
}
