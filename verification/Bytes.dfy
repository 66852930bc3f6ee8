/** Bytes and big-endian integers. */
module Bytes {
  newtype byte = x: int | 0 <= x < 256

  /** The unsigned integer in the `width` bytes from `at` on, most significant byte first. */
  function UIntAt(s: seq<byte>, at: nat, width: nat): nat
    requires at + width <= |s|
    decreases width
  {
    if width == 0 then 0 else UIntAt(s, at, width - 1) * 256 + s[at + width - 1] as nat
  }

  /** Only the bytes it covers matter. */
  lemma {:induction false} UIntAtPrefix(s: seq<byte>, t: seq<byte>, at: nat, width: nat)
    requires at + width <= |s| && s <= t
    ensures UIntAt(s, at, width) == UIntAt(t, at, width)
    decreases width
  {
    if width > 0 { UIntAtPrefix(s, t, at, width - 1); }
  }

  function Pow256(width: nat): nat {
    if width == 0 then 1 else 256 * Pow256(width - 1)
  }

  /** An unsigned integer, most significant byte first. */
  function UIntBytes(n: nat, width: nat): (s: seq<byte>)
    ensures |s| == width
    decreases width
  {
    if width == 0 then [] else UIntBytes(n / 256, width - 1) + [(n % 256) as byte]
  }

  lemma {:induction false} UIntRoundTrip(n: nat, width: nat)
    requires n < Pow256(width)
    ensures UIntAt(UIntBytes(n, width), 0, width) == n
    decreases width
  {
    if width > 0 {
      var front := UIntBytes(n / 256, width - 1);
      UIntRoundTrip(n / 256, width - 1);
      UIntAtPrefix(front, UIntBytes(n, width), 0, width - 1);
    }
  }

  lemma {:induction false} Powers()
    ensures Pow256(1) == 0x100 && Pow256(2) == 0x1_0000 && Pow256(4) == 0x1_0000_0000 && Pow256(8) == 0x1_0000_0000_0000_0000
  {
    assert Pow256(2) == 256 * Pow256(1);
    assert Pow256(4) == 256 * Pow256(3) && Pow256(3) == 256 * Pow256(2);
    assert Pow256(8) == 256 * Pow256(7) && Pow256(7) == 256 * Pow256(6);
    assert Pow256(6) == 256 * Pow256(5) && Pow256(5) == 256 * Pow256(4);
  }

  /** Bytes in front do not matter, except that they are counted. */
  lemma {:induction false} UIntAtShift(front: seq<byte>, s: seq<byte>, at: nat, width: nat)
    requires at + width <= |s|
    ensures UIntAt(front + s, |front| + at, width) == UIntAt(s, at, width)
    decreases width
  {
    if width > 0 { UIntAtShift(front, s, at, width - 1); }
  }

  /** An integer that was written is read back where it was written, whatever is around it. */
  lemma {:induction false} UIntWithin(front: seq<byte>, n: nat, width: nat, rest: seq<byte>)
    requires n < Pow256(width)
    ensures UIntAt(front + UIntBytes(n, width) + rest, |front|, width) == n
  {
    UIntRoundTrip(n, width);
    UIntAtPrefix(UIntBytes(n, width), UIntBytes(n, width) + rest, 0, width);
    UIntAtShift(front, UIntBytes(n, width) + rest, 0, width);
    assert front + UIntBytes(n, width) + rest == front + (UIntBytes(n, width) + rest);
  }

  /** Writing what has been read gives the bytes that were read. */
  lemma {:induction false} UIntBytesOfUIntAt(s: seq<byte>, at: nat, width: nat)
    requires at + width <= |s|
    ensures UIntAt(s, at, width) < Pow256(width) && UIntBytes(UIntAt(s, at, width), width) == s[at..at + width]
    decreases width
  {
    if width > 0 {
      UIntBytesOfUIntAt(s, at, width - 1);
      assert s[at..at + width] == s[at..at + width - 1] + [s[at + width - 1]];
    }
  }
}
