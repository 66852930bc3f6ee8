/** The building blocks of the compact request formats: how each is written into a buffer, and a
    reader that takes them apart again. */
module CompactFields {
  import opened Wrappers
  import opened Bytes

  const NULL_U32: nat := 0xffff_ffff
  const TWO_64: nat := 0x1_0000_0000_0000_0000
  const MIN_I64: int := -0x8000_0000_0000_0000
  const MAX_I64: int := 0x7fff_ffff_ffff_ffff

  datatype Field = U8(n: nat) | U16(n: nat) | U32(n: nat) | I64(i: int) | Bin(bytes: seq<byte>) | Opt(value: Option<seq<byte>>)

  datatype Kind = KU8 | KU16 | KU32 | KI64 | KBin | KOpt

  function KindOf(f: Field): Kind {
    match f
    case U8(_) => KU8
    case U16(_) => KU16
    case U32(_) => KU32
    case I64(_) => KI64
    case Bin(_) => KBin
    case Opt(_) => KOpt
  }

  /** The largest length is taken by the sentinel for an absent value. */
  predicate FieldOk(f: Field) {
    match f
    case U8(n) => n < 0x100
    case U16(n) => n < 0x1_0000
    case U32(n) => n < 0x1_0000_0000
    case I64(i) => MIN_I64 <= i <= MAX_I64
    case Bin(bytes) => |bytes| < NULL_U32
    case Opt(value) => value.Some? ==> |value.value| < NULL_U32
  }

  /** Two's complement. */
  function AsUnsigned(i: int): nat
    requires MIN_I64 <= i <= MAX_I64
  {
    if i < 0 then i + TWO_64 else i
  }

  function AsSigned(n: nat): int {
    if n > MAX_I64 then n - TWO_64 else n
  }

  function FieldBytes(f: Field): seq<byte>
    requires FieldOk(f)
  {
    match f
    case U8(n) => UIntBytes(n, 1)
    case U16(n) => UIntBytes(n, 2)
    case U32(n) => UIntBytes(n, 4)
    case I64(i) => UIntBytes(AsUnsigned(i), 8)
    case Bin(bytes) => UIntBytes(|bytes|, 4) + bytes
    case Opt(value) => if value.None? then UIntBytes(NULL_U32, 4) else UIntBytes(|value.value|, 4) + value.value
  }

  function FieldSize(f: Field): nat {
    match f
    case U8(_) => 1
    case U16(_) => 2
    case U32(_) => 4
    case I64(_) => 8
    case Bin(bytes) => 4 + |bytes|
    case Opt(value) => 4 + if value.None? then 0 else |value.value|
  }

  lemma FieldSizeIsLength(f: Field)
    requires FieldOk(f)
    ensures |FieldBytes(f)| == FieldSize(f)
  {
  }

  predicate AllOk(fields: seq<Field>) {
    forall i | 0 <= i < |fields| :: FieldOk(fields[i])
  }

  function BytesOf(fields: seq<Field>): (s: seq<byte>)
    requires AllOk(fields)
  {
    if fields == [] then [] else BytesOf(fields[..|fields| - 1]) + FieldBytes(fields[|fields| - 1])
  }

  function Size(fields: seq<Field>): nat {
    if fields == [] then 0 else Size(fields[..|fields| - 1]) + FieldSize(fields[|fields| - 1])
  }

  lemma {:induction false} SizeIsLength(fields: seq<Field>)
    requires AllOk(fields)
    ensures |BytesOf(fields)| == Size(fields)
  {
    if fields != [] {
      SizeIsLength(fields[..|fields| - 1]);
      FieldSizeIsLength(fields[|fields| - 1]);
    }
  }

  lemma Associative<T>(a: seq<T>, b: seq<T>, c: seq<T>)
    ensures a + b + c == a + (b + c)
  {
  }

  lemma {:induction false} OkConcat(a: seq<Field>, b: seq<Field>)
    requires AllOk(a) && AllOk(b)
    ensures AllOk(a + b)
  {
    hide FieldOk;
  }

  lemma {:induction false} BytesConcat(a: seq<Field>, b: seq<Field>)
    requires AllOk(a) && AllOk(b)
    ensures AllOk(a + b) && BytesOf(a + b) == BytesOf(a) + BytesOf(b)
    decreases |b|
  {
    OkConcat(a, b);
    hide FieldOk, FieldBytes;
    if b == [] {
      assert a + b == a;
    } else {
      var init, last := b[..|b| - 1], b[|b| - 1];
      BytesConcat(a, init);
      assert (a + b)[..|a + b| - 1] == a + init;
      Associative(BytesOf(a), BytesOf(init), FieldBytes(last));
    }
  }

  lemma {:induction false} SizeConcat(a: seq<Field>, b: seq<Field>)
    ensures Size(a + b) == Size(a) + Size(b)
    decreases |b|
  {
    if b == [] {
      assert a + b == a;
    } else {
      SizeConcat(a, b[..|b| - 1]);
      assert (a + b)[..|a + b| - 1] == a + b[..|b| - 1];
    }
  }

  // ----- The reader -----

  function ReadField(kind: Kind, s: seq<byte>): (r: Option<(Field, seq<byte>)>)
    ensures r.Some? ==> |r.value.1| < |s|
  {
    match kind
    case KU8 => if |s| < 1 then None else Some((U8(UIntAt(s, 0, 1)), s[1..]))
    case KU16 => if |s| < 2 then None else Some((U16(UIntAt(s, 0, 2)), s[2..]))
    case KU32 => if |s| < 4 then None else Some((U32(UIntAt(s, 0, 4)), s[4..]))
    case KI64 => if |s| < 8 then None else Some((I64(AsSigned(UIntAt(s, 0, 8))), s[8..]))
    case KBin =>
      if |s| < 4 || |s| < 4 + UIntAt(s, 0, 4) || UIntAt(s, 0, 4) == NULL_U32 then None
      else Some((Bin(s[4..4 + UIntAt(s, 0, 4)]), s[4 + UIntAt(s, 0, 4)..]))
    case KOpt =>
      if |s| < 4 then None
      else if UIntAt(s, 0, 4) == NULL_U32 then Some((Opt(None), s[4..]))
      else if |s| < 4 + UIntAt(s, 0, 4) then None
      else Some((Opt(Some(s[4..4 + UIntAt(s, 0, 4)])), s[4 + UIntAt(s, 0, 4)..]))
  }

  function ReadFields(kinds: seq<Kind>, s: seq<byte>): Option<(seq<Field>, seq<byte>)>
    decreases |kinds|
  {
    if kinds == [] then Some(([], s))
    else
      match ReadField(kinds[0], s)
      case None => None
      case Some(first) =>
        match ReadFields(kinds[1..], first.1)
        case None => None
        case Some(others) => Some(([first.0] + others.0, others.1))
  }

  function KindsOf(fields: seq<Field>): (kinds: seq<Kind>)
    ensures |kinds| == |fields| && forall i | 0 <= i < |fields| :: kinds[i] == KindOf(fields[i])
  {
    seq(|fields|, i requires 0 <= i < |fields| => KindOf(fields[i]))
  }

  lemma {:induction false} UIntInFront(n: nat, width: nat, rest: seq<byte>)
    requires n < Pow256(width)
    ensures var s := UIntBytes(n, width) + rest; UIntAt(s, 0, width) == n && s[width..] == rest
  {
    UIntRoundTrip(n, width);
    UIntAtPrefix(UIntBytes(n, width), UIntBytes(n, width) + rest, 0, width);
  }

  lemma {:induction false} LengthInFront(n: nat, bytes: seq<byte>, rest: seq<byte>)
    requires n < Pow256(4)
    ensures var s := UIntBytes(n, 4) + bytes + rest;
            UIntAt(s, 0, 4) == n && s[4..4 + |bytes|] == bytes && s[4 + |bytes|..] == rest
  {
    assert UIntBytes(n, 4) + bytes + rest == UIntBytes(n, 4) + (bytes + rest);
    UIntInFront(n, 4, bytes + rest);
  }

  /** Whatever follows, a field that is written is read back as it was: the sentinels for an absent
      value never clash with a real one. */
  lemma {:induction false} FieldRoundTrip(f: Field, rest: seq<byte>)
    requires FieldOk(f)
    ensures ReadField(KindOf(f), FieldBytes(f) + rest) == Some((f, rest))
  {
    Powers();
    match f
    case U8(n) => UIntInFront(n, 1, rest);
    case U16(n) => UIntInFront(n, 2, rest);
    case U32(n) => UIntInFront(n, 4, rest);
    case I64(i) => UIntInFront(AsUnsigned(i), 8, rest);
    case Bin(bytes) => LengthInFront(|bytes|, bytes, rest);
    case Opt(None) => UIntInFront(NULL_U32, 4, rest);
    case Opt(Some(bytes)) => LengthInFront(|bytes|, bytes, rest);
  }

  lemma {:induction false} FieldsRoundTrip(fields: seq<Field>, rest: seq<byte>)
    requires AllOk(fields)
    ensures ReadFields(KindsOf(fields), BytesOf(fields) + rest) == Some((fields, rest))
    decreases |fields|
  {
    hide FieldOk, FieldBytes, ReadField, KindOf;
    if fields == [] {
      assert [] + rest == rest;
    } else {
      var first, others := fields[0], fields[1..];
      assert fields == [first] + others;
      BytesConcat([first], others);
      BytesOfOne(first);
      Associative(FieldBytes(first), BytesOf(others), rest);
      FieldRoundTrip(first, BytesOf(others) + rest);
      assert KindsOf(fields)[1..] == KindsOf(others);
      FieldsRoundTrip(others, rest);
    }
  }

  lemma {:induction false} BytesOfOne(f: Field)
    requires FieldOk(f)
    ensures BytesOf([f]) == FieldBytes(f)
  {
    assert [f][..0] == [];
    assert [] + FieldBytes(f) == FieldBytes(f);
  }

  // ----- Groups of fields -----

  /** The groups 0 to n - 1, one after another. */
  function Groups(group: nat -> seq<Field>, n: nat): seq<Field> {
    if n == 0 then [] else Groups(group, n - 1) + group(n - 1)
  }

  ghost predicate GroupsOk(group: nat -> seq<Field>, n: nat) {
    forall i: nat | i < n :: AllOk(group(i))
  }

  lemma {:induction false} GroupsAreOk(group: nat -> seq<Field>, n: nat)
    requires GroupsOk(group, n)
    ensures AllOk(Groups(group, n))
  {
    if n > 0 { GroupsAreOk(group, n - 1); }
  }

  function ReadGroups(kinds: seq<Kind>, n: nat, s: seq<byte>): Option<(seq<seq<Field>>, seq<byte>)>
    decreases n
  {
    if n == 0 then Some(([], s))
    else
      match ReadFields(kinds, s)
      case None => None
      case Some(first) =>
        match ReadGroups(kinds, n - 1, first.1)
        case None => None
        case Some(others) => Some(([first.0] + others.0, others.1))
  }

  /** The groups from k to n - 1. */
  function Later(group: nat -> seq<Field>, k: nat, n: nat): seq<Field>
    requires k <= n
    decreases n - k
  {
    if k == n then [] else group(k) + Later(group, k + 1, n)
  }

  function GroupList(group: nat -> seq<Field>, k: nat, n: nat): (r: seq<seq<Field>>)
    requires k <= n
    ensures |r| == n - k && forall i | 0 <= i < n - k :: r[i] == group(k + i)
  {
    seq(n - k, i requires 0 <= i < n - k => group(k + i))
  }

  lemma {:induction false} GroupsFromStart(group: nat -> seq<Field>, k: nat, n: nat)
    requires k <= n
    ensures Groups(group, k) + Later(group, k, n) == Groups(group, n)
    decreases n - k
  {
    if k == n {
      assert Groups(group, n) + [] == Groups(group, n);
    } else {
      GroupsFromStart(group, k + 1, n);
      assert Groups(group, k) + (group(k) + Later(group, k + 1, n)) == Groups(group, k) + group(k) + Later(group, k + 1, n);
    }
  }

  lemma {:induction false} LaterIsAll(group: nat -> seq<Field>, n: nat)
    ensures Later(group, 0, n) == Groups(group, n)
  {
    GroupsFromStart(group, 0, n);
  }

  lemma {:induction false} LaterRoundTrip(group: nat -> seq<Field>, kinds: seq<Kind>, k: nat, n: nat, rest: seq<byte>)
    requires k <= n && GroupsOk(group, n) && forall i: nat | i < n :: KindsOf(group(i)) == kinds
    ensures AllOk(Later(group, k, n))
    ensures ReadGroups(kinds, n - k, BytesOf(Later(group, k, n)) + rest) == Some((GroupList(group, k, n), rest))
    decreases n - k
  {
    hide AllOk, FieldOk, ReadFields, KindsOf, BytesOf;
    if k == n {
      NoFields();
      assert [] + rest == rest;
    } else {
      LaterRoundTrip(group, kinds, k + 1, n, rest);
      var others := Later(group, k + 1, n);
      BytesConcat(group(k), others);
      Associative(BytesOf(group(k)), BytesOf(others), rest);
      FieldsRoundTrip(group(k), BytesOf(others) + rest);
      assert GroupList(group, k, n) == [group(k)] + GroupList(group, k + 1, n);
    }
  }

  lemma NoFields()
    ensures AllOk([]) && BytesOf([]) == []
  {
  }

  /** A request with a head that ends in a count, and that many groups. */
  function ReadRequest(head: seq<Kind>, kinds: seq<Kind>, s: seq<byte>): Option<(seq<Field>, seq<seq<Field>>)> {
    match ReadFields(head, s)
    case None => None
    case Some(first) =>
      if first.0 == [] || !first.0[|first.0| - 1].U32? then None
      else
        match ReadGroups(kinds, first.0[|first.0| - 1].n, first.1)
        case None => None
        case Some(groups) => if groups.1 == [] then Some((first.0, groups.0)) else None
  }

  /** A request of this form is read back completely: head, count and every group. */
  lemma {:induction false} RequestRoundTrip(head: seq<Field>, kinds: seq<Kind>, group: nat -> seq<Field>, n: nat)
    requires AllOk(head) && head != [] && head[|head| - 1] == U32(n)
    requires GroupsOk(group, n) && forall i: nat | i < n :: KindsOf(group(i)) == kinds
    ensures AllOk(head + Groups(group, n))
    ensures ReadRequest(KindsOf(head), kinds, BytesOf(head + Groups(group, n))) == Some((head, GroupList(group, 0, n)))
  {
    GroupsAreOk(group, n);
    LaterIsAll(group, n);
    BytesConcat(head, Groups(group, n));
    FieldsRoundTrip(head, BytesOf(Groups(group, n)));
    LaterRoundTrip(group, kinds, 0, n, []);
    assert BytesOf(Later(group, 0, n)) + [] == BytesOf(Later(group, 0, n));
  }

  // ----- Writing into a buffer -----

  method WriteUInt(out: array<byte>, offset: nat, n: nat, width: nat)
    requires offset + width <= out.Length
    modifies out
    ensures out[..offset] == old(out[..offset]) && out[offset..offset + width] == UIntBytes(n, width)
  {
    var value := n;
    for i := width downto 0
      invariant out[..offset] == old(out[..offset])
      invariant UIntBytes(value, i) + out[offset + i..offset + width] == UIntBytes(n, width)
    {
      ghost var tail := out[offset + i + 1..offset + width];
      out[offset + i] := (value % 256) as byte;
      assert out[offset + i..offset + width] == [(value % 256) as byte] + tail;
      assert UIntBytes(value, i + 1) + tail == UIntBytes(value / 256, i) + ([(value % 256) as byte] + tail);
      value := value / 256;
    }
    assert UIntBytes(value, 0) == [];
  }

  method CopyInto(out: array<byte>, offset: nat, bytes: seq<byte>)
    requires offset + |bytes| <= out.Length
    modifies out
    ensures out[..offset] == old(out[..offset]) && out[offset..offset + |bytes|] == bytes
  {
    for i := 0 to |bytes|
      invariant out[..offset] == old(out[..offset]) && out[offset..offset + i] == bytes[..i]
    {
      out[offset + i] := bytes[i];
    }
  }

  /** Write one field and return the offset behind it; nothing before it changes. */
  method Write(out: array<byte>, offset: nat, f: Field) returns (next: nat)
    requires FieldOk(f) && offset + FieldSize(f) <= out.Length
    modifies out
    ensures next == offset + FieldSize(f) && out[..next] == old(out[..offset]) + FieldBytes(f)
  {
    hide UIntBytes, AsUnsigned;
    next := offset + FieldSize(f);
    match f {
      case U8(n) => WriteUInt(out, offset, n, 1);
      case U16(n) => WriteUInt(out, offset, n, 2);
      case U32(n) => WriteUInt(out, offset, n, 4);
      case I64(i) => WriteUInt(out, offset, AsUnsigned(i), 8);
      case Bin(bytes) => WriteBinary(out, offset, bytes);
      case Opt(value) =>
        if value.None? {
          WriteUInt(out, offset, NULL_U32, 4);
        } else {
          WriteBinary(out, offset, value.value);
        }
    }
    assert out[..next] == out[..offset] + out[offset..next];
  }

  method WriteBinary(out: array<byte>, offset: nat, bytes: seq<byte>)
    requires offset + 4 + |bytes| <= out.Length
    modifies out
    ensures out[..offset] == old(out[..offset]) && out[offset..offset + 4 + |bytes|] == UIntBytes(|bytes|, 4) + bytes
  {
    WriteUInt(out, offset, |bytes|, 4);
    ghost var length := out[offset..offset + 4];
    ghost var before := out[..offset + 4];
    CopyInto(out, offset + 4, bytes);
    assert out[..offset + 4] == before;
    assert out[offset..offset + 4] == out[..offset + 4][offset..] == before[offset..] == length;
    assert out[offset..offset + 4 + |bytes|] == out[offset..offset + 4] + out[offset + 4..offset + 4 + |bytes|];
    assert out[..offset] == before[..offset];
  }
}
