/** What all compact encoders do: check the arguments, plan the size, compare it with the body
    limit, allocate a buffer of exactly that size and write the fields into it. */
module CompactPlan {
  import opened Wrappers
  import opened Bytes
  import opened CompactFields

  type Int64 = i: int | MIN_I64 <= i <= MAX_I64

  /** A command argument: the bytes of a scalar, and the integer it is read as where one is
      required; or something that has no compact form. */
  datatype Arg = Scalar(bytes: seq<byte>, integer: Option<Int64>) | Other

  function At(raw: seq<Arg>, i: nat): Arg {
    if i < |raw| then raw[i] else Other
  }

  function BytesAt(raw: seq<Arg>, i: nat): seq<byte> {
    if At(raw, i).Scalar? then At(raw, i).bytes else []
  }

  function IntAt(raw: seq<Arg>, i: nat): Int64 {
    if At(raw, i).Scalar? && At(raw, i).integer.Some? then At(raw, i).integer.value else 0
  }

  /** An argument whose length can be written. */
  predicate IsShort(a: Arg) {
    a.Scalar? ==> |a.bytes| < NULL_U32
  }

  /** The payload; or no compact form; or an error: the body limit, or a bad argument. */
  datatype Outcome = Encoded(payload: seq<byte>) | NotCompact | TooLarge | BadArgument

  datatype Verdict = Fine | Ineligible | Faulty

  ghost predicate AllFine(check: nat -> Verdict, n: nat) {
    forall i: nat | i < n :: check(i).Fine?
  }

  /** The first item that is not fine is this bad. */
  ghost predicate FirstIs(check: nat -> Verdict, n: nat, v: Verdict) {
    exists i: nat :: i < n && check(i) == v && !v.Fine? && AllFine(check, i)
  }

  /** A request is refused for its first bad item, as that item says, or with an error for a head that
      cannot be written; only the early check is made when the lower bound is over the limit. */
  ghost predicate Refused(headFine: bool, early: nat -> Verdict, check: nat -> Verdict, over: bool, n: nat, v: Verdict) {
    if over then FirstIs(early, n, v) else if !headFine then v.Faulty? else FirstIs(check, n, v)
  }

  lemma FirstIsOf(check: nat -> Verdict, n: nat, i: nat)
    requires i <= n && AllFine(check, i)
    ensures i < n && !check(i).Fine? ==> forall v :: FirstIs(check, n, v) <==> v == check(i)
    ensures i == n ==> forall v :: !FirstIs(check, n, v)
  {
  }

  // ----- Sizes -----

  lemma {:induction false} PrefixSize(fields: seq<Field>, i: nat)
    requires i < |fields|
    ensures Size(fields[..i + 1]) == Size(fields[..i]) + FieldSize(fields[i]) <= Size(fields)
    ensures AllOk(fields) ==> BytesOf(fields[..i + 1]) == BytesOf(fields[..i]) + FieldBytes(fields[i])
  {
    assert fields[..i + 1][..i] == fields[..i];
    assert fields == fields[..i + 1] + fields[i + 1..];
    SizeConcat(fields[..i + 1], fields[i + 1..]);
  }

  function SizeAt(fields: seq<Field>, i: nat): nat {
    if i < |fields| then FieldSize(fields[i]) else 0
  }

  function Least(a: nat, b: nat): nat {
    if a < b then a else b
  }

  lemma {:induction false} NextSize(fields: seq<Field>, i: nat)
    ensures Size(fields[..Least(i + 1, |fields|)]) == Size(fields[..Least(i, |fields|)]) + SizeAt(fields, i)
  {
    hide FieldSize;
    if i < |fields| { PrefixSize(fields, i); }
  }

  /** The size of a short list of fields, added up. */
  lemma {:induction false} SizeOfShort(fields: seq<Field>)
    requires |fields| <= 13
    ensures Size(fields)
         == SizeAt(fields, 0) + SizeAt(fields, 1) + SizeAt(fields, 2) + SizeAt(fields, 3) + SizeAt(fields, 4) + SizeAt(fields, 5)
            + SizeAt(fields, 6) + SizeAt(fields, 7) + SizeAt(fields, 8) + SizeAt(fields, 9) + SizeAt(fields, 10) + SizeAt(fields, 11)
            + SizeAt(fields, 12)
  {
    hide SizeAt, FieldSize;
    NextSize(fields, 0);
    NextSize(fields, 1);
    NextSize(fields, 2);
    NextSize(fields, 3);
    NextSize(fields, 4);
    NextSize(fields, 5);
    NextSize(fields, 6);
    NextSize(fields, 7);
    NextSize(fields, 8);
    NextSize(fields, 9);
    NextSize(fields, 10);
    NextSize(fields, 11);
    NextSize(fields, 12);
    assert fields[..0] == [] && fields[..|fields|] == fields;
  }

  /** If every group takes at least `each` bytes, n groups take at least n times that. */
  lemma {:induction false} LeastSize(group: nat -> seq<Field>, n: nat, each: nat)
    requires forall i: nat | i < n :: Size(group(i)) >= each
    ensures Size(Groups(group, n)) >= n * each
  {
    if n > 0 {
      LeastSize(group, n - 1, each);
      SizeConcat(Groups(group, n - 1), group(n - 1));
      assert n * each == (n - 1) * each + each;
    }
  }

  lemma {:induction false} GroupsGrow(group: nat -> seq<Field>, i: nat, n: nat)
    requires i < n
    ensures Size(Groups(group, i + 1)) <= Size(Groups(group, n))
    decreases n
  {
    if i + 1 < n {
      GroupsGrow(group, i, n - 1);
      SizeConcat(Groups(group, n - 1), group(n - 1));
    }
  }

  // ----- Writing -----

  /** Write all fields from an offset on. */
  method WriteAll(out: array<byte>, offset: nat, fields: seq<Field>) returns (next: nat)
    requires AllOk(fields) && offset + Size(fields) <= out.Length
    modifies out
    ensures next == offset + Size(fields) && out[..next] == old(out[..offset]) + BytesOf(fields)
  {
    hide FieldOk, FieldBytes, FieldSize;
    next := offset;
    ghost var before := out[..offset];
    assert fields[..|fields|] == fields;
    for i := 0 to |fields|
      invariant next == offset + Size(fields[..i]) <= out.Length && out[..next] == before + BytesOf(fields[..i])
    {
      PrefixSize(fields, i);
      Associative(before, BytesOf(fields[..i]), FieldBytes(fields[i]));
      next := Write(out, next, fields[i]);
    }
  }

  /** Allocate the planned number of bytes and fill them: every byte is written, and the last
      write ends exactly at the end. */
  method WriteRequest(total: nat, head: seq<Field>, group: nat -> seq<Field>, n: nat) returns (payload: seq<byte>)
    requires AllOk(head) && GroupsOk(group, n) && total == Size(head) + Size(Groups(group, n))
    ensures AllOk(head + Groups(group, n)) && payload == BytesOf(head + Groups(group, n))
  {
    hide FieldOk, FieldBytes, FieldSize;
    var out := new byte[total];
    GroupsAreOk(group, n);
    var offset := WriteAll(out, 0, head);
    assert out[..0] == [] && [] + BytesOf(head) == BytesOf(head);
    for i := 0 to n
      invariant AllOk(Groups(group, i)) && Size(Groups(group, i)) <= Size(Groups(group, n))
      invariant offset == Size(head) + Size(Groups(group, i)) && offset <= out.Length
      invariant out[..offset] == BytesOf(head) + BytesOf(Groups(group, i))
    {
      GroupsGrow(group, i, n);
      SizeConcat(Groups(group, i), group(i));
      BytesConcat(Groups(group, i), group(i));
      Associative(BytesOf(head), BytesOf(Groups(group, i)), BytesOf(group(i)));
      offset := WriteAll(out, offset, group(i));
    }
    assert offset == total;
    BytesConcat(head, Groups(group, n));
    return out[..];
  }

  // ----- Planning -----

  /** What an encoder's arithmetic must promise: the planned sizes are those of the fields that
      will be written, and the lower bound is one. */
  ghost predicate PlanIsExact(headFine: bool, head: seq<Field>, headPlan: nat, group: nat -> seq<Field>, plan: nat -> nat,
                              check: nat -> Verdict, n: nat) {
    && (headFine ==> AllOk(head) && headPlan == Size(head))
    && forall i: nat | i < n && check(i).Fine? :: AllOk(group(i)) && plan(i) == Size(group(i))
  }

  ghost predicate ItemExact(group: nat -> seq<Field>, plan: nat -> nat, check: nat -> Verdict, each: nat, i: nat) {
    (check(i).Fine? ==> AllOk(group(i)) && plan(i) == Size(group(i))) && Size(group(i)) >= each
  }

  /** A plan is exact if it is for the head and for each item. */
  lemma {:induction false} ExactItemByItem(headFine: bool, head: seq<Field>, headPlan: nat, group: nat -> seq<Field>, plan: nat -> nat,
                        check: nat -> Verdict, n: nat, base: nat, each: nat)
    requires (headFine ==> AllOk(head)) && headPlan == Size(head) >= base
    requires forall i: nat | i < n :: ItemExact(group, plan, check, each, i)
    ensures PlanIsExact(headFine, head, headPlan, group, plan, check, n)
    ensures base + n * each <= Size(head) + Size(Groups(group, n))
  {
    hide AllOk, Size;
    forall i: nat | i < n
      ensures Size(group(i)) >= each
    {
      assert ItemExact(group, plan, check, each, i);
    }
    forall i: nat | i < n && check(i).Fine?
      ensures AllOk(group(i)) && plan(i) == Size(group(i))
    {
      assert ItemExact(group, plan, check, each, i);
    }
    LeastSize(group, n, each);
  }

  /** The items are looked at early, and without planning, only when the lower bound is over the
      limit already. The request is encoded exactly when head and items are fine and it fits. */
  method EncodeRequest(headFine: bool, head: seq<Field>, headPlan: nat, group: nat -> seq<Field>, plan: nat -> nat,
                       early: nat -> Verdict, check: nat -> Verdict, minimum: nat, n: nat, maxBodyBytes: nat)
    returns (r: Outcome)
    requires PlanIsExact(headFine, head, headPlan, group, plan, check, n)
    requires minimum <= Size(head) + Size(Groups(group, n))
    ensures var fields := head + Groups(group, n);
            && (r.Encoded? <==> headFine && AllFine(check, n) && Size(fields) <= maxBodyBytes)
            && (r.Encoded? ==> AllOk(fields) && r.payload == BytesOf(fields))
            && (r.TooLarge? ==> Size(fields) > maxBodyBytes)
            && (r.NotCompact? <==> Refused(headFine, early, check, minimum > maxBodyBytes, n, Ineligible))
            && (r.BadArgument? <==> Refused(headFine, early, check, minimum > maxBodyBytes, n, Faulty))
  {
    hide FieldOk, FieldBytes, FieldSize, BytesOf, FirstIs;
    SizeConcat(head, Groups(group, n));
    if minimum > maxBodyBytes {
      for i := 0 to n
        invariant AllFine(early, i)
      {
        FirstIsOf(early, n, i);
        match early(i) {
          case Fine =>
          case Ineligible => return NotCompact;
          case Faulty => return BadArgument;
        }
      }
      FirstIsOf(early, n, n);
      return TooLarge;
    }
    if !headFine { return BadArgument; }
    var total := headPlan;
    for i := 0 to n
      invariant AllFine(check, i) && total == Size(head) + Size(Groups(group, i))
    {
      FirstIsOf(check, n, i);
      match check(i) {
        case Fine =>
        case Ineligible => return NotCompact;
        case Faulty => return BadArgument;
      }
      SizeConcat(Groups(group, i), group(i));
      total := total + plan(i);
    }
    FirstIsOf(check, n, n);
    if total > maxBodyBytes { return TooLarge; }
    var payload := WriteRequest(total, head, group, n);
    return Encoded(payload);
  }
}
