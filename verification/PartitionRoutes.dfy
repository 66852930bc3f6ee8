/** The names of automatic partitions as decimal numerals, and what a route tells of its partition. */
module PartitionRoutes {
  import opened Wrappers
  import opened Utf8
  import opened FlowAutoBucket
  import opened RouteCache

  // ----- Automatic partitions -----

  function Digit(n: nat): bv8
    requires n < 10
  {
    0x30 + n as bv8
  }

  /** A number in decimal, without leading zeros. */
  function Decimal(n: nat): seq<bv8> {
    if n < 10 then [Digit(n)] else Decimal(n / 10) + [Digit(n % 10)]
  }

  lemma DigitIsRead(n: nat)
    requires n < 10
    ensures IsDigit(Digit(n)) && DigitValue(Digit(n)) == n && (Digit(n) == ZERO <==> n == 0)
  {
  }

  lemma DigitIsWritten(b: bv8)
    requires IsDigit(b)
    ensures DigitValue(b) < 10 && Digit(DigitValue(b)) == b
  {
  }

  lemma {:induction false} DecimalIsNumeral(n: nat)
    requires n < 1000
    ensures IsBucketNumeral(Decimal(n)) && Number(Decimal(n)) == n
    ensures |Decimal(n)| == (if n < 10 then 1 else if n < 100 then 2 else 3)
  {
    hide IsDigit, DigitValue, Digit;
    DigitIsRead(n % 10);
    if n < 10 {
      assert Decimal(n)[..0] == [];
    } else {
      DecimalIsNumeral(n / 10);
      var front := Decimal(n / 10);
      assert Decimal(n)[..|front|] == front && Decimal(n)[0] == front[0];
      if n < 100 { DigitIsRead(n / 10); }
    }
  }

  lemma {:induction false} NumeralIsDecimal(s: seq<bv8>)
    requires IsBucketNumeral(s)
    ensures Number(s) < 1000 && s == Decimal(Number(s)) && (|s| > 1 ==> Number(s) >= 10)
  {
    hide IsDigit, DigitValue, Digit;
    var front, last := s[..|s| - 1], s[|s| - 1];
    DigitIsWritten(last);
    if |s| == 1 {
      assert front == [] && Number(s) == DigitValue(last);
    } else {
      NumeralIsDecimal(front);
      FrontIsPositive(front);
      assert Number(s) / 10 == Number(front) && Number(s) % 10 == DigitValue(last);
      ShortNumeral(front);
      assert s == front + [last];
    }
  }

  lemma {:induction false} FrontIsPositive(s: seq<bv8>)
    requires IsBucketNumeral(s) && s[0] != ZERO
    ensures Number(s) > 0
  {
    hide IsDigit, DigitValue;
    if |s| == 1 {
      assert s[..0] == [];
      NonZeroDigit(s[0]);
    } else {
      FrontIsPositive(s[..|s| - 1]);
    }
  }

  lemma NonZeroDigit(b: bv8)
    requires IsDigit(b) && b != ZERO
    ensures DigitValue(b) > 0
  {
  }

  lemma {:induction false} ShortNumeral(s: seq<bv8>)
    requires IsBucketNumeral(s) && |s| <= 2
    ensures Number(s) < 100
  {
    hide IsDigit, DigitValue;
    DigitIsWritten(s[|s| - 1]);
    if |s| == 1 {
      assert s[..0] == [];
    } else {
      ShortNumeral(s[..1]);
      assert s[..1][..0] == [];
      DigitIsWritten(s[..1][0]);
    }
  }

  /** The names of automatic partitions are exactly `__flow_auto__:` followed by a number below 256 in
      decimal without leading zeros, and the bucket is that number. */
  lemma {:induction false} BucketNames(s: seq<bv8>, n: nat)
    ensures BucketOf(s) == Some(n) <==> n < 256 && s == AUTO_PREFIX + Decimal(n)
  {
    hide IsBucketNumeral, Number, Decimal;
    if n < 256 && s == AUTO_PREFIX + Decimal(n) {
      assert s[|AUTO_PREFIX|..] == Decimal(n);
      DecimalIsNumeral(n);
    }
    if BucketOf(s) == Some(n) {
      NumeralIsDecimal(s[|AUTO_PREFIX|..]);
      assert s == AUTO_PREFIX + s[|AUTO_PREFIX|..];
    }
  }

  // ----- Routes -----

  /** The text of a route: "{fa:" and the bucket, or "{f:" and the digest, and "}". */
  function RouteText(route: Route): Text {
    match route
    case Bucket(n) => [0x7b, 0x66, 0x61, 0x3a] + Widened(Decimal(n)) + [0x7d]
    case Hashed(text) => text
  }

  /** A character for each byte. */
  function Widened(s: seq<bv8>): (t: Text)
    ensures |t| == |s|
  {
    if s == [] then [] else [s[0] as bv16] + Widened(s[1..])
  }

  /** Every supported partition has a route: the one of its bucket if its bytes name one, and otherwise
      the digest of its bytes between "{f:" and "}". */
  lemma {:induction false} RoutesOf(digest: Digest, value: Partition)
    ensures Uncached(digest, value) == None <==> value.Unsupported?
    ensures !value.Unsupported? ==>
              var bytes, route := BytesOf(value), Uncached(digest, value).value;
              if exists n: nat :: n < 256 && bytes == AUTO_PREFIX + Decimal(n)
              then route.Bucket? && route.number < 256 && bytes == AUTO_PREFIX + Decimal(route.number)
              else RouteText(route) == [0x7b, 0x66, 0x3a] + digest(bytes) + [0x7d]
  {
    if !value.Unsupported? {
      var bytes := BytesOf(value);
      if value.AsText? { TextAndBytesAgree(value.text); }
      assert AutoBucket(value) == BucketOf(bytes);
      hide BucketOf, Decimal;
      forall n: nat
        ensures BucketOf(bytes) == Some(n) <==> n < 256 && bytes == AUTO_PREFIX + Decimal(n)
      {
        BucketNames(bytes, n);
      }
    }
  }

  lemma {:induction false} DecimalsDiffer(a: nat, b: nat)
    requires a < 256 && b < 256 && Decimal(a) == Decimal(b)
    ensures a == b
  {
    DecimalIsNumeral(a);
    DecimalIsNumeral(b);
  }

  /** Two partitions share a route exactly when they name the same bucket, or neither names one and their
      bytes have the same digest. */
  lemma {:induction false} RoutesDiffer(digest: Digest, a: Partition, b: Partition)
    requires !a.Unsupported? && !b.Unsupported?
    ensures RouteText(Uncached(digest, a).value) == RouteText(Uncached(digest, b).value)
            <==> if AutoBucket(a).Some? || AutoBucket(b).Some? then AutoBucket(a) == AutoBucket(b)
                 else digest(BytesOf(a)) == digest(BytesOf(b))
  {
    var r, s := Uncached(digest, a).value, Uncached(digest, b).value;
    var t, u := RouteText(r), RouteText(s);
    BucketsAreSmall(a);
    BucketsAreSmall(b);
    hide Decimal, AutoBucket, BytesOf;
    if r.Bucket? && s.Bucket? {
      if t == u {
        assert t[4..|t| - 1] == Widened(Decimal(r.number)) && u[4..|u| - 1] == Widened(Decimal(s.number));
        WidenedDiffer(Decimal(r.number), Decimal(s.number));
        DecimalsDiffer(r.number, s.number);
      }
    } else if r.Hashed? && s.Hashed? {
      assert t[3..|t| - 1] == digest(BytesOf(a)) && u[3..|u| - 1] == digest(BytesOf(b));
    } else {
      assert t[2] != u[2];
    }
  }

  lemma BucketsAreSmall(value: Partition)
    requires !value.Unsupported?
    ensures AutoBucket(value).Some? ==> AutoBucket(value).value < 256
  {
  }

  lemma {:induction false} WidenedDiffer(a: seq<bv8>, b: seq<bv8>)
    requires Widened(a) == Widened(b)
    ensures a == b
  {
    if a != [] {
      assert Widened(a)[0] == a[0] as bv16 && Widened(b)[0] == b[0] as bv16;
      assert Widened(a)[1..] == Widened(a[1..]) && Widened(b)[1..] == Widened(b[1..]);
      WidenedDiffer(a[1..], b[1..]);
      assert a == [a[0]] + a[1..] && b == [b[0]] + b[1..];
    }
  }

  // ----- The cache -----

  /** What the cache may hold: up to 1024 routes and a mebibyte, where a route counts 96 bytes and two for each
      character of its key and its text. */
  lemma {:induction false} CacheIsBounded(cache: seq<RouteCache.Entry>, digest: Digest, i: nat)
    requires ValidCache(cache, digest)
    ensures |cache| <= 1024 && Sum(cache) <= 1024 * 1024
    ensures i < |cache| ==> cache[i].bytes == 96 + 2 * (|cache[i].key| + |cache[i].routeKey|)
  {
    hide DistinctKeys;
  }

  /** Partitions of more than 4096 bytes and those that name a bucket are not cached. */
  lemma CachedPartitions(value: Partition)
    ensures Cacheable(value) <==> !value.Unsupported? && AutoBucket(value).None? && |BytesOf(value)| <= 4096
  {
  }
}
