/** The bounded cache of partition routes, which forgets the least recently used entry first. */
module RouteCache {
  import opened Wrappers
  import opened Utf8
  import opened FlowAutoBucket
  import Base64

  const MAX_CACHEABLE_PARTITION_BYTES := 4 * 1024
  const MAX_CACHE_BYTES := 1024 * 1024
  const MAX_CACHE_ENTRIES := 1024
  const CACHE_ENTRY_OVERHEAD_BYTES := 96

  datatype Partition = AsText(text: Text) | AsBytes(bytes: seq<bv8>) | Unsupported

  /** The base64url text of the SHA-256 of some bytes. */
  type Digest = seq<bv8> -> Text

  datatype Entry = Entry(key: Text, bytes: nat, routeKey: Text)

  // ----- Routing without a cache -----

  /** A route is that of an automatic bucket, or the hash of the partition's bytes. */
  datatype Route = Bucket(number: nat) | Hashed(text: Text)

  /** "{f:" digest "}" */
  function HashRoute(digest: Digest, bytes: seq<bv8>): Text {
    [0x7b, 0x66, 0x3a] + digest(bytes) + [0x7d]
  }

  function BytesOf(value: Partition): seq<bv8>
    requires !value.Unsupported?
  {
    if value.AsBytes? then value.bytes else Encode(value.text)
  }

  function AutoBucket(value: Partition): Option<nat>
    requires !value.Unsupported?
  {
    if value.AsText? then BucketOfText(value.text) else BucketOf(value.bytes)
  }

  function Uncached(digest: Digest, value: Partition): Option<Route> {
    if value.Unsupported? then None
    else if AutoBucket(value).Some? then Some(Bucket(AutoBucket(value).value))
    else Some(Hashed(HashRoute(digest, BytesOf(value))))
  }

  /** A partition given as text routes like the one given as that text's UTF-8 bytes. */
  lemma {:induction false} TextRoutesLikeItsBytes(digest: Digest, text: Text)
    ensures Uncached(digest, AsText(text)) == Uncached(digest, AsBytes(Encode(text)))
  {
    TextAndBytesAgree(text);
  }

  // ----- The cache, least recently used entry first -----

  function EntryBytes(key: Text, routeKey: Text): nat {
    CACHE_ENTRY_OVERHEAD_BYTES + 2 * (|key| + |routeKey|)
  }

  function Sum(cache: seq<Entry>): nat {
    if cache == [] then 0 else cache[0].bytes + Sum(cache[1..])
  }

  function Find(cache: seq<Entry>, key: Text): (p: nat)
    ensures p <= |cache| && (p < |cache| ==> cache[p].key == key)
    ensures forall i | 0 <= i < p :: cache[i].key != key
  {
    if cache == [] || cache[0].key == key then 0 else 1 + Find(cache[1..], key)
  }

  predicate Fits(cache: seq<Entry>, bytes: nat) {
    |cache| < MAX_CACHE_ENTRIES && (cache == [] || Sum(cache) + bytes <= MAX_CACHE_BYTES)
  }

  /** The entries, with as many bytes more, pass a limit. */
  predicate Overfull(cache: seq<Entry>, bytes: nat) {
    |cache| >= MAX_CACHE_ENTRIES || Sum(cache) + bytes > MAX_CACHE_BYTES
  }

  /** Evict the oldest entries until there is room. */
  function EvictFor(cache: seq<Entry>, bytes: nat): seq<Entry>
    decreases |cache|
  {
    if cache == [] || Fits(cache, bytes) then cache else EvictFor(cache[1..], bytes)
  }

  /** Using a key moves its entry to the end; a new entry is put there after making room. */
  function Use(cache: seq<Entry>, key: Text, entry: Entry): seq<Entry> {
    var p := Find(cache, key);
    if p < |cache| then cache[..p] + cache[p + 1..] + [cache[p]]
    else if entry.bytes <= MAX_CACHE_BYTES then EvictFor(cache, entry.bytes) + [entry]
    else EvictFor(cache, entry.bytes)
  }

  predicate DistinctKeys(cache: seq<Entry>) {
    forall i, j | 0 <= i < j < |cache| :: cache[i].key != cache[j].key
  }

  /** Every entry holds the route of the bytes that its key encodes, and its own size. */
  ghost predicate Faithful(cache: seq<Entry>, digest: Digest) {
    forall i | 0 <= i < |cache| ::
      && cache[i].bytes == EntryBytes(cache[i].key, cache[i].routeKey)
      && forall bytes: seq<bv8> :: Base64.Encode(bytes) == cache[i].key ==> cache[i].routeKey == HashRoute(digest, bytes)
  }

  ghost predicate ValidCache(cache: seq<Entry>, digest: Digest) {
    && DistinctKeys(cache) && Faithful(cache, digest)
    && |cache| <= MAX_CACHE_ENTRIES && Sum(cache) <= MAX_CACHE_BYTES
  }

  lemma {:induction false} SumConcat(a: seq<Entry>, b: seq<Entry>)
    ensures Sum(a + b) == Sum(a) + Sum(b)
  {
    if a == [] {
      assert a + b == b;
    } else {
      assert (a + b)[1..] == a[1..] + b;
      SumConcat(a[1..], b);
    }
  }

  lemma SumOne(entry: Entry)
    ensures Sum([entry]) == entry.bytes
  {
  }

  /** Only the oldest entries go, and none more than needed. */
  lemma {:induction false} EvictsOnlyOldest(cache: seq<Entry>, bytes: nat)
    ensures exists n: nat :: n <= |cache| && EvictFor(cache, bytes) == cache[n..] && (n < |cache| ==> Fits(cache[n..], bytes))
                             && forall k: nat | k < n :: Overfull(cache[k..], bytes)
    decreases |cache|
  {
    if cache == [] || Fits(cache, bytes) {
      assert cache[0..] == cache;
    } else {
      EvictsOnlyOldest(cache[1..], bytes);
      var n: nat :| n <= |cache| - 1 && EvictFor(cache[1..], bytes) == cache[1..][n..]
                    && (n < |cache| - 1 ==> Fits(cache[1..][n..], bytes)) && forall k: nat | k < n :: Overfull(cache[1..][k..], bytes);
      assert cache[1..][n..] == cache[n + 1..];
      forall k: nat | k < n + 1
        ensures Overfull(cache[k..], bytes)
      {
        if k == 0 { assert cache[0..] == cache; } else { assert cache[1..][k - 1..] == cache[k..]; }
      }
    }
  }

  lemma {:induction false} TailKeepsValid(cache: seq<Entry>, n: nat, digest: Digest)
    requires ValidCache(cache, digest) && n <= |cache|
    ensures ValidCache(cache[n..], digest)
  {
    assert cache == cache[..n] + cache[n..];
    SumConcat(cache[..n], cache[n..]);
    hide Sum;
  }

  lemma {:induction false} EvictKeepsValid(cache: seq<Entry>, bytes: nat, digest: Digest)
    requires ValidCache(cache, digest)
    ensures var left := EvictFor(cache, bytes);
            ValidCache(left, digest) && |left| < MAX_CACHE_ENTRIES && (left != [] ==> Sum(left) + bytes <= MAX_CACHE_BYTES)
    ensures forall i | 0 <= i < |EvictFor(cache, bytes)| :: EvictFor(cache, bytes)[i] in cache
  {
    EvictsOnlyOldest(cache, bytes);
    hide Overfull, Sum, ValidCache, EvictFor;
    var n: nat :| n <= |cache| && EvictFor(cache, bytes) == cache[n..] && (n < |cache| ==> Fits(cache[n..], bytes));
    TailKeepsValid(cache, n, digest);
  }

  /** Using an entry that is there. */
  lemma {:induction false} HitKeepsValid(cache: seq<Entry>, p: nat, digest: Digest)
    requires ValidCache(cache, digest) && p < |cache|
    ensures ValidCache(cache[..p] + cache[p + 1..] + [cache[p]], digest)
  {
    var front, back := cache[..p], cache[p + 1..];
    var moved := front + back + [cache[p]];
    forall i | 0 <= i < |moved|
      ensures moved[i] == cache[if i < p then i else if i < |cache| - 1 then i + 1 else p]
    {
    }
    SumConcat(front + back, [cache[p]]);
    SumConcat(front, back);
    SumConcat(front + [cache[p]], back);
    SumConcat(front, [cache[p]]);
    assert front + [cache[p]] + back == cache;
  }

  /** Adding an entry after making room. */
  lemma {:induction false} AddKeepsValid(cache: seq<Entry>, entry: Entry, digest: Digest)
    requires ValidCache(cache, digest) && Faithful([entry], digest) && Find(cache, entry.key) == |cache|
    requires entry.bytes <= MAX_CACHE_BYTES
    ensures ValidCache(EvictFor(cache, entry.bytes) + [entry], digest)
  {
    var left := EvictFor(cache, entry.bytes);
    EvictKeepsValid(cache, entry.bytes, digest);
    SumConcat(left, [entry]);
    SumOne(entry);
    forall i | 0 <= i < |left|
      ensures left[i].key != entry.key
    {
      assert left[i] in cache;
    }
    FaithfulConcat(left, entry, digest);
  }

  lemma {:induction false} FaithfulConcat(left: seq<Entry>, entry: Entry, digest: Digest)
    requires Faithful(left, digest) && Faithful([entry], digest)
    ensures Faithful(left + [entry], digest)
  {
    assert [entry][0] == entry;
  }

  lemma {:induction false} RouteIsFaithful(bytes: seq<bv8>, digest: Digest)
    ensures var key, route := Base64.Encode(bytes), HashRoute(digest, bytes);
            Faithful([Entry(key, EntryBytes(key, route), route)], digest)
  {
    var key := Base64.Encode(bytes);
    forall other: seq<bv8> | Base64.Encode(other) == key
      ensures other == bytes
    {
      Base64.EncodeIsInjective(bytes, other);
    }
  }

  class FlowPartitionRouteCache {
    const digest: Digest
    /** Insertion order, as the source's Map keeps it: the oldest entry first. */
    var routeCache: seq<Entry>
    var cacheBytes: nat
    var cacheHits: nat
    var cacheMisses: nat
    /** The cacheable partitions asked for since the cache was empty, as bytes. */
    ghost var asked: seq<seq<bv8>>

    ghost predicate Valid()
      reads this
    {
      ValidCache(routeCache, digest) && cacheBytes == Sum(routeCache) && Remembers(routeCache, digest, asked)
    }

    constructor (digest: Digest)
      ensures Valid() && this.digest == digest && routeCache == [] && asked == []
    {
      this.digest := digest;
      routeCache, cacheBytes, cacheHits, cacheMisses, asked := [], 0, 0, 0, [];
    }

    method Reset()
      modifies this`routeCache, this`cacheBytes, this`cacheHits, this`cacheMisses, this`asked
      ensures Valid() && routeCache == [] && cacheHits == 0 && cacheMisses == 0 && asked == []
    {
      routeCache, cacheBytes, cacheHits, cacheMisses, asked := [], 0, 0, 0, [];
    }

    method EvictOldest()
      requires routeCache != [] && cacheBytes == Sum(routeCache)
      modifies this`routeCache, this`cacheBytes
      ensures routeCache == old(routeCache)[1..] && cacheBytes == Sum(routeCache)
    {
      var oldest := routeCache[0];
      routeCache := routeCache[1..];
      cacheBytes := cacheBytes - oldest.bytes;
    }

    method MakeRoom(entryBytes: nat)
      requires cacheBytes == Sum(routeCache)
      modifies this`routeCache, this`cacheBytes
      ensures routeCache == EvictFor(old(routeCache), entryBytes) && cacheBytes == Sum(routeCache)
    {
      while |routeCache| >= MAX_CACHE_ENTRIES || (|routeCache| > 0 && cacheBytes + entryBytes > MAX_CACHE_BYTES)
        invariant cacheBytes == Sum(routeCache)
        invariant EvictFor(routeCache, entryBytes) == EvictFor(old(routeCache), entryBytes)
        decreases |routeCache|
      {
        EvictOldest();
      }
    }

    /** The route of a partition: whatever has been asked before, it is the uncached one; a cached
        partition becomes the most recently used, others are not touched except to make room. */
    method RoutingKey(value: Partition) returns (route: Option<Route>)
      requires Valid()
      modifies this`routeCache, this`cacheBytes, this`cacheHits, this`cacheMisses, this`asked
      ensures Valid() && route == Uncached(digest, value)
      ensures routeCache == if Cacheable(value) then Use(old(routeCache), CacheKey(value), NewEntry(digest, value))
                            else old(routeCache)
      ensures asked == if Cacheable(value) then old(asked) + [BytesOf(value)] else old(asked)
    {
      hide AutoBucket, Sum, Base64.Encode, ValidCache, HashRoute, EvictFor, Use, BytesOf, Find, Remembers;
      if value.Unsupported? { return None; }
      var autoBucket := FindAutoBucket(value);
      if autoBucket.Some? { return Some(Bucket(autoBucket.value)); }
      var bytes := BytesOf(value);
      if |bytes| > MAX_CACHEABLE_PARTITION_BYTES { return Some(Hashed(HashRoute(digest, bytes))); }
      var cacheKey := Base64.Encode(bytes);
      var p := Find(routeCache, cacheKey);
      RemembersUse(routeCache, digest, asked, bytes);
      asked := asked + [bytes];
      if p < |routeCache| {
        cacheHits := cacheHits + 1;
        var routeKey := Touch(bytes, p, NewEntry(digest, value));
        return Some(Hashed(routeKey));
      }
      cacheMisses := cacheMisses + 1;
      var routeKey := Remember(bytes, cacheKey);
      return Some(Hashed(routeKey));
    }

    /** What the cache holds, whatever it has been asked: the keys asked for most recently, oldest
        first, none of them left out. */
    lemma {:induction false} HoldsMostRecentlyAsked()
      requires Valid() && IsDigest(digest)
      ensures IsSuffix(Keys(routeCache), Recency(UsesOf(digest, asked)))
    {
      UsesAreSmall(digest, asked);
      CacheHoldsMostRecent(UsesOf(digest, asked));
    }

    /** A partition that is in the cache becomes the most recently used. */
    method Touch(bytes: seq<bv8>, p: nat, ghost entry: Entry) returns (routeKey: Text)
      requires ValidCache(routeCache, digest) && cacheBytes == Sum(routeCache)
      requires Find(routeCache, Base64.Encode(bytes)) == p < |routeCache|
      modifies this`routeCache
      ensures ValidCache(routeCache, digest) && cacheBytes == Sum(routeCache) && routeKey == HashRoute(digest, bytes)
      ensures routeCache == Use(old(routeCache), Base64.Encode(bytes), entry)
    {
      HitKeepsValid(routeCache, p, digest);
      hide Sum, Base64.Encode, DistinctKeys, HashRoute, EvictFor;
      var cached := routeCache[p];
      SumStays(routeCache, p);
      routeCache := routeCache[..p] + routeCache[p + 1..] + [cached];
      return cached.routeKey;
    }

    /** A partition that is not in the cache is hashed and, room having been made, remembered. */
    method Remember(bytes: seq<bv8>, cacheKey: Text) returns (routeKey: Text)
      requires ValidCache(routeCache, digest) && cacheBytes == Sum(routeCache)
      requires cacheKey == Base64.Encode(bytes) && Find(routeCache, cacheKey) == |routeCache|
      modifies this`routeCache, this`cacheBytes
      ensures ValidCache(routeCache, digest) && cacheBytes == Sum(routeCache) && routeKey == HashRoute(digest, bytes)
      ensures routeCache == Use(old(routeCache), cacheKey, Entry(cacheKey, EntryBytes(cacheKey, routeKey), routeKey))
    {
      hide Base64.Encode, HashRoute, Faithful, DistinctKeys;
      routeKey := HashRoute(digest, bytes);
      var entryBytes := EntryBytes(cacheKey, routeKey);
      var entry := Entry(cacheKey, entryBytes, routeKey);
      RouteIsFaithful(bytes, digest);
      EvictKeepsValid(routeCache, entryBytes, digest);
      if entryBytes <= MAX_CACHE_BYTES { AddKeepsValid(routeCache, entry, digest); }
      MakeRoom(entryBytes);
      if entryBytes <= MAX_CACHE_BYTES {
        SumConcat(routeCache, [entry]);
        SumOne(entry);
        routeCache := routeCache + [entry];
        cacheBytes := cacheBytes + entryBytes;
      }
    }
  }

  method FindAutoBucket(value: Partition) returns (bucket: Option<nat>)
    requires !value.Unsupported?
    ensures bucket == AutoBucket(value)
  {
    if value.AsText? { return BucketOfText(value.text); }
    bucket := FlowAutoBucketOfBytes(value.bytes);
  }

  lemma {:induction false} SumStays(cache: seq<Entry>, p: nat)
    requires p < |cache|
    ensures Sum(cache[..p] + cache[p + 1..] + [cache[p]]) == Sum(cache)
  {
    var front, back := cache[..p], cache[p + 1..];
    SumConcat(front + back, [cache[p]]);
    SumConcat(front, back);
    SumConcat(front + [cache[p]], back);
    SumConcat(front, [cache[p]]);
    assert front + [cache[p]] + back == cache;
  }

  /** The partitions whose routes are remembered. */
  predicate Cacheable(value: Partition) {
    !value.Unsupported? && AutoBucket(value).None? && |BytesOf(value)| <= MAX_CACHEABLE_PARTITION_BYTES
  }

  function CacheKey(value: Partition): Text
    requires !value.Unsupported?
  {
    Base64.Encode(BytesOf(value))
  }

  function NewEntry(digest: Digest, value: Partition): Entry
    requires !value.Unsupported?
  {
    EntryOf(digest, BytesOf(value))
  }

  function EntryOf(digest: Digest, bytes: seq<bv8>): Entry {
    var key, route := Base64.Encode(bytes), HashRoute(digest, bytes);
    Entry(key, EntryBytes(key, route), route)
  }

  // ----- What has been asked -----

  function UsesOf(digest: Digest, asked: seq<seq<bv8>>): (uses: seq<Entry>)
    ensures |uses| == |asked| && forall i | 0 <= i < |uses| :: uses[i] == EntryOf(digest, asked[i])
  {
    seq(|asked|, i requires 0 <= i < |asked| => EntryOf(digest, asked[i]))
  }

  /** The cache is what using these partitions one after another has made of an empty one. */
  ghost predicate Remembers(cache: seq<Entry>, digest: Digest, asked: seq<seq<bv8>>) {
    cache == Cached(UsesOf(digest, asked)) && forall i | 0 <= i < |asked| :: |asked[i]| <= MAX_CACHEABLE_PARTITION_BYTES
  }

  lemma {:induction false} RemembersUse(cache: seq<Entry>, digest: Digest, asked: seq<seq<bv8>>, bytes: seq<bv8>)
    requires Remembers(cache, digest, asked) && |bytes| <= MAX_CACHEABLE_PARTITION_BYTES
    ensures Remembers(Use(cache, Base64.Encode(bytes), EntryOf(digest, bytes)), digest, asked + [bytes])
  {
    hide Use, HashRoute, Base64.Encode;
    var uses := UsesOf(digest, asked + [bytes]);
    assert uses[..|uses| - 1] == UsesOf(digest, asked);
  }

  /** SHA-256 as base64url without padding. */
  ghost predicate IsDigest(digest: Digest) {
    forall bytes :: |digest(bytes)| == 43
  }

  /** No cacheable partition is too large for the cache. */
  lemma {:induction false} UsesAreSmall(digest: Digest, asked: seq<seq<bv8>>)
    requires IsDigest(digest) && forall i | 0 <= i < |asked| :: |asked[i]| <= MAX_CACHEABLE_PARTITION_BYTES
    ensures forall i | 0 <= i < |asked| :: UsesOf(digest, asked)[i].bytes <= MAX_CACHE_BYTES
  {
    hide Base64.Encode;
  }

  // ----- Least recently used -----

  function Keys(cache: seq<Entry>): (keys: seq<Text>)
    ensures |keys| == |cache| && forall i | 0 <= i < |cache| :: keys[i] == cache[i].key
  {
    seq(|cache|, i requires 0 <= i < |cache| => cache[i].key)
  }

  function Dropped(keys: seq<Text>, key: Text): (r: seq<Text>)
    ensures forall k :: k in r <==> k in keys && k != key
  {
    if keys == [] then []
    else
      assert forall k :: k in keys <==> k == keys[0] || k in keys[1..];
      if keys[0] == key then Dropped(keys[1..], key) else [keys[0]] + Dropped(keys[1..], key)
  }

  /** The keys asked for, in the order of their last use. */
  function Recency(uses: seq<Entry>): seq<Text> {
    if uses == [] then []
    else
      var last := uses[|uses| - 1];
      Dropped(Recency(uses[..|uses| - 1]), last.key) + [last.key]
  }

  function Cached(uses: seq<Entry>): seq<Entry> {
    if uses == [] then []
    else
      var last := uses[|uses| - 1];
      Use(Cached(uses[..|uses| - 1]), last.key, last)
  }

  predicate IsSuffix(a: seq<Text>, b: seq<Text>) {
    |a| <= |b| && a == b[|b| - |a|..]
  }

  lemma {:induction false} DroppedConcat(a: seq<Text>, b: seq<Text>, key: Text)
    ensures Dropped(a + b, key) == Dropped(a, key) + Dropped(b, key)
  {
    if a == [] {
      assert a + b == b;
    } else {
      assert (a + b)[1..] == a[1..] + b;
      DroppedConcat(a[1..], b, key);
    }
  }

  lemma {:induction false} DroppedAbsent(keys: seq<Text>, key: Text)
    requires key !in keys
    ensures Dropped(keys, key) == keys
  {
    if keys != [] { DroppedAbsent(keys[1..], key); }
  }

  /** The remaining keys after taking out the one at position p. */
  lemma {:induction false} DroppedAt(cache: seq<Entry>, p: nat)
    requires DistinctKeys(cache) && p < |cache|
    ensures Dropped(Keys(cache), cache[p].key) == Keys(cache[..p] + cache[p + 1..])
  {
    var front, back, key := Keys(cache[..p]), Keys(cache[p + 1..]), cache[p].key;
    assert Keys(cache) == front + ([key] + back);
    assert Keys(cache[..p] + cache[p + 1..]) == front + back;
    DroppedConcat(front, [key] + back, key);
    DroppedConcat([key], back, key);
    DroppedAbsent(front, key);
    DroppedAbsent(back, key);
    assert Dropped([key], key) == [] by { assert [key][1..] == []; }
  }

  lemma {:induction false} SuffixDropped(a: seq<Text>, b: seq<Text>, key: Text)
    requires IsSuffix(a, b)
    ensures IsSuffix(Dropped(a, key), Dropped(b, key))
  {
    var front := b[..|b| - |a|];
    assert b == front + a;
    DroppedConcat(front, a, key);
  }

  /** Whatever has been asked, the cache holds the most recently used keys, oldest first: an entry
      is evicted only when every entry used after it stays, or goes with it in turn. */
  lemma {:induction false} CacheHoldsMostRecent(uses: seq<Entry>)
    requires forall i | 0 <= i < |uses| :: uses[i].bytes <= MAX_CACHE_BYTES
    ensures DistinctKeys(Cached(uses)) && IsSuffix(Keys(Cached(uses)), Recency(uses))
    decreases |uses|
  {
    if uses == [] {
    } else {
      var before, last := uses[..|uses| - 1], uses[|uses| - 1];
      CacheHoldsMostRecent(before);
      var cache := Cached(before);
      SuffixDropped(Keys(cache), Recency(before), last.key);
      UseKeepsRecent(cache, last, Dropped(Recency(before), last.key));
    }
  }

  lemma {:induction false} UseKeepsRecent(cache: seq<Entry>, entry: Entry, older: seq<Text>)
    requires DistinctKeys(cache) && entry.bytes <= MAX_CACHE_BYTES
    requires IsSuffix(Dropped(Keys(cache), entry.key), older)
    ensures DistinctKeys(Use(cache, entry.key, entry)) && IsSuffix(Keys(Use(cache, entry.key, entry)), older + [entry.key])
  {
    if Find(cache, entry.key) < |cache| {
      HitKeepsRecent(cache, entry.key, older);
    } else {
      MissKeepsRecent(cache, entry, older);
    }
  }

  lemma {:induction false} HitKeepsRecent(cache: seq<Entry>, key: Text, older: seq<Text>)
    requires DistinctKeys(cache) && IsSuffix(Dropped(Keys(cache), key), older) && Find(cache, key) < |cache|
    ensures var p := Find(cache, key);
            var moved := cache[..p] + cache[p + 1..] + [cache[p]];
            DistinctKeys(moved) && IsSuffix(Keys(moved), older + [key])
  {
    var p := Find(cache, key);
    var rest := cache[..p] + cache[p + 1..];
    DroppedAt(cache, p);
    MovedDistinct(cache, p);
    hide Dropped, DistinctKeys;
    assert Keys(rest + [cache[p]]) == Keys(rest) + [key];
    SuffixOneMore(Keys(rest), older, key);
  }

  lemma {:induction false} MissKeepsRecent(cache: seq<Entry>, entry: Entry, older: seq<Text>)
    requires DistinctKeys(cache) && IsSuffix(Dropped(Keys(cache), entry.key), older) && Find(cache, entry.key) == |cache|
    ensures var left := EvictFor(cache, entry.bytes);
            DistinctKeys(left + [entry]) && IsSuffix(Keys(left + [entry]), older + [entry.key])
  {
    assert entry.key !in Keys(cache);
    DroppedAbsent(Keys(cache), entry.key);
    EvictsOnlyOldest(cache, entry.bytes);
    hide Dropped, Fits, IsSuffix, Keys, Overfull;
    var n: nat :| n <= |cache| && EvictFor(cache, entry.bytes) == cache[n..];
    NewestKeys(cache, n, entry);
    SuffixTail(Keys(cache), older, n);
    SuffixOneMore(Keys(cache)[n..], older, entry.key);
  }

  lemma {:induction false} NewestKeys(cache: seq<Entry>, n: nat, entry: Entry)
    requires DistinctKeys(cache) && n <= |cache| && Find(cache, entry.key) == |cache|
    ensures DistinctKeys(cache[n..] + [entry]) && Keys(cache[n..] + [entry]) == Keys(cache)[n..] + [entry.key]
  {
    hide DistinctKeys, Keys;
    DistinctTail(cache, n);
    TailAvoids(cache, n, entry.key);
    DistinctAdd(cache[n..], entry);
    KeysOfTail(cache, n, entry);
  }

  lemma TailAvoids(cache: seq<Entry>, n: nat, key: Text)
    requires n <= |cache| && forall i | 0 <= i < |cache| :: cache[i].key != key
    ensures forall i | 0 <= i < |cache| - n :: cache[n..][i].key != key
  {
  }

  lemma KeysOfTail(cache: seq<Entry>, n: nat, entry: Entry)
    requires n <= |cache|
    ensures Keys(cache[n..] + [entry]) == Keys(cache)[n..] + [entry.key]
  {
  }

  lemma DistinctTail(cache: seq<Entry>, n: nat)
    requires DistinctKeys(cache) && n <= |cache|
    ensures DistinctKeys(cache[n..])
  {
  }

  lemma DistinctAdd(cache: seq<Entry>, entry: Entry)
    requires DistinctKeys(cache) && forall i | 0 <= i < |cache| :: cache[i].key != entry.key
    ensures DistinctKeys(cache + [entry])
  {
  }

  lemma SuffixTail(a: seq<Text>, b: seq<Text>, n: nat)
    requires IsSuffix(a, b) && n <= |a|
    ensures IsSuffix(a[n..], b)
  {
  }

  lemma {:induction false} MovedDistinct(cache: seq<Entry>, p: nat)
    requires DistinctKeys(cache) && p < |cache|
    ensures DistinctKeys(cache[..p] + cache[p + 1..] + [cache[p]])
  {
    var moved := cache[..p] + cache[p + 1..] + [cache[p]];
    assert forall i | 0 <= i < |moved| :: moved[i] == cache[if i < p then i else if i < |cache| - 1 then i + 1 else p];
  }

  lemma SuffixOneMore(a: seq<Text>, b: seq<Text>, key: Text)
    requires IsSuffix(a, b)
    ensures IsSuffix(a + [key], b + [key])
  {
  }
}
