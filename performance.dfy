// Caching and batching of the direct-access LTFS layer (`src/ltfs/performance.rs`):
// a size-bounded cache of byte buffers with a time-to-live and least-recently-used
// eviction, and priority-ordered queues of pending reads and writes.
//
// The clock (`Instant::now`) is a parameter `now`; clock readings and durations
// are counted in nanoseconds.

module Performance {
  import opened Wrappers
  import opened Bytes
  import opened Sorting

  const NANOS_PER_SECOND: nat := 1_000_000_000
  const NANOS_PER_MILLI: nat := 1_000_000

  /** The largest `u64`, where the eviction scan starts its access count. */
  const U64_MAX: nat := U64_LIMIT - 1

  /** `CacheConfig`. */
  datatype CacheConfig = CacheConfig(maxCacheSize: nat, ttlSeconds: u64, maxIndexEntries: nat,
                                     enableBlockCache: bool, blockCacheSize: nat)

  /** `CacheConfig::default`: 256 MiB, five minutes, 1000 index entries, 1024 blocks. */
  const DEFAULT_CACHE_CONFIG: CacheConfig := CacheConfig(256 * 1024 * 1024, 300, 1000, true, 1024)

  /** `CacheEntry`: the data, when it was stored, and how often it was read. */
  datatype CacheEntry = CacheEntry(data: seq<byte>, timestamp: nat, accessCount: nat)

  /** `CacheKey`. */
  datatype CacheKey =
    | BlockData(partition: u8, startBlock: u64, blockCount: u32)
    | Index(generation: u64)
    | FileExtent(fileUid: u64, extentIndex: nat)
    | DirectoryListing(path: string)

  /** `CacheEntry::is_expired`: more than the time-to-live has passed since the entry was stored. */
  predicate IsExpired(e: CacheEntry, now: nat, ttlSeconds: nat)
  {
    now > e.timestamp + ttlSeconds * NANOS_PER_SECOND
  }

  /**
   * The eviction scan starts from (now, u64::MAX) and only takes an entry whose
   * (timestamp, access count) is strictly smaller.
   */
  predicate Evictable(e: CacheEntry, now: nat)
  {
    e.timestamp < now || (e.timestamp == now && e.accessCount < U64_MAX)
  }

  /** Least-recently-used order: older first, then fewer accesses first. */
  predicate Older(a: CacheEntry, b: CacheEntry)
  {
    a.timestamp < b.timestamp || (a.timestamp == b.timestamp && a.accessCount <= b.accessCount)
  }

  /** The number of bytes the entries of a cache hold. */
  ghost function Total(m: map<CacheKey, CacheEntry>): nat
    decreases |m|
  {
    if m == map[] then 0
    else
      var k :| k in m;
      assert |m - {k}| < |m| by { RemoveKeyCard(m, k); }
      |m[k].data| + Total(m - {k})
  }

  lemma RemoveKeyCard(m: map<CacheKey, CacheEntry>, k: CacheKey)
    requires k in m
    ensures |m - {k}| == |m| - 1
  {
    assert (m - {k}).Keys == m.Keys - {k};
  }

  /** Taking one entry out of a cache takes its bytes out of the total, whichever entry it is. */
  lemma {:induction false} TotalRemove(m: map<CacheKey, CacheEntry>, k: CacheKey)
    requires k in m
    ensures Total(m) == |m[k].data| + Total(m - {k})
    decreases |m|
  {
    var j :| j in m && Total(m) == |m[j].data| + Total(m - {j});
    if j != k {
      RemoveKeyCard(m, j);
      RemoveKeyCard(m, k);
      TotalRemove(m - {j}, k);
      TotalRemove(m - {k}, j);
      assert m - {j} - {k} == m - {k} - {j};
    }
  }

  /** Storing an entry under a key adds its bytes to the total of the other entries. */
  lemma TotalStore(m: map<CacheKey, CacheEntry>, k: CacheKey, e: CacheEntry)
    ensures Total(m[k := e]) == |e.data| + Total(m - {k})
  {
    TotalRemove(m[k := e], k);
    assert m[k := e] - {k} == m - {k};
  }

  /** A part of a cache whose entries could all be evicted, none of which can be evicted, is empty. */
  lemma NothingUnevictable(m: map<CacheKey, CacheEntry>, whole: map<CacheKey, CacheEntry>, now: nat)
    requires forall k :: k in m ==> k in whole && m[k] == whole[k] && !Evictable(m[k], now)
    requires forall k :: k in whole ==> Evictable(whole[k], now)
    ensures m == map[]
  {
    assert m.Keys == {};
  }

  /** `LtfsPerformanceCache`. */
  class LtfsPerformanceCache {
    var cache: map<CacheKey, CacheEntry>
    const config: CacheConfig
    var currentSize: nat
    var hitCount: nat
    var missCount: nat

    /** The size counter never undercounts the stored bytes and stays within the configured maximum. */
    ghost predicate Valid()
      reads this
    {
      Total(cache) <= currentSize <= config.maxCacheSize
    }

    /** How far the size counter is above the stored bytes; 0 while the accounting is exact. */
    ghost function Surplus(): int
      reads this
    {
      currentSize - Total(cache)
    }

    /** `with_config`: an empty cache with exact accounting. */
    constructor WithConfig(config: CacheConfig)
      ensures this.config == config
      ensures cache == map[] && currentSize == 0 && hitCount == 0 && missCount == 0
      ensures Valid() && Surplus() == 0
    {
      this.config := config;
      cache := map[];
      currentSize := 0;
      hitCount := 0;
      missCount := 0;
    }

    /**
     * `evict_lru`: removes the entry that is least recently used (oldest, then
     * least accessed) among those the scan can take; it reports false when the
     * scan takes none, in particular when the cache is empty.
     */
    method EvictLru(now: nat) returns (evicted: bool, ghost victim: Option<CacheKey>)
      requires Valid()
      modifies this`cache, this`currentSize
      ensures Valid() && Surplus() == old(Surplus())
      ensures !evicted ==> victim.None? && cache == old(cache) && currentSize == old(currentSize)
      ensures !evicted ==> forall k :: k in cache ==> !Evictable(cache[k], now)
      ensures evicted ==> victim.Some? && victim.value in old(cache) && Evictable(old(cache)[victim.value], now)
      ensures evicted ==> cache == old(cache) - {victim.value}
      ensures evicted ==> currentSize == old(currentSize) - |old(cache)[victim.value].data|
      ensures evicted ==> forall k :: k in old(cache) ==> Older(old(cache)[victim.value], old(cache)[k])
    {
      if cache == map[] {
        return false, None;
      }
      var oldestKey: Option<CacheKey> := None;
      var oldestTime := now;
      var lowestAccess := U64_MAX;
      var todo := cache.Keys;
      while todo != {}
        invariant todo <= cache.Keys
        invariant oldestKey.None? ==> oldestTime == now && lowestAccess == U64_MAX
        invariant oldestKey.Some? ==> oldestKey.value in cache && Evictable(cache[oldestKey.value], now)
        invariant oldestKey.Some? ==>
          cache[oldestKey.value].timestamp == oldestTime && cache[oldestKey.value].accessCount == lowestAccess
        invariant forall k :: k in cache && k !in todo ==>
          Older(CacheEntry([], oldestTime, lowestAccess), cache[k])
        decreases |todo|
      {
        var k :| k in todo;
        var e := cache[k];
        if e.timestamp < oldestTime || (e.timestamp == oldestTime && e.accessCount < lowestAccess) {
          oldestTime := e.timestamp;
          lowestAccess := e.accessCount;
          oldestKey := Some(k);
        }
        todo := todo - {k};
      }
      match oldestKey {
        case Some(key) =>
          TotalRemove(cache, key);
          currentSize := currentSize - |cache[key].data|;
          cache := cache - {key};
          return true, Some(key);
        case None =>
          return false, None;
      }
    }

    /** `cleanup_expired`: every expired entry is removed and its bytes are taken off the counter. */
    method CleanupExpired(now: nat)
      requires Valid()
      modifies this`cache, this`currentSize
      ensures Valid() && Surplus() == old(Surplus())
      ensures cache == Unexpired(old(cache), now, config.ttlSeconds as nat)
    {
      var ttl := config.ttlSeconds as nat;
      var toRemove: set<CacheKey> := {};
      var todo := cache.Keys;
      while todo != {}
        invariant todo <= cache.Keys
        invariant toRemove == set k | k in cache && k !in todo && IsExpired(cache[k], now, ttl)
        decreases |todo|
      {
        var k :| k in todo;
        if IsExpired(cache[k], now, ttl) {
          toRemove := toRemove + {k};
        }
        todo := todo - {k};
      }
      var rest := toRemove;
      while rest != {}
        invariant rest <= toRemove
        invariant cache == map k | k in old(cache) && (k !in toRemove || k in rest) :: old(cache)[k]
        invariant Valid() && Surplus() == old(Surplus())
        decreases |rest|
      {
        var k :| k in rest;
        if k in cache {
          TotalRemove(cache, k);
          currentSize := currentSize - |cache[k].data|;
          cache := cache - {k};
        }
        rest := rest - {k};
      }
    }

    /**
     * `get`: on every hundredth size the expired entries are cleaned up first;
     * an entry that is present and fresh is a hit, counts one more access and
     * returns its data; an expired entry is removed, with its bytes taken off
     * the counter, and counts as a miss, as does a missing one.
     */
    method Get(key: CacheKey, now: nat) returns (r: Option<seq<byte>>)
      requires Valid()
      modifies this`cache, this`currentSize, this`hitCount, this`missCount
      ensures Valid() && Surplus() == old(Surplus())
      ensures r.Some? <==> key in old(cache) && !IsExpired(old(cache)[key], now, config.ttlSeconds as nat)
      ensures r.Some? ==> r.value == old(cache)[key].data
      ensures r.Some? ==> key in cache && cache[key] == old(cache)[key].(accessCount := old(cache)[key].accessCount + 1)
      ensures r.None? ==> key !in cache
      ensures forall k :: k in cache ==> k in old(cache) && (k != key ==> cache[k] == old(cache)[k])
      ensures forall k :: k in old(cache) && !IsExpired(old(cache)[k], now, config.ttlSeconds as nat) ==> k in cache
      ensures |old(cache)| % 100 != 0 ==> forall k :: k in old(cache) && k != key ==> k in cache
      ensures r.Some? ==> hitCount == old(hitCount) + 1 && missCount == old(missCount)
      ensures r.None? ==> hitCount == old(hitCount) && missCount == old(missCount) + 1
    {
      if |cache| % 100 == 0 {
        CleanupExpired(now);
      }
      if key in cache {
        var entry := cache[key];
        if IsExpired(entry, now, config.ttlSeconds as nat) {
          TotalRemove(cache, key);
          currentSize := currentSize - |entry.data|;
          cache := cache - {key};
          missCount := missCount + 1;
          r := None;
        } else {
          hitCount := hitCount + 1;
          var accessed := entry.(accessCount := entry.accessCount + 1);
          TotalRemove(cache, key);
          TotalStore(cache, key, accessed);
          cache := cache[key := accessed];
          r := Some(entry.data);
        }
      } else {
        missCount := missCount + 1;
        r := None;
      }
    }

    /**
     * `get` as the source writes it: an expired entry found by the lookup is
     * removed but its bytes stay on the size counter.
     */
    method GetAsWritten(key: CacheKey, now: nat) returns (r: Option<seq<byte>>)
      requires Valid()
      modifies this`cache, this`currentSize, this`hitCount, this`missCount
      ensures Valid() && Surplus() >= old(Surplus())
      ensures r.Some? <==> key in old(cache) && !IsExpired(old(cache)[key], now, config.ttlSeconds as nat)
      ensures |old(cache)| % 100 != 0 && key in old(cache) && IsExpired(old(cache)[key], now, config.ttlSeconds as nat) ==>
        cache == old(cache) - {key} && currentSize == old(currentSize)
    {
      if |cache| % 100 == 0 {
        CleanupExpired(now);
      }
      if key in cache {
        var entry := cache[key];
        if IsExpired(entry, now, config.ttlSeconds as nat) {
          TotalRemove(cache, key);
          cache := cache - {key};
          missCount := missCount + 1;
          r := None;
        } else {
          hitCount := hitCount + 1;
          var accessed := entry.(accessCount := entry.accessCount + 1);
          TotalRemove(cache, key);
          TotalStore(cache, key, accessed);
          cache := cache[key := accessed];
          r := Some(entry.data);
        }
      } else {
        missCount := missCount + 1;
        r := None;
      }
    }

    /**
     * `put`: evicts least-recently-used entries until the data fits; when the
     * scan can evict no more, nothing is stored. Otherwise an entry already under
     * the key is replaced and the counter follows.
     */
    method Put(key: CacheKey, data: seq<byte>, now: nat) returns (stored: bool, ghost evicted: set<CacheKey>)
      requires Valid()
      modifies this`cache, this`currentSize
      ensures Valid() && Surplus() == old(Surplus())
      ensures evicted <= old(cache).Keys
      ensures forall k, j :: k in evicted && j in old(cache) && j !in evicted ==> Older(old(cache)[k], old(cache)[j])
      ensures stored ==> cache == (old(cache) - evicted)[key := CacheEntry(data, now, 0)]
      ensures !stored ==> cache == old(cache) - evicted && currentSize + |data| > config.maxCacheSize
      ensures !stored ==> forall k :: k in cache ==> !Evictable(cache[k], now)
      ensures |data| > config.maxCacheSize ==> !stored
      ensures (old(Surplus()) == 0 && |data| <= config.maxCacheSize &&
               forall k :: k in old(cache) ==> Evictable(old(cache)[k], now)) ==> stored
    {
      evicted := {};
      while currentSize + |data| > config.maxCacheSize
        invariant Valid() && Surplus() == old(Surplus())
        invariant evicted <= old(cache).Keys
        invariant cache == old(cache) - evicted
        invariant forall k, j :: k in evicted && j in old(cache) && j !in evicted ==> Older(old(cache)[k], old(cache)[j])
        decreases |cache|
      {
        ghost var before := cache;
        var ok, victim := EvictLru(now);
        if !ok {
          if old(Surplus()) == 0 && forall k :: k in old(cache) ==> Evictable(old(cache)[k], now) {
            NothingUnevictable(cache, old(cache), now);
          }
          return false, evicted;
        }
        var v := victim.value;
        RemoveKeyCard(before, v);
        assert cache == old(cache) - (evicted + {v});
        forall k, j | k in evicted + {v} && j in old(cache) && j !in evicted + {v}
          ensures Older(old(cache)[k], old(cache)[j])
        {
          if k == v {
            assert j in before && before[j] == old(cache)[j] && before[v] == old(cache)[v];
          }
        }
        evicted := evicted + {v};
      }
      Store(key, data, now);
      stored := true;
    }

    /** The end of `put`, once the data fits: the entry under the key, if any, is replaced. */
    method Store(key: CacheKey, data: seq<byte>, now: nat)
      requires Valid() && currentSize + |data| <= config.maxCacheSize
      modifies this`cache, this`currentSize
      ensures Valid() && Surplus() == old(Surplus())
      ensures cache == old(cache)[key := CacheEntry(data, now, 0)]
    {
      if key in cache {
        TotalRemove(cache, key);
        currentSize := currentSize - |cache[key].data|;
        cache := cache - {key};
      }
      var entry := CacheEntry(data, now, 0);
      TotalStore(cache, key, entry);
      assert cache - {key} == cache;
      currentSize := currentSize + |data|;
      cache := cache[key := entry];
    }

    /** `clear`: no entries, no bytes, no hits and no misses. */
    method Clear()
      modifies this`cache, this`currentSize, this`hitCount, this`missCount
      ensures cache == map[] && currentSize == 0 && hitCount == 0 && missCount == 0
      ensures Valid() && Surplus() == 0
    {
      cache := map[];
      currentSize := 0;
      hitCount := 0;
      missCount := 0;
    }

    /** `get_stats`, without the floating-point hit rate. */
    function GetStats(): (s: CacheStats)
      reads this
      ensures s.entries == |cache| && s.totalSize == currentSize && s.maxSize == config.maxCacheSize
      ensures s.hitCount == hitCount && s.missCount == missCount
      ensures Valid() ==> s.totalSize <= s.maxSize
    {
      CacheStats(|cache|, currentSize, config.maxCacheSize, hitCount, missCount)
    }
  }

  /** `CacheStats` without `hit_rate`. */
  datatype CacheStats = CacheStats(entries: nat, totalSize: nat, maxSize: nat, hitCount: nat, missCount: nat)

  /** The entries of a cache that have not expired. */
  function Unexpired(m: map<CacheKey, CacheEntry>, now: nat, ttlSeconds: nat): (r: map<CacheKey, CacheEntry>)
    ensures forall k :: k in r <==> k in m && !IsExpired(m[k], now, ttlSeconds)
    ensures forall k :: k in r ==> r[k] == m[k]
  {
    map k | k in m && !IsExpired(m[k], now, ttlSeconds) :: m[k]
  }

  /**
   * After a lookup of an expired 100-byte entry empties a 100-byte cache, the
   * source's counter still reads 100, so not even a one-byte entry can be
   * stored any more.
   */
  method ExpiredGetBlocksPut() returns (stored: bool)
    ensures !stored
  {
    var c := new LtfsPerformanceCache.WithConfig(CacheConfig(100, 300, 1000, true, 1024));
    var full := seq(100, _ => 0 as byte);
    var ok, _ := c.Put(BlockData(0, 0, 1), full, 0);
    var later := 301 * NANOS_PER_SECOND;
    var r := c.GetAsWritten(BlockData(0, 0, 1), later);
    assert c.cache == map[] && c.currentSize == 100;
    var none: map<CacheKey, CacheEntry> := map[];
    TotalStore(none, Index(1), CacheEntry([0], later, 0));
    assert none - {Index(1)} == none;
    ghost var evicted;
    stored, evicted := c.Put(Index(1), [0], later);
  }

  /** With the corrected lookup the same sequence of calls stores the one-byte entry. */
  method ExpiredGetThenPut() returns (stored: bool)
    ensures stored
  {
    var c := new LtfsPerformanceCache.WithConfig(CacheConfig(100, 300, 1000, true, 1024));
    var full := seq(100, _ => 0 as byte);
    var ok, _ := c.Put(BlockData(0, 0, 1), full, 0);
    var later := 301 * NANOS_PER_SECOND;
    var r := c.Get(BlockData(0, 0, 1), later);
    ghost var evicted;
    stored, evicted := c.Put(Index(1), [0], later);
  }

  /** `ReadPriority` and `WritePriority`, which have the same four levels. */
  datatype Priority = Low | Normal | High | Critical

  /** The discriminant of a priority level. */
  function Rank(p: Priority): (n: nat)
    ensures n <= 3
  {
    match p
    case Low => 0
    case Normal => 1
    case High => 2
    case Critical => 3
  }

  /** `BatchConfig`; the longest wait is in nanoseconds. */
  datatype BatchConfig = BatchConfig(maxBatchSize: nat, maxWaitNanos: nat, minBatchSize: nat,
                                     enableReadAhead: bool, readAheadBlocks: u32)

  /** `BatchConfig::default`: batches of at most 100, at least 5, half a second of waiting, 32 blocks read ahead. */
  const DEFAULT_BATCH_CONFIG: BatchConfig := BatchConfig(100, 500 * NANOS_PER_MILLI, 5, true, 32)

  datatype BatchReadRequest = BatchReadRequest(fileUid: u64, offset: u64, length: u64, priority: Priority, timestamp: nat)

  datatype BatchWriteRequest = BatchWriteRequest(data: seq<byte>, targetPath: string, priority: Priority, timestamp: nat)

  /** The read queue's order: higher priority first, then by file uid, then by offset. */
  function ReadKey(r: BatchReadRequest): seq<int>
  {
    [-(Rank(r.priority) as int), r.fileUid as int, r.offset as int]
  }

  /** The write queue's order: higher priority first. */
  function WriteKey(w: BatchWriteRequest): seq<int>
  {
    [-(Rank(w.priority) as int)]
  }

  /**
   * What an ordered read queue means: no request waits behind one of lower
   * priority, and within a priority the requests of one file come in offset
   * order.
   */
  lemma ReadQueueOrder(q: seq<BatchReadRequest>, i: nat, j: nat)
    requires SortedBy(q, ReadKey) && i < j < |q|
    ensures Rank(q[i].priority) >= Rank(q[j].priority)
    ensures q[i].priority == q[j].priority ==> q[i].fileUid <= q[j].fileUid
    ensures q[i].priority == q[j].priority && q[i].fileUid == q[j].fileUid ==> q[i].offset <= q[j].offset
  {
    var a, b := ReadKey(q[i]), ReadKey(q[j]);
    assert LexLe(a, b);
    if q[i].priority == q[j].priority {
      assert a[0] == b[0];
      assert LexLe(a[1..], b[1..]);
      if q[i].fileUid == q[j].fileUid {
        assert a[1..][0] == b[1..][0];
        assert LexLe(a[1..][1..], b[1..][1..]);
      }
    }
  }

  /** What an ordered write queue means: no request waits behind one of lower priority. */
  lemma WriteQueueOrder(q: seq<BatchWriteRequest>, i: nat, j: nat)
    requires SortedBy(q, WriteKey) && i < j < |q|
    ensures Rank(q[i].priority) >= Rank(q[j].priority)
  {
    assert LexLe(WriteKey(q[i]), WriteKey(q[j]));
  }

  /** How long ago a request was queued; `Instant::elapsed` saturates at zero. */
  function Elapsed(stamp: nat, now: nat): nat
  {
    if now >= stamp then now - stamp else 0
  }

  /** The queueing times of read requests, in queue order. */
  function ReadStamps(q: seq<BatchReadRequest>): (r: seq<nat>)
    ensures |r| == |q| && forall i :: 0 <= i < |q| ==> r[i] == q[i].timestamp
  {
    seq(|q|, i requires 0 <= i < |q| => q[i].timestamp)
  }

  /** The queueing times of write requests, in queue order. */
  function WriteStamps(q: seq<BatchWriteRequest>): (r: seq<nat>)
    ensures |r| == |q| && forall i :: 0 <= i < |q| ==> r[i] == q[i].timestamp
  {
    seq(|q|, i requires 0 <= i < |q| => q[i].timestamp)
  }

  /**
   * `get_queue_stats` as written: the "oldest" wait is the wait of the request
   * at the front of the queue, or zero for an empty queue.
   */
  function FrontWaitAsWritten(stamps: seq<nat>, now: nat): nat
  {
    if stamps == [] then 0 else Elapsed(stamps[0], now)
  }

  /** The wait of the request that has waited longest, or zero for an empty queue. */
  function OldestWait(stamps: seq<nat>, now: nat): (w: nat)
    ensures forall i :: 0 <= i < |stamps| ==> Elapsed(stamps[i], now) <= w
    ensures stamps == [] ==> w == 0
    ensures stamps != [] ==> exists i :: 0 <= i < |stamps| && w == Elapsed(stamps[i], now)
  {
    if stamps == [] then 0
    else
      var rest := OldestWait(stamps[1..], now);
      if rest == 0 || Elapsed(stamps[0], now) >= rest then
        Elapsed(stamps[0], now)
      else
        assert exists i :: 1 <= i < |stamps| && rest == Elapsed(stamps[i], now) by {
          var i :| 0 <= i < |stamps[1..]| && rest == Elapsed(stamps[1..][i], now);
          assert stamps[1..][i] == stamps[i + 1];
        }
        rest
  }

  /** The front wait never exceeds the oldest wait: as written, the statistic can only under-report. */
  lemma FrontWaitUnderReports(stamps: seq<nat>, now: nat)
    ensures FrontWaitAsWritten(stamps, now) <= OldestWait(stamps, now)
  {
  }

  /**
   * A high-priority request queued at 10 goes in front of a low-priority one
   * queued at 0; at time 20 the front has waited 10 while the oldest has
   * waited 20.
   */
  lemma FrontWaitMissesOldest()
    ensures var q := [BatchReadRequest(1, 0, 1, High, 10), BatchReadRequest(2, 0, 1, Low, 0)];
      && SortedBy(q, ReadKey)
      && FrontWaitAsWritten(ReadStamps(q), 20) == 10
      && OldestWait(ReadStamps(q), 20) == 20
  {
    var q := [BatchReadRequest(1, 0, 1, High, 10), BatchReadRequest(2, 0, 1, Low, 0)];
    assert LexLe(ReadKey(q[0]), ReadKey(q[1]));
    assert ReadStamps(q) == [10, 0];
    assert Elapsed(0, 20) == 20;
  }

  /** `QueueStats`, with the corrected oldest waits. */
  datatype QueueStats = QueueStats(pendingReads: nat, pendingWrites: nat, oldestReadWait: nat, oldestWriteWait: nat)

  /** Takes `min(batchSize, |queue|)` requests from the front, one at a time. */
  method TakeFront<T>(queue: seq<T>, maxBatchSize: nat) returns (batch: seq<T>, rest: seq<T>)
    ensures var n := if maxBatchSize <= |queue| then maxBatchSize else |queue|;
      batch == queue[..n] && rest == queue[n..]
  {
    var batchSize := if maxBatchSize <= |queue| then maxBatchSize else |queue|;
    batch := [];
    rest := queue;
    for i := 0 to batchSize
      invariant batch == queue[..i] && rest == queue[i..]
    {
      if rest != [] {
        batch := batch + [rest[0]];
        rest := rest[1..];
      }
    }
  }

  /** `BatchOperationManager`: the pending reads and writes, each queue kept in its order. */
  class BatchOperationManager {
    var readQueue: seq<BatchReadRequest>
    var writeQueue: seq<BatchWriteRequest>
    const config: BatchConfig

    ghost predicate Valid()
      reads this
    {
      SortedBy(readQueue, ReadKey) && SortedBy(writeQueue, WriteKey)
    }

    /** `with_config`: both queues empty. */
    constructor WithConfig(config: BatchConfig)
      ensures this.config == config && readQueue == [] && writeQueue == []
      ensures Valid()
    {
      this.config := config;
      readQueue := [];
      writeQueue := [];
    }

    /** `queue_read`: the request joins the queue, which is then sorted again. */
    method QueueRead(request: BatchReadRequest)
      modifies this`readQueue
      ensures readQueue == SortBy(old(readQueue) + [request], ReadKey)
      ensures multiset(readQueue) == multiset(old(readQueue)) + multiset{request}
      ensures SortedBy(readQueue, ReadKey)
      ensures old(Valid()) ==> Valid()
    {
      readQueue := SortBy(readQueue + [request], ReadKey);
      SortBySorted(old(readQueue) + [request], ReadKey);
    }

    /** `queue_write`: the request joins the queue, which is then sorted again. */
    method QueueWrite(request: BatchWriteRequest)
      modifies this`writeQueue
      ensures writeQueue == SortBy(old(writeQueue) + [request], WriteKey)
      ensures multiset(writeQueue) == multiset(old(writeQueue)) + multiset{request}
      ensures SortedBy(writeQueue, WriteKey)
      ensures old(Valid()) ==> Valid()
    {
      writeQueue := SortBy(writeQueue + [request], WriteKey);
      SortBySorted(old(writeQueue) + [request], WriteKey);
    }

    /**
     * `should_process_batch`: either queue holds the minimum batch, or the
     * request at the front of either queue has waited longer than allowed.
     */
    function ShouldProcessBatch(now: nat): (r: bool)
      reads this
      ensures |readQueue| >= config.minBatchSize || |writeQueue| >= config.minBatchSize ==> r
      ensures readQueue == [] && writeQueue == [] ==> (r <==> config.minBatchSize == 0)
      ensures r && |readQueue| < config.minBatchSize && |writeQueue| < config.minBatchSize ==>
        FrontWaitAsWritten(ReadStamps(readQueue), now) > config.maxWaitNanos
        || FrontWaitAsWritten(WriteStamps(writeQueue), now) > config.maxWaitNanos
      ensures (FrontWaitAsWritten(ReadStamps(readQueue), now) > config.maxWaitNanos
        || FrontWaitAsWritten(WriteStamps(writeQueue), now) > config.maxWaitNanos) ==> r
    {
      var readReady := |readQueue| >= config.minBatchSize;
      var writeReady := |writeQueue| >= config.minBatchSize;
      var readTimeout := readQueue != [] && Elapsed(readQueue[0].timestamp, now) > config.maxWaitNanos;
      var writeTimeout := writeQueue != [] && Elapsed(writeQueue[0].timestamp, now) > config.maxWaitNanos;
      readReady || writeReady || readTimeout || writeTimeout
    }

    /** `get_read_batch`: up to the maximum batch size of requests, taken from the front. */
    method GetReadBatch() returns (batch: seq<BatchReadRequest>)
      modifies this`readQueue
      ensures |batch| == if config.maxBatchSize <= |old(readQueue)| then config.maxBatchSize else |old(readQueue)|
      ensures old(readQueue) == batch + readQueue
      ensures old(Valid()) ==> Valid()
      ensures old(Valid()) ==> forall i, j :: 0 <= i < |batch| && 0 <= j < |readQueue| ==>
        Rank(batch[i].priority) >= Rank(readQueue[j].priority)
    {
      batch, readQueue := TakeFront(readQueue, config.maxBatchSize);
      assert old(readQueue) == batch + readQueue;
      if old(Valid()) {
        forall i, j | 0 <= i < |batch| && 0 <= j < |readQueue|
          ensures Rank(batch[i].priority) >= Rank(readQueue[j].priority)
        {
          ReadQueueOrder(old(readQueue), i, |batch| + j);
        }
      }
    }

    /** `get_write_batch`: up to the maximum batch size of requests, taken from the front. */
    method GetWriteBatch() returns (batch: seq<BatchWriteRequest>)
      modifies this`writeQueue
      ensures |batch| == if config.maxBatchSize <= |old(writeQueue)| then config.maxBatchSize else |old(writeQueue)|
      ensures old(writeQueue) == batch + writeQueue
      ensures old(Valid()) ==> Valid()
      ensures old(Valid()) ==> forall i, j :: 0 <= i < |batch| && 0 <= j < |writeQueue| ==>
        Rank(batch[i].priority) >= Rank(writeQueue[j].priority)
    {
      batch, writeQueue := TakeFront(writeQueue, config.maxBatchSize);
      assert old(writeQueue) == batch + writeQueue;
      if old(Valid()) {
        forall i, j | 0 <= i < |batch| && 0 <= j < |writeQueue|
          ensures Rank(batch[i].priority) >= Rank(writeQueue[j].priority)
        {
          WriteQueueOrder(old(writeQueue), i, |batch| + j);
        }
      }
    }

    /** `get_queue_stats`, with the wait of the request that has really waited longest. */
    function GetQueueStats(now: nat): (s: QueueStats)
      reads this
      ensures s.pendingReads == |readQueue| && s.pendingWrites == |writeQueue|
      ensures forall i :: 0 <= i < |readQueue| ==> Elapsed(readQueue[i].timestamp, now) <= s.oldestReadWait
      ensures forall i :: 0 <= i < |writeQueue| ==> Elapsed(writeQueue[i].timestamp, now) <= s.oldestWriteWait
      ensures readQueue == [] ==> s.oldestReadWait == 0
      ensures writeQueue == [] ==> s.oldestWriteWait == 0
      ensures readQueue != [] ==> exists i :: 0 <= i < |readQueue| && s.oldestReadWait == Elapsed(readQueue[i].timestamp, now)
      ensures writeQueue != [] ==> exists i :: 0 <= i < |writeQueue| && s.oldestWriteWait == Elapsed(writeQueue[i].timestamp, now)
    {
      QueueStats(|readQueue|, |writeQueue|, OldestWait(ReadStamps(readQueue), now), OldestWait(WriteStamps(writeQueue), now))
    }
  }
}
