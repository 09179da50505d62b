/** The filter with a position cache in front of the hashing (pkg/bloom/cache.go). */
module CachedFilter {
  import opened Bytes
  import opened HashIndices
  import opened Counters
  import opened CountingFilter
  import opened LruCache
  import opened CacheRuns

  datatype FilterOp =
    | Add(item: Item) | Contains(item: Item) | Remove(item: Item)
    | BatchAdd(items: seq<Item>) | BatchRemove(items: seq<Item>) | BatchContains(items: seq<Item>)

  datatype Outcome = Flag(value: bool) | Done | Flags(values: seq<bool>)

  function Found(hash: Hash32, k: nat, c: Counters, items: seq<Item>): seq<bool>
    requires |c| >= 2
  {
    seq(|items|, i requires 0 <= i < |items| => ContainsAt(c, Positions(hash, |c|, k, items[i])))
  }

  /** One operation of the uncached filter. */
  function PlainStep(hash: Hash32, k: nat, c: Counters, op: FilterOp): (r: (Counters, Outcome))
    requires |c| >= 2
    ensures |r.0| == |c|
  {
    match op
    case Add(item) => var r := AddAt(c, Positions(hash, |c|, k, item)); (r.counters, Flag(r.ok))
    case Contains(item) => (c, Flag(ContainsAt(c, Positions(hash, |c|, k, item))))
    case Remove(item) => (RemoveAt(c, Positions(hash, |c|, k, item)), Done)
    case BatchAdd(items) => var r := BatchAdded(hash, k, c, items); (r.counters, Flags(r.oks))
    case BatchRemove(items) => (RemovedAll(hash, k, c, items), Done)
    case BatchContains(items) => (c, Flags(Found(hash, k, c, items)))
  }

  /** Every cached entry is the item's positions. */
  ghost predicate Coherent(hash: Hash32, m: nat, k: nat, cache: Cache)
    requires m >= 2
  {
    forall key | key in cache.entries :: cache.entries[key] == Positions(hash, m, k, key)
  }

  /** Positions from the cache, or computed and stored. */
  function Lookup(hash: Hash32, m: nat, k: nat, cache: Cache, item: Item): (Cache, seq<nat>)
    requires m >= 2
  {
    var (c, hit) := GetFrom(cache, item);
    if hit.Some? then (c, hit.value)
    else var idx := Positions(hash, m, k, item); (PutInto(c, item, idx), idx)
  }

  lemma LookupIsPositions(hash: Hash32, m: nat, k: nat, cache: Cache, item: Item)
    requires m >= 2 && Coherent(hash, m, k, cache)
    ensures var (c, idx) := Lookup(hash, m, k, cache, item);
            idx == Positions(hash, m, k, item) && Coherent(hash, m, k, c)
  {}

  lemma LookupLru(hash: Hash32, m: nat, k: nat, cache: Cache, item: Item)
    requires m >= 2 && cache.Valid()
    ensures var c := Lookup(hash, m, k, cache, item).0;
            c.Valid() && c.capacity == cache.capacity && c.lru == UseLru(cache.Limit(), cache.lru, item)
  {
    if item in cache.entries {
      DropKeyEffect(cache.lru, item);
    } else {
      PutIntoLru(cache, item, Positions(hash, m, k, item));
    }
  }

  datatype Cached = Cached(counters: Counters, cache: Cache)

  ghost predicate Ready(hash: Hash32, k: nat, s: Cached) {
    |s.counters| >= 2 && s.cache.Valid() && Coherent(hash, |s.counters|, k, s.cache)
  }

  /** One operation of the cached filter; the batch operations are those of the embedded filter. */
  function CachedStep(hash: Hash32, k: nat, s: Cached, op: FilterOp): (r: (Cached, Outcome))
    requires Ready(hash, k, s)
  {
    var m := |s.counters|;
    match op
    case Add(item) =>
      LookupIsPositions(hash, m, k, s.cache, item);
      var (c, idx) := Lookup(hash, m, k, s.cache, item);
      var r := AddAt(s.counters, idx);
      (Cached(r.counters, c), Flag(r.ok))
    case Contains(item) =>
      LookupIsPositions(hash, m, k, s.cache, item);
      var (c, idx) := Lookup(hash, m, k, s.cache, item);
      (Cached(s.counters, c), Flag(ContainsAt(s.counters, idx)))
    case Remove(item) =>
      (Cached(RemoveAt(s.counters, Positions(hash, m, k, item)), RemoveFrom(s.cache, item)), Done)
    case _ =>
      var (c, o) := PlainStep(hash, k, s.counters, op);
      (Cached(c, s.cache), o)
  }

  /** What an operation does to the recency list. */
  function CacheOps(op: FilterOp): seq<CacheOp> {
    match op
    case Add(item) => [Use(item)]
    case Contains(item) => [Use(item)]
    case Remove(item) => [Drop(item)]
    case _ => []
  }

  lemma StepTransparent(hash: Hash32, k: nat, s: Cached, op: FilterOp)
    requires Ready(hash, k, s)
    ensures var (s', o) := CachedStep(hash, k, s, op);
            && (s'.counters, o) == PlainStep(hash, k, s.counters, op)
            && Ready(hash, k, s') && s'.cache.capacity == s.cache.capacity
  {
    var m := |s.counters|;
    if op.Add? || op.Contains? {
      LookupIsPositions(hash, m, k, s.cache, op.item);
      LookupLru(hash, m, k, s.cache, op.item);
    } else if op.Remove? {
      RemoveFromLru(s.cache, op.item);
    }
  }

  lemma StepLru(hash: Hash32, k: nat, s: Cached, op: FilterOp)
    requires Ready(hash, k, s)
    ensures var lru, ops := CachedStep(hash, k, s, op).0.cache.lru, CacheOps(op);
            lru == if ops == [] then s.cache.lru else LruStep(s.cache.Limit(), s.cache.lru, ops[0])
  {
    if op.Add? || op.Contains? {
      LookupLru(hash, |s.counters|, k, s.cache, op.item);
    } else if op.Remove? {
      RemoveFromLru(s.cache, op.item);
    }
  }

  datatype Run<S> = Run(state: S, outcomes: seq<Outcome>)

  function PlainRun(hash: Hash32, m: nat, k: nat, ops: seq<FilterOp>): (r: Run<Counters>)
    requires m >= 2
    ensures |r.state| == m
  {
    if ops == [] then Run(seq(m, _ => 0), [])
    else
      var p := PlainRun(hash, m, k, ops[..|ops| - 1]);
      var (c, o) := PlainStep(hash, k, p.state, ops[|ops| - 1]);
      Run(c, p.outcomes + [o])
  }

  function CachedRun(hash: Hash32, m: nat, k: nat, capacity: nat, ops: seq<FilterOp>): (r: Run<Cached>)
    requires m >= 2
    ensures |r.state.counters| == m && Ready(hash, k, r.state) && r.state.cache.capacity == capacity
  {
    if ops == [] then Run(Cached(seq(m, _ => 0), Empty(capacity)), [])
    else
      var p := CachedRun(hash, m, k, capacity, ops[..|ops| - 1]);
      var op := ops[|ops| - 1];
      StepTransparent(hash, k, p.state, op);
      var (s, o) := CachedStep(hash, k, p.state, op);
      Run(s, p.outcomes + [o])
  }

  /** For every capacity the cached filter answers and counts like the uncached one. */
  lemma {:induction false} Transparent(hash: Hash32, m: nat, k: nat, capacity: nat, ops: seq<FilterOp>)
    requires m >= 2
    ensures var cached, plain := CachedRun(hash, m, k, capacity, ops), PlainRun(hash, m, k, ops);
            cached.state.counters == plain.state && cached.outcomes == plain.outcomes
  {
    if ops != [] {
      var n := |ops| - 1;
      Transparent(hash, m, k, capacity, ops[..n]);
      StepTransparent(hash, k, CachedRun(hash, m, k, capacity, ops[..n]).state, ops[n]);
    }
  }

  function Trace(ops: seq<FilterOp>): seq<CacheOp> {
    if ops == [] then [] else Trace(ops[..|ops| - 1]) + CacheOps(ops[|ops| - 1])
  }

  /** The cache's list is the recency list of the trace. */
  lemma {:induction false} LruOfRun(hash: Hash32, m: nat, k: nat, capacity: nat, ops: seq<FilterOp>)
    requires m >= 2
    ensures var cache := CachedRun(hash, m, k, capacity, ops).state.cache;
            cache.lru == RunLru(cache.Limit(), Trace(ops))
  {
    hide Ready, CachedStep, LruStep;
    if ops != [] {
      var n := |ops| - 1;
      var s, op := CachedRun(hash, m, k, capacity, ops[..n]).state, ops[n];
      LruOfRun(hash, m, k, capacity, ops[..n]);
      StepLru(hash, k, s, op);
      StepTransparent(hash, k, s, op);
      if CacheOps(op) == [] {
        assert Trace(ops) == Trace(ops[..n]);
      } else {
        RunLruSnoc(s.cache.Limit(), Trace(ops[..n]), CacheOps(op)[0]);
      }
    }
  }

  /**
   * On any trace, with capacities a <= b: the list of the smaller cache is a suffix of the larger
   * one's, so every hit in the smaller is a hit in the larger; and both are ordered by last use.
   */
  lemma LruInclusion(hash: Hash32, m: nat, k: nat, a: nat, b: nat, ops: seq<FilterOp>)
    requires m >= 2 && a <= b
    ensures var small, large := CachedRun(hash, m, k, a, ops).state.cache, CachedRun(hash, m, k, b, ops).state.cache;
            && Suffix(small.lru, large.lru) && (forall key | key in small.entries :: key in large.entries)
            && ByLastUse(small.lru, Trace(ops)) && Distinct(small.lru) && |small.lru| <= small.Limit()
  {
    hide CachedRun, RunLru, Trace, ByLastUse, Suffix, Coherent, Distinct;
    var small, large := CachedRun(hash, m, k, a, ops).state.cache, CachedRun(hash, m, k, b, ops).state.cache;
    LruOfRun(hash, m, k, a, ops);
    LruOfRun(hash, m, k, b, ops);
    Inclusion(small.Limit(), large.Limit(), Trace(ops));
    RunOrdered(small.Limit(), Trace(ops));
    SuffixKeys(small, large);
  }

  lemma SuffixKeys(small: Cache, large: Cache)
    requires small.Valid() && large.Valid() && Suffix(small.lru, large.lru)
    ensures forall key | key in small.entries :: key in large.entries
  {
    forall key | key in small.entries ensures key in large.entries {
      var i :| 0 <= i < |small.lru| && small.lru[i] == key;
      assert large.lru[|large.lru| - |small.lru| + i] == key;
    }
  }

  class CountingBloomFilterWithCache {
    const filter: CountingBloomFilter
    const cache: IndexCache

    ghost predicate Valid()
      reads filter.counters, cache
    {
      filter.Usable() && Ready(filter.hash, filter.k, Value())
    }

    ghost function Value(): Cached
      reads filter.counters, cache
    {
      Cached(filter.counters[..], cache.Value())
    }

    constructor (m: nat, k: nat, cacheSize: int, hash: Hash32)
      requires m >= 2 && k <= 0x1_0000_0000 && cacheSize >= 0
      ensures Valid() && fresh(filter.counters) && fresh(cache)
      ensures filter.m == m && filter.k == k && filter.hash == hash
      ensures Value() == CachedRun(hash, m, k, cacheSize, []).state
    {
      filter := new CountingBloomFilter(m, k, hash);
      cache := new IndexCache(cacheSize);
    }

    method GetIndices(item: Item) returns (idx: seq<nat>)
      requires Valid()
      modifies cache
      ensures Valid() && (cache.Value(), idx) == Lookup(filter.hash, filter.m, filter.k, old(cache.Value()), item)
      ensures idx == Positions(filter.hash, filter.m, filter.k, item)
    {
      LookupIsPositions(filter.hash, filter.m, filter.k, cache.Value(), item);
      LookupLru(filter.hash, filter.m, filter.k, cache.Value(), item);
      var hit := cache.Get(item);
      match hit
      case Some(cached) =>
        idx := cached;
      case None =>
        var indices := GetHashIndices(filter.hash, item, filter.m, filter.k);
        idx := indices[..];
        cache.Put(item, idx);
    }

    method Add(item: Item) returns (ok: bool)
      requires Valid()
      modifies filter.counters, cache
      ensures Valid()
      ensures (Value(), Flag(ok)) == CachedStep(filter.hash, filter.k, old(Value()), FilterOp.Add(item))
    {
      var idx := GetIndices(item);
      ok := filter.Increment(idx);
    }

    method Contains(item: Item) returns (found: bool)
      requires Valid()
      modifies cache
      ensures Valid()
      ensures (Value(), Flag(found)) == CachedStep(filter.hash, filter.k, old(Value()), FilterOp.Contains(item))
    {
      var idx := GetIndices(item);
      found := filter.AllNonZero(idx);
    }

    method Remove(item: Item)
      requires Valid()
      modifies filter.counters, cache
      ensures Valid()
      ensures (Value(), Done) == CachedStep(filter.hash, filter.k, old(Value()), FilterOp.Remove(item))
    {
      RemoveFromLru(cache.Value(), item);
      cache.Remove(item);
      filter.Remove(item);
    }
  }
}
