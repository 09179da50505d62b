/** The LRU cache of hash positions (pkg/bloom/cache.go). Hit counts and timestamps are not kept. */
module LruCache {
  import opened Bytes
  import opened HashIndices

  /** `lru` lists the cached keys, the least recently used first. */
  datatype Cache = Cache(capacity: nat, entries: map<Item, seq<nat>>, lru: seq<Item>) {
    /** Capacity zero still admits one entry. */
    function Limit(): nat { if capacity >= 1 then capacity else 1 }

    ghost predicate Valid() {
      && Distinct(lru)
      && (forall key :: key in entries <==> key in lru)
      && |lru| <= Limit()
    }
  }

  /** removeFromLRU */
  function DropKey(lru: seq<Item>, key: Item): (r: seq<Item>) {
    if lru == [] then []
    else if lru[0] == key then lru[1..]
    else [lru[0]] + DropKey(lru[1..], key)
  }

  /** moveToFront */
  function Touch(lru: seq<Item>, key: Item): seq<Item> { DropKey(lru, key) + [key] }

  function Evicted(c: Cache): Cache {
    if c.lru == [] then c else Cache(c.capacity, c.entries - {c.lru[0]}, c.lru[1..])
  }

  function GetFrom(c: Cache, key: Item): (Cache, Option<seq<nat>>) {
    if key !in c.entries then (c, None)
    else (c.(lru := Touch(c.lru, key)), Some(c.entries[key]))
  }

  function PutInto(c: Cache, key: Item, indices: seq<nat>): Cache {
    if key in c.entries then Cache(c.capacity, c.entries[key := indices], Touch(c.lru, key))
    else
      var e := if |c.entries| >= c.capacity then Evicted(c) else c;
      Cache(c.capacity, e.entries[key := indices], e.lru + [key])
  }

  function RemoveFrom(c: Cache, key: Item): Cache {
    if key in c.entries then Cache(c.capacity, c.entries - {key}, DropKey(c.lru, key)) else c
  }

  function Empty(capacity: nat): Cache { Cache(capacity, map[], []) }

  lemma TailKeys(lru: seq<Item>)
    requires Distinct(lru) && lru != []
    ensures Distinct(lru[1..]) && forall key :: key in lru[1..] <==> key in lru && key != lru[0]
  {
    assert lru == [lru[0]] + lru[1..];
  }

  lemma {:induction false} DropKeyEffect(lru: seq<Item>, key: Item)
    requires Distinct(lru)
    ensures var r := DropKey(lru, key);
            && Distinct(r) && (forall x :: x in r <==> x in lru && x != key)
            && |r| == if key in lru then |lru| - 1 else |lru|
  {
    if lru != [] {
      TailKeys(lru);
      assert lru == [lru[0]] + lru[1..] && lru[0] !in lru[1..];
      DropKeyEffect(lru[1..], key);
      if lru[0] != key {
        assert lru[0] !in DropKey(lru[1..], key);
      }
    }
  }

  /** Deleting a key from a concatenation without repetitions deletes it from the part it is in. */
  lemma {:induction false} DropKeyConcat(p: seq<Item>, s: seq<Item>, key: Item)
    ensures DropKey(p + s, key) == if key in p then DropKey(p, key) + s else p + DropKey(s, key)
  {
    if p == [] {
      assert p + s == s;
    } else {
      assert (p + s)[1..] == p[1..] + s && p == [p[0]] + p[1..];
      if p[0] != key {
        DropKeyConcat(p[1..], s, key);
        var rest := if key in p[1..] then DropKey(p[1..], key) + s else p[1..] + DropKey(s, key);
        assert DropKey(p + s, key) == [p[0]] + rest;
      }
    }
  }

  lemma {:induction false} KeyCount(c: Cache)
    requires Distinct(c.lru) && (forall key :: key in c.entries <==> key in c.lru)
    ensures |c.entries| == |c.lru|
    decreases |c.lru|
  {
    if c.lru == [] {
      assert c.entries.Keys == {};
    } else {
      var e := Evicted(c);
      TailKeys(c.lru);
      KeyCount(e);
      assert e.entries.Keys == c.entries.Keys - {c.lru[0]};
    }
  }

  lemma PutIntoLru(c: Cache, key: Item, indices: seq<nat>)
    requires c.Valid()
    ensures PutInto(c, key, indices).Valid()
    ensures PutInto(c, key, indices).lru == UseLru(c.Limit(), c.lru, key)
  {
    hide DropKey;
    KeyCount(c);
    if key in c.entries {
      DropKeyEffect(c.lru, key);
    } else if |c.entries| >= c.capacity && c.lru != [] {
      TailKeys(c.lru);
    }
  }

  /** What is put is found, whatever was cached; what is removed is not. */
  lemma GetAfterPut(c: Cache, key: Item, indices: seq<nat>)
    ensures GetFrom(PutInto(c, key, indices), key).1 == Some(indices)
    ensures GetFrom(RemoveFrom(c, key), key).1 == None
  {}

  /** Other keys are found as before, but for the one evicted when there is no room: the head of the list. */
  lemma GetOther(c: Cache, key: Item, indices: seq<nat>, other: Item)
    requires c.Valid() && other != key
    ensures GetFrom(PutInto(c, key, indices), other).1 ==
            if key !in c.lru && |c.lru| >= c.capacity && c.lru != [] && other == c.lru[0] then None
            else GetFrom(c, other).1
    ensures GetFrom(RemoveFrom(c, key), other).1 == GetFrom(c, other).1
    ensures GetFrom(c, other).1.Some? <==> other in c.lru
  {
    KeyCount(c);
  }

  /** A use always leaves the key cached, so a cache of capacity zero holds its last key. */
  lemma ZeroCapacity(c: Cache, key: Item, indices: seq<nat>)
    requires c.Valid() && c.capacity == 0
    ensures PutInto(c, key, indices).entries == map[key := indices] && PutInto(c, key, indices).lru == [key]
  {
    KeyCount(c);
    PutIntoLru(c, key, indices);
    var r := PutInto(c, key, indices);
    assert key in r.entries && r.entries[key] == indices && key in r.lru;
    assert r.lru == [key];
    assert forall x | x in r.entries :: x == key;
  }

  lemma RemoveFromLru(c: Cache, key: Item)
    requires c.Valid()
    ensures RemoveFrom(c, key).Valid() && RemoveFrom(c, key).lru == DropKey(c.lru, key)
  {
    DropKeyEffect(c.lru, key);
    if key !in c.lru { DropAbsent(c.lru, key); }
  }

  lemma DropKeyAt(lru: seq<Item>, key: Item, i: nat)
    requires i < |lru| && lru[i] == key && key !in lru[..i]
    ensures DropKey(lru, key) == lru[..i] + lru[i + 1..]
  {
    assert lru == lru[..i] + lru[i..] && lru[i..][1..] == lru[i + 1..];
    DropKeyConcat(lru[..i], lru[i..], key);
  }

  lemma {:induction false} DropAbsent(lru: seq<Item>, key: Item)
    requires key !in lru
    ensures DropKey(lru, key) == lru
  {
    if lru != [] { DropAbsent(lru[1..], key); }
  }

  /** What one use of a key does to the recency list of a cache with the given limit. */
  function UseLru(limit: nat, lru: seq<Item>, key: Item): seq<Item> {
    if key in lru then Touch(lru, key)
    else if |lru| >= limit && lru != [] then lru[1..] + [key]
    else lru + [key]
  }

  class IndexCache {
    const capacity: nat
    var cache: map<Item, seq<nat>>
    var lru: seq<Item>

    ghost function Value(): Cache
      reads this
    {
      Cache(capacity, cache, lru)
    }

    /** make panics on a negative capacity. */
    constructor (capacity: int)
      requires capacity >= 0
      ensures Value() == Empty(capacity)
    {
      this.capacity := capacity;
      cache, lru := map[], [];
    }

    method RemoveFromLRU(key: Item)
      modifies this`lru
      ensures lru == DropKey(old(lru), key)
    {
      hide DropKey;
      for i := 0 to |lru|
        invariant lru == old(lru) && key !in lru[..i]
      {
        if lru[i] == key {
          DropKeyAt(lru, key, i);
          lru := lru[..i] + lru[i + 1..];
          return;
        }
      }
      assert lru[..|lru|] == lru;
      DropAbsent(lru, key);
    }

    method MoveToFront(key: Item)
      modifies this`lru
      ensures lru == Touch(old(lru), key)
    {
      RemoveFromLRU(key);
      lru := lru + [key];
    }

    method EvictOldest()
      modifies this
      ensures Value() == Evicted(old(Value()))
    {
      if |lru| == 0 {
        return;
      }
      cache := cache - {lru[0]};
      lru := lru[1..];
    }

    method Get(key: Item) returns (indices: Option<seq<nat>>)
      modifies this
      ensures (Value(), indices) == GetFrom(old(Value()), key)
    {
      if key !in cache {
        return None;
      }
      MoveToFront(key);
      return Some(cache[key]);
    }

    method Put(key: Item, indices: seq<nat>)
      modifies this
      ensures Value() == PutInto(old(Value()), key, indices)
    {
      if key in cache {
        cache := cache[key := indices];
        MoveToFront(key);
        return;
      }
      if |cache| >= capacity {
        EvictOldest();
      }
      cache := cache[key := indices];
      lru := lru + [key];
    }

    method Remove(key: Item)
      modifies this
      ensures Value() == RemoveFrom(old(Value()), key)
    {
      if key in cache {
        cache := cache - {key};
        RemoveFromLRU(key);
      }
    }

    method Clear()
      modifies this
      ensures Value() == Empty(capacity)
    {
      cache, lru := map[], [];
    }
  }
}
