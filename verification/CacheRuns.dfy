/** Whole traces of a cached filter: recency order, inclusion between capacities. */
module CacheRuns {
  import opened Bytes
  import opened HashIndices
  import opened LruCache

  /** Add and Contains use a key; Remove invalidates it. */
  datatype CacheOp = Use(key: Item) | Drop(key: Item)

  function LruStep(limit: nat, lru: seq<Item>, op: CacheOp): seq<Item> {
    match op
    case Use(key) => UseLru(limit, lru, key)
    case Drop(key) => DropKey(lru, key)
  }

  /** The recency list after a trace, for a cache with the given limit. */
  function RunLru(limit: nat, ops: seq<CacheOp>): seq<Item> {
    if ops == [] then []
    else LruStep(limit, RunLru(limit, ops[..|ops| - 1]), ops[|ops| - 1])
  }

  lemma RunLruSnoc(limit: nat, ops: seq<CacheOp>, op: CacheOp)
    ensures RunLru(limit, ops + [op]) == LruStep(limit, RunLru(limit, ops), op)
  {
    assert (ops + [op])[..|ops|] == ops;
  }

  lemma UseDistinct(limit: nat, lru: seq<Item>, key: Item)
    requires limit >= 1 && Distinct(lru) && |lru| <= limit
    ensures Distinct(UseLru(limit, lru, key)) && |UseLru(limit, lru, key)| <= limit
  {
    DropKeyEffect(lru, key);
  }

  /** The list never repeats a key and never outgrows the limit. */
  lemma {:induction false} RunDistinct(limit: nat, ops: seq<CacheOp>)
    requires limit >= 1
    ensures Distinct(RunLru(limit, ops)) && |RunLru(limit, ops)| <= limit
  {
    if ops != [] {
      var n := |ops| - 1;
      RunDistinct(limit, ops[..n]);
      var lru := RunLru(limit, ops[..n]);
      match ops[n]
      case Use(key) => UseDistinct(limit, lru, key);
      case Drop(key) => DropKeyEffect(lru, key);
    }
  }

  lemma DropSuffix(s: seq<Item>, t: seq<Item>, key: Item)
    requires Suffix(s, t) && Distinct(t)
    ensures Suffix(DropKey(s, key), DropKey(t, key))
  {
    var p := t[..|t| - |s|];
    assert t == p + s;
    DropKeyConcat(p, s, key);
    assert key in p ==> key !in s;
    if key !in s { DropAbsent(s, key); }
  }

  /** Appending to both, and dropping the oldest of the shorter or of both, keep a suffix. */
  lemma SuffixKept(s: seq<Item>, t: seq<Item>, x: Item)
    requires Suffix(s, t)
    ensures Suffix(s + [x], t + [x])
    ensures s != [] ==> Suffix(s[1..], t) && Suffix(s[1..], t[1..])
    ensures |s| < |t| ==> Suffix(s, t[1..])
  {
    var p := t[..|t| - |s|];
    assert t == p + s;
    assert t + [x] == p + (s + [x]);
    if s != [] { assert t == (p + [s[0]]) + s[1..]; }
    if p != [] { assert t[1..] == p[1..] + s; }
  }

  /** The list a use leaves in front of the key used. */
  function Front(limit: nat, lru: seq<Item>, key: Item): seq<Item> {
    if key in lru then DropKey(lru, key) else if |lru| >= limit && lru != [] then lru[1..] else lru
  }

  lemma UseIsFront(limit: nat, lru: seq<Item>, key: Item)
    ensures UseLru(limit, lru, key) == Front(limit, lru, key) + [key]
  {}

  lemma SuffixMember(s: seq<Item>, t: seq<Item>, x: Item)
    requires Suffix(s, t)
    ensures |s| <= |t| && (x in s ==> x in t)
  {}

  lemma FrontSuffix(a: nat, b: nat, s: seq<Item>, t: seq<Item>, key: Item)
    requires 1 <= a <= b && Suffix(s, t) && Distinct(t) && |s| <= a && |t| <= b
    ensures Suffix(Front(a, s, key), Front(b, t, key))
  {
    hide Suffix, Distinct, DropKey;
    SuffixMember(s, t, key);
    if key in t {
      DropSuffix(s, t, key);
      if key !in s {
        DropAbsent(s, key);
        SuffixKept(s, DropKey(t, key), key);
      }
    } else {
      SuffixKept(s, t, key);
    }
  }

  lemma UseSuffix(a: nat, b: nat, s: seq<Item>, t: seq<Item>, key: Item)
    requires 1 <= a <= b && Suffix(s, t) && Distinct(t) && |s| <= a && |t| <= b
    ensures Suffix(UseLru(a, s, key), UseLru(b, t, key))
  {
    hide UseLru, Front, Suffix;
    UseIsFront(a, s, key);
    UseIsFront(b, t, key);
    FrontSuffix(a, b, s, t, key);
    SuffixKept(Front(a, s, key), Front(b, t, key), key);
  }

  /** Stack property: the smaller cache's list is always a suffix of the larger one's. */
  lemma {:induction false} Inclusion(a: nat, b: nat, ops: seq<CacheOp>)
    requires 1 <= a <= b
    ensures Suffix(RunLru(a, ops), RunLru(b, ops))
  {
    if ops != [] {
      var n := |ops| - 1;
      Inclusion(a, b, ops[..n]);
      RunDistinct(a, ops[..n]);
      RunDistinct(b, ops[..n]);
      match ops[n]
      case Use(key) => UseSuffix(a, b, RunLru(a, ops[..n]), RunLru(b, ops[..n]), key);
      case Drop(key) => DropSuffix(RunLru(a, ops[..n]), RunLru(b, ops[..n]), key);
    }
  }

  /** The position of the last use of a key in a trace, or -1. */
  function LastUse(ops: seq<CacheOp>, key: Item): int {
    if ops == [] then -1
    else if ops[|ops| - 1] == Use(key) then |ops| - 1
    else LastUse(ops[..|ops| - 1], key)
  }

  lemma {:induction false} LastUseBound(ops: seq<CacheOp>, key: Item)
    ensures LastUse(ops, key) < |ops|
  {
    if ops != [] { LastUseBound(ops[..|ops| - 1], key); }
  }

  ghost predicate ByLastUse(lru: seq<Item>, ops: seq<CacheOp>) {
    forall i, j | 0 <= i < j < |lru| :: LastUse(ops, lru[i]) < LastUse(ops, lru[j])
  }

  lemma {:induction false} LastUseOther(ops: seq<CacheOp>, key: Item)
    requires ops != [] && ops[|ops| - 1] != Use(key)
    ensures LastUse(ops, key) == LastUse(ops[..|ops| - 1], key)
  {}

  /** Deleting an element keeps the order of the others. */
  lemma {:induction false} DropOrdered(lru: seq<Item>, key: Item, ops: seq<CacheOp>)
    requires ByLastUse(lru, ops)
    ensures ByLastUse(DropKey(lru, key), ops)
  {
    if lru != [] && lru[0] != key {
      var r := DropKey(lru[1..], key);
      assert ByLastUse(lru[1..], ops);
      DropOrdered(lru[1..], key, ops);
      forall j | 0 <= j < |r| ensures LastUse(ops, lru[0]) < LastUse(ops, r[j]) {
        DropMember(lru[1..], key, r[j]);
        var i :| 0 <= i < |lru[1..]| && lru[1..][i] == r[j];
        assert lru[i + 1] == r[j];
      }
    }
  }

  lemma {:induction false} DropMember(lru: seq<Item>, key: Item, x: Item)
    requires x in DropKey(lru, key)
    ensures x in lru
  {
    if lru != [] && lru[0] != key && x != lru[0] { DropMember(lru[1..], key, x); }
  }

  /** The list is ordered by last use, the oldest first. */
  lemma {:induction false} RunOrdered(limit: nat, ops: seq<CacheOp>)
    requires limit >= 1
    ensures ByLastUse(RunLru(limit, ops), ops)
  {
    if ops != [] {
      var n := |ops| - 1;
      var key, lru := ops[n].key, RunLru(limit, ops[..n]);
      RunOrdered(limit, ops[..n]);
      RunDistinct(limit, ops[..n]);
      DropOrdered(lru, key, ops[..n]);
      DropKeyEffect(lru, key);
      forall x | x != key ensures LastUse(ops, x) == LastUse(ops[..n], x) < n {
        LastUseOther(ops, x);
        LastUseBound(ops[..n], x);
      }
    }
  }

  /** Without removals, the list is the most recent part of the unbounded recency list. */
  lemma {:induction false} MostRecent(limit: nat, unbounded: nat, ops: seq<CacheOp>)
    requires 1 <= limit <= unbounded && |ops| <= unbounded
    requires forall i | 0 <= i < |ops| :: ops[i].Use?
    ensures var all := RunLru(unbounded, ops);
            |all| <= |ops| && RunLru(limit, ops) == if |all| <= limit then all else all[|all| - limit..]
  {
    Inclusion(limit, unbounded, ops);
    if ops != [] {
      var n := |ops| - 1;
      MostRecent(limit, unbounded, ops[..n]);
      RunDistinct(limit, ops[..n]);
      RunDistinct(unbounded, ops[..n]);
      DropKeyEffect(RunLru(limit, ops[..n]), ops[n].key);
      DropKeyEffect(RunLru(unbounded, ops[..n]), ops[n].key);
    }
  }
}
