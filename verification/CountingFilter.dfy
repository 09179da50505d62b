/** The counting Bloom filter (pkg/bloom/counting.go). */
module CountingFilter {
  import opened Bytes
  import opened HashIndices
  import opened Counters

  const OVERFLOW := "counter overflow: maximum value 255 reached"

  /** The entry BatchAdd reports for an item: empty exactly for a success. */
  function Message(ok: bool): (r: string)
    ensures r == "" <==> ok
  {
    if ok then "" else OVERFLOW
  }

  /** The abstract value of a filter. */
  datatype Filter = Filter(m: nat, k: nat, counters: Counters) {
    /** What every constructor establishes. */
    ghost predicate Valid() { |counters| == m }

    /** What hashing needs: m - 1 is a divisor. */
    ghost predicate Usable() { Valid() && m >= 2 && k <= 0x1_0000_0000 }
  }

  /** The positions of an item. */
  function Positions(hash: Hash32, m: nat, k: nat, item: Item): (r: seq<nat>)
    requires m >= 2
    ensures |r| == k && InRange(r, m)
  {
    Indices(hash(item), m, k)
  }

  datatype BatchResult = BatchResult(counters: Counters, oks: seq<bool>, successes: nat)

  /** BatchAdd: item after item, each with the two-pass addition. */
  function BatchAdded(hash: Hash32, k: nat, c: Counters, items: seq<Item>): (r: BatchResult)
    requires |c| >= 2
    ensures |r.counters| == |c| && |r.oks| == |items|
  {
    if items == [] then BatchResult(c, [], 0)
    else
      var p := BatchAdded(hash, k, c, items[..|items| - 1]);
      var r := BatchAddAt(p.counters, Positions(hash, |c|, k, items[|items| - 1]));
      BatchResult(r.counters, p.oks + [r.ok], p.successes + if r.ok then 1 else 0)
  }

  /** BatchRemove: single removals one after the other. */
  function RemovedAll(hash: Hash32, k: nat, c: Counters, items: seq<Item>): (r: Counters)
    requires |c| >= 2
    ensures |r| == |c|
  {
    if items == [] then c
    else RemoveAt(RemovedAll(hash, k, c, items[..|items| - 1]), Positions(hash, |c|, k, items[|items| - 1]))
  }

  /** Single Adds one after the other. */
  function AddedAll(hash: Hash32, k: nat, c: Counters, items: seq<Item>): (r: AddResult)
    requires |c| >= 2
    ensures |r.counters| == |c|
  {
    if items == [] then AddResult(c, true)
    else
      var p := AddedAll(hash, k, c, items[..|items| - 1]);
      var r := AddAt(p.counters, Positions(hash, |c|, k, items[|items| - 1]));
      AddResult(r.counters, p.ok && r.ok)
  }

  /** The items whose flag is set, in order. */
  function Chosen(items: seq<Item>, oks: seq<bool>): (r: seq<Item>)
    requires |items| == |oks|
  {
    if items == [] then []
    else
      var n := |items| - 1;
      Chosen(items[..n], oks[..n]) + if oks[n] then [items[n]] else []
  }

  /** One more item at the end of a batch. */
  lemma BatchAddSnoc(hash: Hash32, k: nat, c: Counters, items: seq<Item>, n: nat)
    requires |c| >= 2 && n < |items|
    ensures var p := BatchAdded(hash, k, c, items[..n]);
            var r := BatchAddAt(p.counters, Positions(hash, |c|, k, items[n]));
            BatchAdded(hash, k, c, items[..n + 1])
            == BatchResult(r.counters, p.oks + [r.ok], p.successes + if r.ok then 1 else 0)
  {
    assert items[..n + 1][..n] == items[..n];
  }

  /** Item n of a batch succeeds exactly when none of its positions is saturated after the items before it. */
  lemma {:induction false} BatchSuccessIff(hash: Hash32, k: nat, c: Counters, items: seq<Item>, n: nat)
    requires |c| >= 2 && n < |items|
    ensures var before, idx := BatchAdded(hash, k, c, items[..n]).counters, Positions(hash, |c|, k, items[n]);
            BatchAdded(hash, k, c, items).oks[n] <==> forall i | 0 <= i < k :: before[idx[i]] < 255
    decreases |items|
  {
    hide Positions, BatchAddAt;
    var last := |items| - 1;
    if n < last {
      BatchSuccessIff(hash, k, c, items[..last], n);
      assert items[..last][..n] == items[..n];
    } else {
      BatchAddAtEffect(BatchAdded(hash, k, c, items[..n]).counters, Positions(hash, |c|, k, items[n]));
    }
  }

  /**
   * With non-repeating positions a batch is all-or-nothing per item: its final counters are those
   * of single Adds, all successful, over exactly the items reported as successes.
   */
  lemma {:induction false} BatchAddRefinesAdd(hash: Hash32, k: nat, c: Counters, items: seq<Item>)
    requires |c| >= 2
    requires forall i | 0 <= i < |items| :: k <= Period(hash(items[i]), |c|)
    ensures var b := BatchAdded(hash, k, c, items);
            && AddedAll(hash, k, c, Chosen(items, b.oks)) == AddResult(b.counters, true)
            && b.successes == |Chosen(items, b.oks)|
  {
    if items != [] {
      var n := |items| - 1;
      BatchAddRefinesAdd(hash, k, c, items[..n]);
      var p := BatchAdded(hash, k, c, items[..n]);
      var b := BatchAdded(hash, k, c, items);
      assert b.oks[..n] == p.oks;
      if b.oks[n] {
        var idx := Positions(hash, |c|, k, items[n]);
        DistinctIff(hash(items[n]), |c|, k);
        NeverWrapsIffDistinct(idx, |c|);
        assert BatchAddAt(p.counters, idx) == AddAt(p.counters, idx);
        var all := Chosen(items, b.oks);
        assert all[..|all| - 1] == Chosen(items[..n], p.oks);
      } else {
        assert Chosen(items, b.oks) == Chosen(items[..n], p.oks);
      }
    }
  }

  /** The least counter over the positions, and 255 when there are none. */
  ghost predicate IsCount(n: byte, c: Counters, idx: seq<nat>)
    requires InRange(idx, |c|)
  {
    (forall i | 0 <= i < |idx| :: n <= c[idx[i]]) && (n == 255 || exists i | 0 <= i < |idx| :: n == c[idx[i]])
  }

  class CountingBloomFilter {
    const m: nat
    const k: nat
    const hash: Hash32
    const counters: array<byte>

    ghost predicate Valid() { counters.Length == m }

    ghost predicate Usable() { Valid() && m >= 2 && k <= 0x1_0000_0000 }

    ghost function Value(): Filter
      reads counters
    {
      Filter(m, k, counters[..])
    }

    constructor (m: nat, k: nat, hash: Hash32)
      ensures this.hash == hash && Valid() && fresh(counters)
      ensures Value() == Filter(m, k, seq(m, _ => 0))
    {
      this.m, this.k, this.hash := m, k, hash;
      counters := new byte[m](_ => 0);
    }

    /** The increment loop of Add. */
    method Increment(idx: seq<nat>) returns (ok: bool)
      requires Valid() && InRange(idx, m)
      modifies counters
      ensures AddResult(counters[..], ok) == AddAt(old(counters[..]), idx)
    {
      for n := 0 to |idx|
        invariant AddAt(old(counters[..]), idx) == AddAt(counters[..], idx[n..])
      {
        if counters[idx[n]] >= 255 {
          return false;
        }
        counters[idx[n]] := counters[idx[n]] + 1;
        assert idx[n..][1..] == idx[n + 1..];
      }
      return true;
    }

    /** The decrement loop of Remove. */
    method Decrement(idx: seq<nat>)
      requires Valid() && InRange(idx, m)
      modifies counters
      ensures counters[..] == RemoveAt(old(counters[..]), idx)
    {
      for n := 0 to |idx|
        invariant RemoveAt(old(counters[..]), idx) == RemoveAt(counters[..], idx[n..])
      {
        if counters[idx[n]] > 0 {
          counters[idx[n]] := counters[idx[n]] - 1;
        }
        assert idx[n..][1..] == idx[n + 1..];
      }
    }

    /** The early-exit loop of Contains. */
    method AllNonZero(idx: seq<nat>) returns (found: bool)
      requires Valid() && InRange(idx, m)
      ensures found == ContainsAt(counters[..], idx)
    {
      for n := 0 to |idx|
        invariant forall i | 0 <= i < n :: counters[idx[i]] > 0
      {
        if counters[idx[n]] == 0 {
          return false;
        }
      }
      return true;
    }

    method Add(item: Item) returns (ok: bool)
      requires Usable()
      modifies counters
      ensures AddResult(counters[..], ok) == AddAt(old(counters[..]), Positions(hash, m, k, item))
    {
      var indices := GetHashIndices(hash, item, m, k);
      ok := Increment(indices[..]);
    }

    method Remove(item: Item)
      requires Usable()
      modifies counters
      ensures counters[..] == RemoveAt(old(counters[..]), Positions(hash, m, k, item))
    {
      var indices := GetHashIndices(hash, item, m, k);
      Decrement(indices[..]);
    }

    method Contains(item: Item) returns (found: bool)
      requires Usable()
      ensures found == ContainsAt(counters[..], Positions(hash, m, k, item))
      ensures found <==> forall i | 0 <= i < k :: counters[Positions(hash, m, k, item)[i]] > 0
    {
      var indices := GetHashIndices(hash, item, m, k);
      found := AllNonZero(indices[..]);
    }

    method Count(item: Item) returns (minCount: byte)
      requires Usable()
      ensures IsCount(minCount, counters[..], Positions(hash, m, k, item))
    {
      var indices := GetHashIndices(hash, item, m, k);
      minCount := 255;
      for n := 0 to k
        invariant forall i | 0 <= i < n :: minCount <= counters[indices[i]]
        invariant minCount == 255 || exists i | 0 <= i < n :: minCount == counters[indices[i]]
      {
        if counters[indices[n]] < minCount {
          minCount := counters[indices[n]];
        }
      }
    }

    /** One round of BatchAdd's outer loop: a checking pass, then an unchecked increment pass. */
    method BatchAddOne(item: Item) returns (ok: bool)
      requires Usable()
      modifies counters
      ensures AddResult(counters[..], ok) == BatchAddAt(old(counters[..]), Positions(hash, m, k, item))
    {
      var indices := GetHashIndices(hash, item, m, k);
      var idx := indices[..];
      var hasOverflow := false;
      for n := 0 to |idx|
        invariant !hasOverflow && forall i | 0 <= i < n :: counters[idx[i]] < 255
      {
        if counters[idx[n]] >= 255 {
          hasOverflow := true;
          break;
        }
      }
      if !hasOverflow {
        for n := 0 to |idx|
          invariant Bump(old(counters[..]), idx) == Bump(counters[..], idx[n..])
        {
          counters[idx[n]] := Succ8(counters[idx[n]]);
          assert idx[n..][1..] == idx[n + 1..];
        }
      }
      return !hasOverflow;
    }

    method BatchAdd(items: seq<Item>) returns (successCount: nat, failureCount: nat, errors: seq<string>)
      requires Usable()
      modifies counters
      ensures var b := BatchAdded(hash, k, old(counters[..]), items);
              && counters[..] == b.counters
              && |errors| == |items| && (forall i | 0 <= i < |items| :: errors[i] == Message(b.oks[i]))
              && successCount == b.successes
      ensures successCount + failureCount == |items|
    {
      errors := [];
      successCount, failureCount := 0, 0;
      ghost var c := counters[..];
      ghost var b := BatchAdded(hash, k, c, items[..0]);
      for n := 0 to |items|
        invariant b == BatchAdded(hash, k, c, items[..n])
        invariant counters[..] == b.counters
        invariant |errors| == n && forall i | 0 <= i < n :: errors[i] == Message(b.oks[i])
        invariant successCount == b.successes
        invariant successCount + failureCount == n
      {
        BatchAddSnoc(hash, k, c, items, n);
        var ok := BatchAddOne(items[n]);
        errors := errors + [Message(ok)];
        if ok {
          successCount := successCount + 1;
        } else {
          failureCount := failureCount + 1;
        }
        b := BatchAdded(hash, k, c, items[..n + 1]);
      }
      assert items[..|items|] == items;
    }

    method BatchRemove(items: seq<Item>) returns (removed: nat)
      requires Usable()
      modifies counters
      ensures removed == |items|
      ensures counters[..] == RemovedAll(hash, k, old(counters[..]), items)
    {
      removed := 0;
      for n := 0 to |items|
        invariant removed == n
        invariant counters[..] == RemovedAll(hash, k, old(counters[..]), items[..n])
      {
        var indices := GetHashIndices(hash, items[n], m, k);
        assert items[..n + 1][..n] == items[..n];
        Decrement(indices[..]);
        removed := removed + 1;
      }
      assert items[..|items|] == items;
    }

    method BatchContains(items: seq<Item>) returns (results: array<bool>)
      requires Usable()
      ensures fresh(results) && results.Length == |items|
      ensures forall i | 0 <= i < |items| ::
                results[i] == ContainsAt(counters[..], Positions(hash, m, k, items[i]))
      ensures forall i | 0 <= i < |items| ::
                results[i] <==> forall p | 0 <= p < k :: counters[Positions(hash, m, k, items[i])[p]] > 0
    {
      results := new bool[|items|](_ => false);
      for n := 0 to |items|
        invariant forall i | 0 <= i < n ::
                    results[i] == ContainsAt(counters[..], Positions(hash, m, k, items[i]))
      {
        var indices := GetHashIndices(hash, items[n], m, k);
        var found := AllNonZero(indices[..]);
        results[n] := found;
      }
    }
  }
}
