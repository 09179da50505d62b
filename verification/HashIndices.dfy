/** Double hashing of an item to its counter positions (pkg/bloom/hash.go). */
module HashIndices {
  import opened Bytes
  import Gcd

  type Item = seq<byte>

  /** murmur3.Sum32; every result below holds whatever function it is. */
  type Hash32 = Item -> u32

  const WORD64: int := 0x1_0000_0000_0000_0000

  /** uint64 arithmetic. */
  function Wrap64(x: nat): nat { x % WORD64 }

  function SecondHash(h1: u32, m: nat): nat
    requires m >= 2
  {
    1 + h1 % (m - 1)
  }

  /** The i-th position, in unbounded arithmetic. */
  function Index(h1: u32, m: nat, i: nat): (r: nat)
    requires m >= 2
    ensures r < m
  {
    (h1 + i * SecondHash(h1, m)) % m
  }

  function Indices(h1: u32, m: nat, k: nat): (r: seq<nat>)
    requires m >= 2
    ensures |r| == k
    ensures forall i | 0 <= i < k :: r[i] == Index(h1, m, i) < m
  {
    seq(k, i requires 0 <= i => Index(h1, m, i))
  }

  ghost predicate Distinct<T>(s: seq<T>) {
    forall i, j | 0 <= i < j < |s| :: s[i] != s[j]
  }

  /** What the i-th position is, in the numbers of the code. */
  lemma IndexFormula(h1: u32, m: nat, k: nat, i: nat)
    requires m >= 2 && i < k
    ensures Indices(h1, m, k)[i] == (h1 + i * (1 + h1 % (m - 1))) % m
  {}

  /** The uint64 sum and product never wrap, whatever m is, and every position is below m. */
  lemma NoWrap(h1: u32, m: nat, k: nat, i: nat)
    requires m >= 2 && i < k <= 0x1_0000_0000
    ensures Wrap64(i * SecondHash(h1, m)) == i * SecondHash(h1, m)
    ensures Wrap64(h1 + i * SecondHash(h1, m)) == h1 + i * SecondHash(h1, m)
    ensures Wrap64(h1 + Wrap64(i * SecondHash(h1, m))) % m == Index(h1, m, i) < m
  {
    var h2 := SecondHash(h1, m);
    assert h2 <= 0x1_0000_0000 by {
      var q: int := h1 / (m - 1);
      if h1 < m - 1 { Gcd.Quotient(m - 1, h1, 0, h1); }
    }
    ProductBound(i, h2);
  }

  lemma ProductBound(i: nat, h: nat)
    requires i < 0x1_0000_0000 && h <= 0x1_0000_0000
    ensures i * h <= 0xFFFF_FFFF * 0x1_0000_0000
  {
    assert i * h <= 0xFFFF_FFFF * h;
  }

  method GetHashIndices(hash: Hash32, item: Item, m: nat, k: nat) returns (indices: array<nat>)
    requires m >= 2 && k <= 0x1_0000_0000
    ensures fresh(indices)
    ensures indices[..] == Indices(hash(item), m, k)
    ensures forall i | 0 <= i < k :: indices[i] == (hash(item) + i * (1 + hash(item) % (m - 1))) % m
  {
    indices := new nat[k];
    var h1 := hash(item);
    var h2 := SecondHash(h1, m);
    FillIndices(indices, h1, h2, m, k);
    assert indices[..] == indices[..k];
    forall i | 0 <= i < k ensures indices[i] == (hash(item) + i * (1 + hash(item) % (m - 1))) % m {
      IndexFormula(h1, m, k, i);
    }
  }

  /** The loop both index functions share. */
  method FillIndices(indices: array<nat>, h1: u32, h2: nat, m: nat, k: nat)
    requires m >= 2 && k <= 0x1_0000_0000 && k <= indices.Length
    requires h2 == SecondHash(h1, m)
    modifies indices
    ensures indices[..k] == Indices(h1, m, k)
    ensures indices[k..] == old(indices[k..])
  {
    for i := 0 to k
      invariant forall j | 0 <= j < i :: indices[j] == Index(h1, m, j)
      invariant indices[k..] == old(indices[k..])
    {
      NoWrap(h1, m, k, i);
      indices[i] := Wrap64(h1 + Wrap64(i * h2)) % m;
    }
  }

  /**
   * The pooled variant. `pooled` is the backing array of the slice taken from the pool, its
   * length the slice's capacity, its contents whatever the previous user left there.
   */
  method GetHashIndicesPooled(pooled: array<nat>, hash: Hash32, item: Item, m: nat, k: nat)
    returns (indices: array<nat>)
    requires m >= 2 && k <= 0x1_0000_0000
    modifies pooled
    ensures indices == pooled || fresh(indices)
    ensures indices == pooled <==> k <= pooled.Length
    ensures k <= indices.Length && indices[..k] == Indices(hash(item), m, k)
  {
    if pooled.Length < k {
      indices := new nat[k];
    } else {
      indices := pooled;
    }
    var h1 := hash(item);
    FillIndices(indices, h1, SecondHash(h1, m), m, k);
  }

  lemma Collision(h1: u32, m: nat, i: nat, j: nat)
    requires m >= 2 && i <= j
    ensures Index(h1, m, i) == Index(h1, m, j)
            <==> ((j - i) * SecondHash(h1, m)) % m == 0
  {
    var h2 := SecondHash(h1, m);
    assert (j - i) * h2 == j * h2 - i * h2;
    assert i * h2 <= j * h2 by { assert (j - i) * h2 >= 0; }
    Gcd.SameResidue(h1 + i * h2, h1 + j * h2, m);
  }

  /** How many positions an item has before they repeat. */
  function Period(h1: u32, m: nat): nat
    requires m >= 2
  {
    Gcd.MultipleIff(1, SecondHash(h1, m), m);
    m / Gcd.Gcd(SecondHash(h1, m), m)
  }

  lemma CollisionPeriod(h1: u32, m: nat, i: nat, j: nat)
    requires m >= 2 && i <= j
    ensures Period(h1, m) > 0
    ensures Index(h1, m, i) == Index(h1, m, j) <==> (j - i) % Period(h1, m) == 0
  {
    Collision(h1, m, i, j);
    Gcd.MultipleIff(j - i, SecondHash(h1, m), m);
  }

  /** An item's k positions are pairwise distinct exactly when k <= m / gcd(h2, m). */
  lemma DistinctIff(h1: u32, m: nat, k: nat)
    requires m >= 2
    ensures Distinct(Indices(h1, m, k)) <==> k <= Period(h1, m)
  {
    var n := Period(h1, m);
    var s := Indices(h1, m, k);
    CollisionPeriod(h1, m, 0, n);
    Gcd.Quotient(n, n, 1, 0);
    if n < k {
      assert s[0] == s[n];
    } else {
      forall i, j | 0 <= i < j < k ensures s[i] != s[j] {
        CollisionPeriod(h1, m, i, j);
        Gcd.Quotient(n, j - i, 0, j - i);
      }
    }
  }

  lemma PrimeSizeDistinct(h1: u32, m: nat, k: nat)
    requires Gcd.IsPrime(m) && k <= m
    ensures Distinct(Indices(h1, m, k))
  {
    if m > 2 { assert h1 % (m - 1) < m - 1; }
    Gcd.PrimeGcd(SecondHash(h1, m), m);
    DistinctIff(h1, m, k);
  }
}
