/**
 * What the loops of pkg/bloom/counting.go do to the counter array, as functions of the array's
 * contents and of the list of positions an item hashes to. One item's positions may repeat, so
 * every statement counts multiplicities.
 */
module Counters {
  import opened Bytes
  import opened HashIndices

  type Counters = seq<byte>

  ghost predicate InRange(idx: seq<nat>, m: nat) {
    forall i | 0 <= i < |idx| :: idx[i] < m
  }

  /** How often position j occurs in idx. */
  ghost function Occ(idx: seq<nat>, j: nat): nat { multiset(idx)[j] }

  datatype AddResult = AddResult(counters: Counters, ok: bool)

  /** Add: increment position after position, giving up at the first saturated counter. */
  function AddAt(c: Counters, idx: seq<nat>): (r: AddResult)
    requires InRange(idx, |c|)
    ensures |r.counters| == |c|
    decreases |idx|
  {
    if idx == [] then AddResult(c, true)
    else if c[idx[0]] >= 255 then AddResult(c, false)
    else AddAt(c[idx[0] := c[idx[0]] + 1], idx[1..])
  }

  /** Remove: decrement every position that is not already zero. */
  function RemoveAt(c: Counters, idx: seq<nat>): (r: Counters)
    requires InRange(idx, |c|)
    ensures |r| == |c|
    decreases |idx|
  {
    if idx == [] then c
    else RemoveAt(if c[idx[0]] > 0 then c[idx[0] := c[idx[0]] - 1] else c, idx[1..])
  }

  predicate ContainsAt(c: Counters, idx: seq<nat>)
    requires InRange(idx, |c|)
  {
    forall i | 0 <= i < |idx| :: c[idx[i]] > 0
  }

  lemma OccCons(idx: seq<nat>, j: nat)
    requires idx != []
    ensures Occ(idx, j) == Occ(idx[1..], j) + if j == idx[0] then 1 else 0
  {
    assert idx == [idx[0]] + idx[1..];
  }

  /** An Add succeeds exactly when every counter has room for all of the item's occurrences. */
  lemma {:induction false} AddAtEffect(c: Counters, idx: seq<nat>)
    requires InRange(idx, |c|)
    ensures var r := AddAt(c, idx);
            && (r.ok <==> forall j | 0 <= j < |c| :: c[j] + Occ(idx, j) <= 255)
            && (forall j | 0 <= j < |c| :: c[j] <= r.counters[j] <= c[j] + Occ(idx, j))
            && (r.ok ==> forall j | 0 <= j < |c| :: r.counters[j] == c[j] + Occ(idx, j))
    decreases |idx|
  {
    if idx != [] {
      forall j ensures Occ(idx, j) == Occ(idx[1..], j) + if j == idx[0] then 1 else 0 {
        OccCons(idx, j);
      }
      if c[idx[0]] < 255 {
        AddAtEffect(c[idx[0] := c[idx[0]] + 1], idx[1..]);
      }
    }
  }

  /** A failing Add leaves behind exactly the increments made before the saturated position. */
  lemma {:induction false} AddAtFailure(c: Counters, idx: seq<nat>) returns (p: nat)
    requires InRange(idx, |c|) && !AddAt(c, idx).ok
    ensures p < |idx| && AddAt(c, idx[..p]) == AddResult(AddAt(c, idx).counters, true)
    ensures AddAt(c, idx).counters[idx[p]] == 255
    decreases |idx|
  {
    if c[idx[0]] >= 255 {
      p := 0;
    } else {
      var q := AddAtFailure(c[idx[0] := c[idx[0]] + 1], idx[1..]);
      p := q + 1;
      assert idx[..p][1..] == idx[1..][..q];
    }
  }

  lemma {:induction false} RemoveAtEffect(c: Counters, idx: seq<nat>)
    requires InRange(idx, |c|)
    ensures forall j | 0 <= j < |c| ::
              RemoveAt(c, idx)[j] == if c[j] >= Occ(idx, j) then c[j] - Occ(idx, j) else 0
    decreases |idx|
  {
    if idx != [] {
      forall j ensures Occ(idx, j) == Occ(idx[1..], j) + if j == idx[0] then 1 else 0 {
        OccCons(idx, j);
      }
      RemoveAtEffect(if c[idx[0]] > 0 then c[idx[0] := c[idx[0]] - 1] else c, idx[1..]);
    }
  }

  /** Removing an item right after its successful Add restores every counter. */
  lemma {:induction false} AddThenRemove(c: Counters, idx: seq<nat>)
    requires InRange(idx, |c|) && AddAt(c, idx).ok
    ensures RemoveAt(AddAt(c, idx).counters, idx) == c
  {
    AddAtEffect(c, idx);
    RemoveAtEffect(AddAt(c, idx).counters, idx);
  }

  lemma OccPositive(idx: seq<nat>, i: nat)
    requires i < |idx|
    ensures Occ(idx, idx[i]) >= 1
  {
    assert idx[i] in multiset(idx);
  }

  // ---- batch addition ----

  predicate Saturated(c: Counters, idx: seq<nat>)
    requires InRange(idx, |c|)
  {
    exists i | 0 <= i < |idx| :: c[idx[i]] >= 255
  }

  /** uint8 increment. */
  function Succ8(b: byte): byte { if b == 255 then 0 else b + 1 }

  /** BatchAdd's second pass: unchecked uint8 increments. */
  function Bump(c: Counters, idx: seq<nat>): (r: Counters)
    requires InRange(idx, |c|)
    ensures |r| == |c|
    decreases |idx|
  {
    if idx == [] then c else Bump(c[idx[0] := Succ8(c[idx[0]])], idx[1..])
  }

  /** BatchAdd on one item: check every position first, then increment. */
  function BatchAddAt(c: Counters, idx: seq<nat>): (r: AddResult)
    requires InRange(idx, |c|)
    ensures |r.counters| == |c|
  {
    if Saturated(c, idx) then AddResult(c, false) else AddResult(Bump(c, idx), true)
  }

  lemma {:induction false} BumpEffect(c: Counters, idx: seq<nat>)
    requires InRange(idx, |c|)
    ensures forall j | 0 <= j < |c| :: Bump(c, idx)[j] == (c[j] + Occ(idx, j)) % 256
    decreases |idx|
  {
    if idx != [] {
      forall j ensures Occ(idx, j) == Occ(idx[1..], j) + if j == idx[0] then 1 else 0 {
        OccCons(idx, j);
      }
      BumpEffect(c[idx[0] := Succ8(c[idx[0]])], idx[1..]);
    }
  }

  /** One item of a batch: it is added, modulo 256, exactly when no position is saturated, and otherwise nothing changes. */
  lemma BatchAddAtEffect(c: Counters, idx: seq<nat>)
    requires InRange(idx, |c|)
    ensures var r := BatchAddAt(c, idx);
            && (r.ok <==> forall i | 0 <= i < |idx| :: c[idx[i]] < 255)
            && (r.ok ==> forall j | 0 <= j < |c| :: r.counters[j] == (c[j] + Occ(idx, j)) % 256)
            && (!r.ok ==> r.counters == c)
  {
    BumpEffect(c, idx);
  }

  /**
   * When the first pass lets an item through, the second pass is the single Add exactly when
   * every counter has room for all occurrences; otherwise some counter wraps.
   */
  lemma {:induction false} BatchAddAtIsAddIff(c: Counters, idx: seq<nat>)
    requires InRange(idx, |c|) && !Saturated(c, idx)
    ensures BatchAddAt(c, idx) == AddAt(c, idx)
            <==> forall j | 0 <= j < |c| :: c[j] + Occ(idx, j) <= 255
  {
    BumpEffect(c, idx);
    AddAtEffect(c, idx);
    if AddAt(c, idx).ok {
      assert Bump(c, idx) == AddAt(c, idx).counters;
    }
  }

  lemma {:induction false} DistinctOcc(idx: seq<nat>, j: nat)
    requires Distinct(idx)
    ensures Occ(idx, j) <= 1
  {
    if idx != [] {
      OccCons(idx, j);
      assert Distinct(idx[1..]);
      if j == idx[0] {
        assert j !in idx[1..];
      } else {
        DistinctOcc(idx[1..], j);
      }
    }
  }

  lemma RepeatedOcc(idx: seq<nat>, i: nat, j: nat)
    requires i < j < |idx| && idx[i] == idx[j]
    ensures Occ(idx, idx[i]) >= 2
  {
    assert idx == idx[..j] + idx[j..];
    OccPositive(idx[..j], i);
    OccPositive(idx[j..], 0);
  }

  ghost predicate NeverWraps(idx: seq<nat>, m: nat)
    requires InRange(idx, m)
  {
    forall c: Counters {:trigger BatchAddAt(c, idx)} | |c| == m && !Saturated(c, idx) ::
      BatchAddAt(c, idx) == AddAt(c, idx)
  }

  /** The two-pass BatchAdd is safe in every filter state exactly when positions do not repeat. */
  lemma {:induction false} NeverWrapsIffDistinct(idx: seq<nat>, m: nat)
    requires InRange(idx, m)
    ensures NeverWraps(idx, m) <==> Distinct(idx)
  {
    if Distinct(idx) {
      forall c: Counters | |c| == m && !Saturated(c, idx) ensures BatchAddAt(c, idx) == AddAt(c, idx) {
        forall j | 0 <= j < |c| ensures c[j] + Occ(idx, j) <= 255 {
          DistinctOcc(idx, j);
          if Occ(idx, j) == 1 {
            assert j in multiset(idx);
            var i :| 0 <= i < |idx| && idx[i] == j;
            assert c[idx[i]] < 255;
          }
        }
        BatchAddAtIsAddIff(c, idx);
      }
    } else {
      var i, j :| 0 <= i < j < |idx| && idx[i] == idx[j];
      RepeatedOcc(idx, i, j);
      var c: Counters := seq(m, _ => 254);
      BatchAddAtIsAddIff(c, idx);
      assert c[idx[i]] + Occ(idx, idx[i]) > 255;
      assert BatchAddAt(c, idx) != AddAt(c, idx);
    }
  }
}
