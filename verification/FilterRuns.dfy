/** Whole runs of Add and Remove on one filter: no false negatives. */
module FilterRuns {
  import opened Bytes
  import opened HashIndices
  import opened Counters
  import opened CountingFilter

  datatype Op = Add(item: Item) | Remove(item: Item) | BatchAdd(items: seq<Item>) | BatchRemove(items: seq<Item>)

  /**
   * `live` lists the items successfully added and not yet removed, one entry per addition;
   * `overflowed` records whether some single Add has failed.
   */
  datatype State = State(counters: Counters, live: seq<Item>, overflowed: bool)

  function DropFirst(live: seq<Item>, item: Item): seq<Item> {
    if live == [] then []
    else if live[0] == item then live[1..]
    else [live[0]] + DropFirst(live[1..], item)
  }

  function DropAll(live: seq<Item>, items: seq<Item>): seq<Item> {
    if items == [] then live else DropFirst(DropAll(live, items[..|items| - 1]), items[|items| - 1])
  }

  function Step(hash: Hash32, k: nat, s: State, op: Op): (r: State)
    requires |s.counters| >= 2
    ensures |r.counters| == |s.counters|
  {
    var m := |s.counters|;
    match op
    case Add(item) =>
      var r := AddAt(s.counters, Positions(hash, m, k, item));
      if r.ok then State(r.counters, s.live + [item], s.overflowed)
      else State(r.counters, s.live, true)
    case Remove(item) =>
      State(RemoveAt(s.counters, Positions(hash, m, k, item)), DropFirst(s.live, item), s.overflowed)
    case BatchAdd(items) =>
      var b := BatchAdded(hash, k, s.counters, items);
      State(b.counters, s.live + Chosen(items, b.oks), s.overflowed)
    case BatchRemove(items) =>
      State(RemovedAll(hash, k, s.counters, items), DropAll(s.live, items), s.overflowed)
  }

  function Run(hash: Hash32, m: nat, k: nat, ops: seq<Op>): (r: State)
    requires m >= 2
    ensures |r.counters| == m
  {
    if ops == [] then State(seq(m, _ => 0), [], false)
    else Step(hash, k, Run(hash, m, k, ops[..|ops| - 1]), ops[|ops| - 1])
  }

  /** Each item in turn has a successful, not yet removed addition. */
  ghost predicate Removable(live: seq<Item>, items: seq<Item>) {
    items != [] ==>
      Removable(live, items[..|items| - 1]) && items[|items| - 1] in DropAll(live, items[..|items| - 1])
  }

  /** Removals target live items; the positions of an item added in a batch do not repeat. */
  ghost predicate Proper(hash: Hash32, k: nat, s: State, op: Op)
    requires |s.counters| >= 2
  {
    match op
    case Add(_) => true
    case Remove(item) => item in s.live
    case BatchAdd(items) => forall i | 0 <= i < |items| :: k <= Period(hash(items[i]), |s.counters|)
    case BatchRemove(items) => Removable(s.live, items)
  }

  ghost predicate Legal(hash: Hash32, m: nat, k: nat, ops: seq<Op>)
    requires m >= 2
  {
    forall i | 0 <= i < |ops| :: Proper(hash, k, Run(hash, m, k, ops[..i]), ops[i])
  }

  /** How much of counter j the live items account for. */
  ghost function Demand(hash: Hash32, m: nat, k: nat, live: seq<Item>, j: nat): nat
    requires m >= 2
  {
    if live == [] then 0
    else Occ(Positions(hash, m, k, live[0]), j) + Demand(hash, m, k, live[1..], j)
  }

  lemma {:induction false} DemandSnoc(hash: Hash32, m: nat, k: nat, live: seq<Item>, item: Item, j: nat)
    requires m >= 2
    ensures Demand(hash, m, k, live + [item], j)
         == Demand(hash, m, k, live, j) + Occ(Positions(hash, m, k, item), j)
  {
    if live != [] {
      DemandSnoc(hash, m, k, live[1..], item, j);
      assert (live + [item])[1..] == live[1..] + [item];
    }
  }

  lemma {:induction false} DemandDrop(hash: Hash32, m: nat, k: nat, live: seq<Item>, item: Item, j: nat)
    requires m >= 2 && item in live
    ensures Demand(hash, m, k, live, j)
         == Demand(hash, m, k, DropFirst(live, item), j) + Occ(Positions(hash, m, k, item), j)
  {
    if live[0] != item {
      DemandDrop(hash, m, k, live[1..], item, j);
    }
  }

  /** A position of an item carries at least as much demand as the item has live copies. */
  lemma {:induction false} DemandCovers(hash: Hash32, m: nat, k: nat, live: seq<Item>, item: Item, i: nat)
    requires m >= 2 && i < k
    ensures Demand(hash, m, k, live, Positions(hash, m, k, item)[i]) >= multiset(live)[item]
  {
    if live != [] {
      DemandCovers(hash, m, k, live[1..], item, i);
      assert live == [live[0]] + live[1..];
      if live[0] == item { OccPositive(Positions(hash, m, k, item), i); }
    }
  }

  ghost predicate Accounted(hash: Hash32, k: nat, s: State)
    requires |s.counters| >= 2
  {
    forall j | 0 <= j < |s.counters| ::
      var d := Demand(hash, |s.counters|, k, s.live, j);
      if s.overflowed then s.counters[j] >= d else s.counters[j] == d
  }

  lemma AddAccounted(hash: Hash32, k: nat, s: State, item: Item)
    requires |s.counters| >= 2 && Accounted(hash, k, s)
    ensures Accounted(hash, k, Step(hash, k, s, Add(item)))
  {
    var m := |s.counters|;
    AddAtEffect(s.counters, Positions(hash, m, k, item));
    forall j | 0 <= j < m { DemandSnoc(hash, m, k, s.live, item, j); }
  }

  lemma RemoveAccounted(hash: Hash32, k: nat, s: State, item: Item)
    requires |s.counters| >= 2 && Accounted(hash, k, s) && item in s.live
    ensures Accounted(hash, k, Step(hash, k, s, Remove(item)))
  {
    var m := |s.counters|;
    RemoveAtEffect(s.counters, Positions(hash, m, k, item));
    forall j | 0 <= j < m { DemandDrop(hash, m, k, s.live, item, j); }
  }

  /** Successful single Adds, one after the other. */
  lemma {:induction false} AddsAccounted(hash: Hash32, k: nat, s: State, items: seq<Item>)
    requires |s.counters| >= 2 && Accounted(hash, k, s) && AddedAll(hash, k, s.counters, items).ok
    ensures Accounted(hash, k, State(AddedAll(hash, k, s.counters, items).counters, s.live + items, s.overflowed))
  {
    hide Accounted, Positions, AddAt;
    if items == [] {
      assert s.live + items == s.live;
    } else {
      var n := |items| - 1;
      AddsAccounted(hash, k, s, items[..n]);
      var t := State(AddedAll(hash, k, s.counters, items[..n]).counters, s.live + items[..n], s.overflowed);
      AddAccounted(hash, k, t, items[n]);
      assert s.live + items == s.live + items[..n] + [items[n]];
    }
  }

  lemma {:induction false} RemovesAccounted(hash: Hash32, k: nat, s: State, items: seq<Item>)
    requires |s.counters| >= 2 && Accounted(hash, k, s) && Removable(s.live, items)
    ensures Accounted(hash, k, Step(hash, k, s, BatchRemove(items)))
  {
    hide Accounted, Positions, RemoveAt;
    if items != [] {
      var n := |items| - 1;
      RemovesAccounted(hash, k, s, items[..n]);
      RemoveAccounted(hash, k, Step(hash, k, s, BatchRemove(items[..n])), items[n]);
    }
  }

  lemma StepAccounted(hash: Hash32, k: nat, s: State, op: Op)
    requires |s.counters| >= 2 && Accounted(hash, k, s) && Proper(hash, k, s, op)
    ensures Accounted(hash, k, Step(hash, k, s, op))
  {
    hide Accounted, Positions, AddAt, RemoveAt, BatchAdded, AddedAll, RemovedAll, Chosen;
    match op
    case Add(item) => AddAccounted(hash, k, s, item);
    case Remove(item) => RemoveAccounted(hash, k, s, item);
    case BatchAdd(items) =>
      BatchAddRefinesAdd(hash, k, s.counters, items);
      AddsAccounted(hash, k, s, Chosen(items, BatchAdded(hash, k, s.counters, items).oks));
    case BatchRemove(items) => RemovesAccounted(hash, k, s, items);
  }

  /**
   * In a legal run of single and batch operations every counter is at least the demand of the live
   * items, even after adds that overflowed part-way, and exactly that demand when none did.
   */
  lemma {:induction false} RunAccounted(hash: Hash32, m: nat, k: nat, ops: seq<Op>)
    requires m >= 2 && Legal(hash, m, k, ops)
    ensures Accounted(hash, k, Run(hash, m, k, ops))
  {
    if ops != [] {
      var n := |ops| - 1;
      hide Proper, Step, Accounted;
      forall i | 0 <= i < n ensures Proper(hash, k, Run(hash, m, k, ops[..n][..i]), ops[..n][i]) {
        assert ops[..n][..i] == ops[..i];
      }
      assert ops[..n] == ops[..|ops| - 1] && Proper(hash, k, Run(hash, m, k, ops[..n]), ops[n]);
      RunAccounted(hash, m, k, ops[..n]);
      StepAccounted(hash, k, Run(hash, m, k, ops[..n]), ops[n]);
    }
  }

  /** Every live item is contained, and each of its counters is at least its multiplicity. */
  lemma NoFalseNegatives(hash: Hash32, m: nat, k: nat, ops: seq<Op>, item: Item)
    requires m >= 2 && Legal(hash, m, k, ops)
    ensures var s := Run(hash, m, k, ops);
            var idx := Positions(hash, m, k, item);
            && (item in s.live ==> ContainsAt(s.counters, idx))
            && (forall i | 0 <= i < k :: s.counters[idx[i]] >= multiset(s.live)[item])
  {
    RunAccounted(hash, m, k, ops);
    forall i | 0 <= i < k { DemandCovers(hash, m, k, Run(hash, m, k, ops).live, item, i); }
  }

  /** The position occurs among those of some live item. */
  ghost predicate Claimed(hash: Hash32, m: nat, k: nat, live: seq<Item>, j: nat)
    requires m >= 2
  {
    exists n, p :: 0 <= n < |live| && 0 <= p < k && Positions(hash, m, k, live[n])[p] == j
  }

  lemma {:induction false} ClaimedIff(hash: Hash32, m: nat, k: nat, live: seq<Item>, j: nat)
    requires m >= 2
    ensures Claimed(hash, m, k, live, j) <==> Demand(hash, m, k, live, j) > 0
  {
    hide Positions;
    if live != [] {
      var idx, rest := Positions(hash, m, k, live[0]), live[1..];
      ClaimedIff(hash, m, k, rest, j);
      OccIff(idx, j);
      if p :| 0 <= p < k && idx[p] == j {
        assert Positions(hash, m, k, live[0])[p] == j;
      } else if Claimed(hash, m, k, rest, j) {
        var n, p :| 0 <= n < |rest| && 0 <= p < k && Positions(hash, m, k, rest[n])[p] == j;
        assert live[n + 1] == rest[n];
      } else {
        forall n, p | 0 <= n < |live| && 0 <= p < k ensures Positions(hash, m, k, live[n])[p] != j {
          if n > 0 { assert rest[n - 1] == live[n]; }
        }
      }
    }
  }

  lemma OccIff(idx: seq<nat>, j: nat)
    ensures Occ(idx, j) > 0 <==> exists p :: 0 <= p < |idx| && idx[p] == j
  {
    assert j in multiset(idx) <==> j in idx;
  }

  /**
   * The exact answer. In a legal run in which no single add overflowed, an item is contained exactly when
   * each of its k positions is a position of some live item; and after any run a zero counter at any
   * of them is enough for a no.
   */
  lemma ContainsExact(hash: Hash32, m: nat, k: nat, ops: seq<Op>, item: Item)
    requires m >= 2 && Legal(hash, m, k, ops)
    ensures var s := Run(hash, m, k, ops);
            var idx := Positions(hash, m, k, item);
            && (!s.overflowed ==>
                  (ContainsAt(s.counters, idx) <==> forall i | 0 <= i < k :: Claimed(hash, m, k, s.live, idx[i])))
            && ((exists i | 0 <= i < k :: s.counters[idx[i]] == 0) ==> !ContainsAt(s.counters, idx))
  {
    RunAccounted(hash, m, k, ops);
    hide Run, Legal, Positions, Claimed;
    var s, idx := Run(hash, m, k, ops), Positions(hash, m, k, item);
    forall i | 0 <= i < k
      ensures Claimed(hash, m, k, s.live, idx[i]) <==> Demand(hash, m, k, s.live, idx[i]) > 0
    {
      ClaimedIff(hash, m, k, s.live, idx[i]);
    }
    if !s.overflowed {
      assert forall i | 0 <= i < k :: s.counters[idx[i]] == Demand(hash, m, k, s.live, idx[i]);
    }
  }

  /** So whatever Count returns is at least the item's multiplicity. */
  lemma CountCovers(hash: Hash32, m: nat, k: nat, ops: seq<Op>, item: Item, n: byte)
    requires m >= 2 && k >= 1 && Legal(hash, m, k, ops)
    requires IsCount(n, Run(hash, m, k, ops).counters, Positions(hash, m, k, item))
    ensures n >= multiset(Run(hash, m, k, ops).live)[item]
  {
    hide Run, Legal, Positions;
    NoFalseNegatives(hash, m, k, ops, item);
    var s, idx := Run(hash, m, k, ops), Positions(hash, m, k, item);
    assert s.counters[idx[0]] >= multiset(s.live)[item];
  }

  // ---- with repeating positions the property fails ----

  /** The positions of an item that hashes to 1 in a filter of four counters. */
  function Pattern(): seq<nat> { [1, 3, 1] }

  /** How often each counter is met. */
  function Times(j: nat): nat { if j == 1 then 2 else if j == 3 then 1 else 0 }

  lemma PatternTimes()
    ensures |Pattern()| == 3 && Pattern()[0] == 1 && InRange(Pattern(), 4)
    ensures forall j: nat :: Occ(Pattern(), j) == Times(j)
  {
    assert multiset([1, 3, 1]) == multiset{1, 3, 1};
  }

  lemma IndexOne(i: nat)
    requires i < 3
    ensures Index(1, 4, i) == Pattern()[i]
  {
    assert SecondHash(1, 4) == 2;
  }

  lemma Repeating(hash: Hash32, item: Item)
    requires hash(item) == 1
    ensures Positions(hash, 4, 3, item) == Pattern()
  {
    hide Index;
    IndexOne(0);
    IndexOne(1);
    IndexOne(2);
  }

  /** The counters after n additions. */
  ghost predicate Filled(c: Counters, n: nat) { |c| == 4 && c[0] == 0 && c[1] == 2 * n && c[2] == 0 && c[3] == n }

  lemma AddRepeating(c: Counters, n: nat)
    requires Filled(c, n) && n < 127
    ensures InRange(Pattern(), |c|) && AddAt(c, Pattern()).ok && Filled(AddAt(c, Pattern()).counters, n + 1)
  {
    hide AddAt, Occ, Pattern;
    PatternTimes();
    AddAtEffect(c, Pattern());
  }

  function Adds(item: Item, n: nat): seq<Op> {
    if n == 0 then [] else Adds(item, n - 1) + [Add(item)]
  }

  function Copies(item: Item, n: nat): seq<Item> {
    if n == 0 then [] else Copies(item, n - 1) + [item]
  }

  lemma {:induction false} RunAdds(hash: Hash32, item: Item, n: nat)
    requires hash(item) == 1 && n <= 127
    ensures var s := Run(hash, 4, 3, Adds(item, n));
            Filled(s.counters, n) && s.live == Copies(item, n) && !s.overflowed
  {
    hide AddAt, Positions, Pattern;
    if n > 0 {
      hide Filled;
      RunAdds(hash, item, n - 1);
      var ops := Adds(item, n);
      assert ops[..|ops| - 1] == Adds(item, n - 1);
      Repeating(hash, item);
      AddRepeating(Run(hash, 4, 3, Adds(item, n - 1)).counters, n - 1);
    }
  }

  lemma {:induction false} OnlyAdds(item: Item, n: nat)
    ensures forall i | 0 <= i < |Adds(item, n)| :: Adds(item, n)[i].Add?
  {
    if n > 0 { OnlyAdds(item, n - 1); }
  }

  /**
   * After 127 additions a batch addition of the same item reports success, wraps the counter the
   * item meets twice, and the item, live 128 times, is no longer contained.
   */
  lemma BatchAddLosesItem(hash: Hash32, item: Item)
    requires hash(item) == 1
    ensures Legal(hash, 4, 3, Adds(item, 127)) && 3 > Period(hash(item), 4)
    ensures var s := Run(hash, 4, 3, Adds(item, 127));
            var t := Step(hash, 3, s, BatchAdd([item]));
            && s.live == Copies(item, 127) && t.live == Copies(item, 128)
            && !ContainsAt(t.counters, Positions(hash, 4, 3, item))
  {
    hide Run, Adds, Copies, Positions, Period, Pattern, Filled, BatchAddAt, BatchAdded, Chosen;
    OnlyAdds(item, 127);
    RunAdds(hash, item, 127);
    Repeating(hash, item);
    RepeatsBeyondPeriod(hash, item);
    PatternTimes();
    var s := Run(hash, 4, 3, Adds(item, 127));
    WrapRepeating(s.counters);
    OneInBatch(hash, 3, s.counters, item);
    CopiesSnoc(item, 127);
    var t := Step(hash, 3, s, BatchAdd([item]));
    assert t.counters[Pattern()[0]] == 0;
  }

  lemma CopiesSnoc(item: Item, n: nat)
    ensures Copies(item, n + 1) == Copies(item, n) + [item]
  {}

  lemma RepeatsBeyondPeriod(hash: Hash32, item: Item)
    requires hash(item) == 1
    ensures 3 > Period(hash(item), 4)
  {
    hide Period, Index;
    DistinctIff(1, 4, 3);
    IndexOne(0);
    IndexOne(2);
    assert Pattern()[0] == Pattern()[2];
    assert Indices(1, 4, 3)[0] == Indices(1, 4, 3)[2];
  }

  lemma WrapRepeating(c: Counters)
    requires Filled(c, 127)
    ensures InRange(Pattern(), |c|) && BatchAddAt(c, Pattern()).ok && BatchAddAt(c, Pattern()).counters[1] == 0
  {
    PatternBelow(c);
    hide Bump, Occ, Pattern;
    PatternTimes();
    BumpEffect(c, Pattern());
  }

  lemma PatternBelow(c: Counters)
    requires Filled(c, 127)
    ensures InRange(Pattern(), |c|) && !Saturated(c, Pattern())
  {}

  lemma OneInBatch(hash: Hash32, k: nat, c: Counters, item: Item)
    requires |c| >= 2
    ensures var r := BatchAddAt(c, Positions(hash, |c|, k, item));
            var b := BatchAdded(hash, k, c, [item]);
            b.counters == r.counters && b.oks == [r.ok] && Chosen([item], b.oks) == if r.ok then [item] else []
  {
    hide BatchAddAt, Positions;
    assert [item][..0] == [];
    BatchAddSnoc(hash, k, c, [item], 0);
    assert [item][..1] == [item];
    var oks := BatchAdded(hash, k, c, [item]).oks;
    assert oks[..0] == [];
  }
}
