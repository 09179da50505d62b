/** File names, listing and clean-up of the WAL directory (internal/wal/encryptor.go). */
module WalDirectory {
  import opened Bytes
  import opened Decimal

  // ---- names ----

  const FILE_EXTENSION := ".wal.enc"

  function Zeros(n: nat): string { seq(n, _ => '0') }

  /** fmt.Sprintf("%06d%s") */
  function FileName(index: nat): string {
    var d := Digits(index);
    (if |d| < 6 then Zeros(6 - |d|) + d else d) + FILE_EXTENSION
  }

  /** fmt.Sscanf(name, "%06d"): at most six digits are read. */
  function ScanIndex(name: string): nat {
    var n := DigitRun(name);
    Value(name[..if n < 6 then n else 6])
  }

  lemma {:induction false} LeadingZeros(n: nat, d: string)
    requires AllDigits(d)
    ensures AllDigits(Zeros(n) + d) && Value(Zeros(n) + d) == Value(d)
  {
    var s := Zeros(n) + d;
    if d == [] {
      if n > 0 {
        assert s[..|s| - 1] == Zeros(n - 1) + [];
        LeadingZeros(n - 1, []);
      } else {
        assert s == [];
      }
    } else {
      assert s[..|s| - 1] == Zeros(n) + d[..|d| - 1];
      LeadingZeros(n, d[..|d| - 1]);
    }
  }

  lemma {:induction false} RunBefore(d: string, rest: string)
    requires AllDigits(d) && (rest != [] ==> !IsDigit(rest[0]))
    ensures DigitRun(d + rest) == |d|
  {
    if d != [] {
      assert (d + rest)[1..] == d[1..] + rest;
      RunBefore(d[1..], rest);
    } else {
      assert d + rest == rest;
    }
  }

  /** A file's index is read back from its name exactly for indices below one million. */
  lemma NameRoundTrip(index: nat)
    ensures ScanIndex(FileName(index)) == index <==> index < 1_000_000
  {
    var d := Digits(index);
    DigitsValue(index);
    DigitsLength(index, 6);
    MillionIsPow();
    var p := if |d| < 6 then Zeros(6 - |d|) + d else d;
    if |d| < 6 { LeadingZeros(6 - |d|, d); }
    RunBefore(p, FILE_EXTENSION);
    assert FileName(index)[..6] == p[..6];
    if |d| <= 6 {
      assert p[..6] == p;
    } else {
      ValueBound(p[..6]);
    }
  }

  lemma MillionIsPow()
    ensures Pow10(6) == 1_000_000
  {
    assert Pow10(1) == 10 && Pow10(2) == 100 && Pow10(3) == 1000;
    assert Pow10(4) == 10_000 && Pow10(5) == 100_000;
  }

  // ---- listing ----

  type Disk = map<nat, seq<byte>>

  lemma {:induction false} LeastExists(keys: set<nat>) returns (m: nat)
    requires keys != {}
    ensures m in keys && forall k | k in keys :: m <= k
    decreases |keys|
  {
    var some :| some in keys;
    var rest := keys - {some};
    m := some;
    if rest != {} {
      var n := LeastExists(rest);
      if n < some { m := n; }
    }
    assert forall k | k in keys :: k == some || k in rest;
  }

  ghost function Least(keys: set<nat>): (m: nat)
    requires keys != {}
    ensures m in keys && forall k | k in keys :: m <= k
  {
    assert exists m :: m in keys && forall k | k in keys :: m <= k by { var m := LeastExists(keys); }
    var m :| m in keys && forall k | k in keys :: m <= k;
    m
  }

  /** The file indices in ascending order. */
  ghost function Listing(keys: set<nat>): (s: seq<nat>)
    ensures |s| == |keys| && forall k :: k in s <==> k in keys
    decreases |keys|
  {
    if keys == {} then [] else [Least(keys)] + Listing(keys - {Least(keys)})
  }

  lemma ListingStep(keys: set<nat>)
    requires keys != {}
    ensures Listing(keys) == [Least(keys)] + Listing(keys - {Least(keys)})
  {}

  ghost predicate Ascending(s: seq<nat>) { forall i, j | 0 <= i < j < |s| :: s[i] < s[j] }

  lemma AscendingTail(s: seq<nat>)
    requires Ascending(s) && s != []
    ensures Ascending(s[1..]) && s == [s[0]] + s[1..]
    ensures forall k | k in s :: s[0] <= k
    ensures forall k :: k in s[1..] <==> k in s && k != s[0]
  {
    assert s == [s[0]] + s[1..];
  }

  /** There is only one ascending listing. */
  lemma {:induction false} ListingUnique(s: seq<nat>, keys: set<nat>)
    requires Ascending(s) && forall k :: k in s <==> k in keys
    ensures s == Listing(keys)
    decreases |s|
  {
    if s == [] {
      assert keys == {};
    } else {
      AscendingTail(s);
      assert s[0] in keys;
      hide Listing, Ascending;
      var m := Least(keys);
      assert m in s && m == s[0];
      ListingStep(keys);
      ListingUnique(s[1..], keys - {m});
    }
  }

  datatype FileInfo = FileInfo(index: nat, size: nat)

  /** The first i entries are in place. */
  ghost predicate Placed(s: seq<FileInfo>, i: nat) {
    forall p, q | 0 <= p < i && p < q < |s| :: s[p].index <= s[q].index
  }

  /** Entry i is the least of those from i up to j. */
  ghost predicate LeastOf(s: seq<FileInfo>, i: nat, j: nat) {
    i < |s| && forall q | i < q < j && q < |s| :: s[i].index <= s[q].index
  }

  /** One comparison of the exchange sort. */
  lemma Exchanged(s: seq<FileInfo>, t: seq<FileInfo>, i: nat, j: nat)
    requires i < j < |s| && Placed(s, i) && LeastOf(s, i, j)
    requires t == if s[i].index > s[j].index then s[i := s[j]][j := s[i]] else s
    ensures Placed(t, i) && LeastOf(t, i, j + 1) && multiset(t) == multiset(s)
  {}

  /** The exchange sort both getWALFiles share. */
  method SortByIndex(files: array<FileInfo>)
    modifies files
    ensures Placed(files[..], files.Length) && multiset(files[..]) == old(multiset(files[..]))
  {
    hide Placed, LeastOf;
    var n := files.Length;
    var i := 0;
    NothingPlaced(files[..]);
    while i < n - 1
      invariant 0 <= i && (n > 0 ==> i <= n - 1)
      invariant Placed(files[..], i) && multiset(files[..]) == old(multiset(files[..]))
    {
      var j := i + 1;
      LeastAlone(files[..], i);
      while j < n
        invariant i < j <= n
        invariant Placed(files[..], i) && LeastOf(files[..], i, j) && multiset(files[..]) == old(multiset(files[..]))
      {
        ghost var s := files[..];
        if files[i].index > files[j].index {
          files[i], files[j] := files[j], files[i];
        }
        Exchanged(s, files[..], i, j);
        j := j + 1;
      }
      PlacedNext(files[..], i);
      i := i + 1;
    }
    AllPlaced(files[..], i);
  }

  lemma NothingPlaced(s: seq<FileInfo>)
    ensures Placed(s, 0)
  {}

  lemma LeastAlone(s: seq<FileInfo>, i: nat)
    requires i < |s|
    ensures LeastOf(s, i, i + 1)
  {}

  lemma PlacedNext(s: seq<FileInfo>, i: nat)
    requires Placed(s, i) && LeastOf(s, i, |s|)
    ensures Placed(s, i + 1)
  {}

  lemma AllPlaced(s: seq<FileInfo>, i: nat)
    requires Placed(s, i) && i >= |s| - 1
    ensures Placed(s, |s|)
  {}

  // ---- clean-up ----

  /** Delete the oldest files until at most n are left. */
  ghost function Cleaned(disk: Disk, n: nat): (r: Disk)
    ensures |r| <= n && (|disk| <= n ==> r == disk)
    decreases |disk|
  {
    if |disk| <= n then disk
    else
      assert disk.Keys != {};
      var m := Least(disk.Keys);
      assert (disk - {m}).Keys == disk.Keys - {m};
      Cleaned(disk - {m}, n)
  }

  lemma CleanedStep(disk: Disk, n: nat)
    requires |disk| > n
    ensures disk.Keys != {} && Cleaned(disk, n) == Cleaned(disk - {Least(disk.Keys)}, n)
  {
    assert disk.Keys != {};
  }

  lemma OldestFirst(left: seq<FileInfo>, files: Disk, n: nat)
    requires Indices(left) == Listing(files.Keys) && |left| == |files| > n
    ensures var rest := files - {left[0].index};
            && Indices(left[1..]) == Listing(rest.Keys) && |left[1..]| == |rest|
            && Cleaned(rest, n) == Cleaned(files, n)
  {
    hide Cleaned, Listing, Least, Indices;
    var rest := files - {left[0].index};
    CleanedStep(files, n);
    ListingStep(files.Keys);
    assert Indices(left)[0] == left[0].index == Least(files.Keys);
    assert rest.Keys == files.Keys - {left[0].index};
    assert Indices(left[1..]) == Indices(left)[1..];
  }

  class Directory {
    var files: Disk

    constructor ()
      ensures files == map[]
    {
      files := map[];
    }

    /** Directory entries in any order, sorted by index. */
    method GetWALFiles() returns (list: array<FileInfo>)
      ensures fresh(list) && list.Length == |files|
      ensures Indices(list[..]) == Listing(files.Keys)
    {
      var pending := files.Keys;
      var entries: seq<FileInfo> := [];
      while pending != {}
        invariant pending <= files.Keys
        invariant |entries| + |pending| == |files.Keys|
        invariant forall k :: k in Indices(entries) <==> k in files.Keys - pending
        decreases |pending|
      {
        var k :| k in pending;
        assert Indices(entries + [FileInfo(k, |files[k]|)]) == Indices(entries) + [k];
        entries := entries + [FileInfo(k, |files[k]|)];
        pending := pending - {k};
      }
      list := new FileInfo[|entries|](i requires 0 <= i < |entries| => entries[i]);
      assert list[..] == entries;
      SortByIndex(list);
      SortedListing(entries, list[..], files.Keys);
    }

    /** With a negative maxFiles every file is deleted and then the empty list is indexed: a panic. */
    method CleanupOldFiles(maxFiles: int) returns (panicked: bool)
      modifies this
      ensures files == Cleaned(old(files), if maxFiles < 0 then 0 else maxFiles) && panicked == (maxFiles < 0)
    {
      hide Cleaned, Listing, Indices;
      var list := GetWALFiles();
      var left := list[..];
      ghost var n: nat := if maxFiles < 0 then 0 else maxFiles;
      while |left| > maxFiles
        invariant Indices(left) == Listing(files.Keys) && |left| == |files|
        invariant Cleaned(files, n) == Cleaned(old(files), n)
        decreases |left|
      {
        if |left| == 0 {
          return true;
        }
        var oldest := left[0];
        OldestFirst(left, files, n);
        files := files - {oldest.index};
        left := left[1..];
      }
      return false;
    }
  }

  ghost function Indices(list: seq<FileInfo>): (s: seq<nat>)
    ensures |s| == |list| && forall i | 0 <= i < |list| :: s[i] == list[i].index
  {
    seq(|list|, i requires 0 <= i < |list| => list[i].index)
  }

  /** A sorted rearrangement of the entries is the listing. */
  lemma SortedListing(entries: seq<FileInfo>, sorted: seq<FileInfo>, keys: set<nat>)
    requires multiset(entries) == multiset(sorted)
    requires Placed(sorted, |sorted|)
    requires |entries| == |keys| && forall k :: k in Indices(entries) <==> k in keys
    ensures Indices(sorted) == Listing(keys)
  {
    var s := Indices(sorted);
    assert |multiset(entries)| == |multiset(sorted)|;
    forall k ensures k in s <==> k in keys {
      if k in s {
        var i :| 0 <= i < |s| && s[i] == k;
        assert sorted[i] in multiset(entries);
        var j :| 0 <= j < |entries| && entries[j] == sorted[i];
        assert Indices(entries)[j] == k;
      }
      if k in keys {
        var i :| 0 <= i < |entries| && Indices(entries)[i] == k;
        assert entries[i] in multiset(sorted);
        var j :| 0 <= j < |sorted| && sorted[j] == entries[i];
        assert s[j] == k;
      }
    }
    CoversOnce(s, keys);
    ListingUnique(s, keys);
  }

  /** A non-descending list of all |keys| keys of length |keys| repeats none. */
  lemma {:induction false} CoversOnce(s: seq<nat>, keys: set<nat>)
    requires |s| == |keys| && (forall k :: k in s <==> k in keys)
    requires forall i, j | 0 <= i < j < |s| :: s[i] <= s[j]
    ensures Ascending(s)
  {
    if |s| > 0 {
      var t := s[1..];
      HeadOnce(s, keys);
      CoversOnce(t, keys - {s[0]});
      forall i, j | 0 <= i < j < |s| ensures s[i] < s[j] {
        assert s[j] == t[j - 1] && s[j] in t;
        if i > 0 { assert s[i] == t[i - 1]; }
      }
    }
  }

  lemma HeadOnce(s: seq<nat>, keys: set<nat>)
    requires s != [] && |s| == |keys| && forall k :: k in s <==> k in keys
    ensures s[0] !in s[1..] && |s[1..]| == |keys - {s[0]}| && forall k :: k in s[1..] <==> k in keys - {s[0]}
  {
    var t := s[1..];
    var rest := set k | k in t;
    assert s == [s[0]] + t;
    assert s[0] in t ==> rest == keys;
    ElementsAtMost(t, rest);
  }

  lemma {:induction false} ElementsAtMost(t: seq<nat>, keys: set<nat>)
    requires forall k :: k in t <==> k in keys
    ensures |keys| <= |t|
  {
    if t == [] {
      assert keys == {};
    } else {
      var rest := set k | k in t[1..];
      ElementsAtMost(t[1..], rest);
      assert t == [t[0]] + t[1..];
      assert keys == rest + {t[0]};
    }
  }
}
