/**
  A partition of a dump (src/partition/mod.rs) and the ordering that
  sfdisk-sort imposes on a disk's partitions: a stable sort by start block,
  as `Vec::sort_by(|a, b| a.start_block.cmp(&b.start_block))` does.

  The sort is specified by `SortByStartBlock`, an insertion sort on
  sequences. Its lemmas show that the result is ordered by start block, is a
  permutation of the input, and keeps partitions with equal start blocks in
  their original order; `StableSortUnique` shows that these three properties
  leave no choice, so any stable sort (Rust's included) computes exactly
  `SortByStartBlock`. `SortInPlace` sorts an array and is proved to leave
  that result behind.
 */
module Partitions {
  import opened Text

  /**
    `designation` and `start_block` drive the reassignment; `name` and
    `extras` are kept to write the dump back.
   */
  datatype Partition = Partition(designation: Usize, startBlock: Usize, name: string, extras: seq<string>)

  /** `#[derive(Default)]`: zero numbers, empty name, no extras. */
  function DefaultPartition(): Partition {
    Partition(0, 0, "", [])
  }

  /** `Partition::new_from_start_block`: the default partition with the given start block. */
  function NewFromStartBlock(startBlock: Usize): (p: Partition)
    ensures p.startBlock == startBlock
    ensures p.designation == 0 && p.name == [] && p.extras == []
  {
    DefaultPartition().(startBlock := startBlock)
  }

  // ---------------------------------------------------------------------------
  // Specification of the sort
  // ---------------------------------------------------------------------------

  /** Ordered by start block, ties allowed. */
  predicate SortedByStart(s: seq<Partition>) {
    forall i, j | 0 <= i < j < |s| :: s[i].startBlock <= s[j].startBlock
  }

  /** The partitions of `s` whose start block is `k`, in their order in `s`. */
  function WithStart(s: seq<Partition>, k: Usize): seq<Partition> {
    if s == [] then [] else (if s[0].startBlock == k then [s[0]] else []) + WithStart(s[1..], k)
  }

  /** Stable: every group of equal start blocks keeps its order. */
  predicate SameGroups(s: seq<Partition>, t: seq<Partition>) {
    forall k: Usize :: WithStart(s, k) == WithStart(t, k)
  }

  /** Insert `x` in front of the first partition that does not start before it. */
  function InsertByStart(x: Partition, t: seq<Partition>): (r: seq<Partition>)
    ensures |r| == |t| + 1
  {
    if t == [] || x.startBlock <= t[0].startBlock then [x] + t
    else [t[0]] + InsertByStart(x, t[1..])
  }

  /** Insertion sort from the back: each partition goes in front of the equal ones behind it. */
  function SortByStartBlock(s: seq<Partition>): (r: seq<Partition>)
    ensures |r| == |s|
  {
    if s == [] then [] else InsertByStart(s[0], SortByStartBlock(s[1..]))
  }

  // ---------------------------------------------------------------------------
  // Permutation
  // ---------------------------------------------------------------------------

  lemma {:induction false} InsertByStartPermutes(x: Partition, t: seq<Partition>)
    ensures multiset(InsertByStart(x, t)) == multiset([x] + t)
  {
    if t != [] && x.startBlock > t[0].startBlock {
      InsertByStartPermutes(x, t[1..]);
      assert t == [t[0]] + t[1..];
    }
  }

  /** The sort neither loses, duplicates nor invents a partition. */
  lemma {:induction false} SortByStartBlockPermutes(s: seq<Partition>)
    ensures multiset(SortByStartBlock(s)) == multiset(s)
  {
    if s != [] {
      SortByStartBlockPermutes(s[1..]);
      InsertByStartPermutes(s[0], SortByStartBlock(s[1..]));
      assert s == [s[0]] + s[1..];
    }
  }

  // ---------------------------------------------------------------------------
  // Order
  // ---------------------------------------------------------------------------

  lemma {:induction false} InsertByStartSorted(x: Partition, t: seq<Partition>)
    requires SortedByStart(t)
    ensures SortedByStart(InsertByStart(x, t))
  {
    if t != [] && x.startBlock > t[0].startBlock {
      InsertByStartSorted(x, t[1..]);
      InsertByStartLowerBound(x, t[1..], t[0].startBlock);
    }
  }

  /** A bound below `x` and every partition of `t` is a bound below their merge. */
  lemma {:induction false} InsertByStartLowerBound(x: Partition, t: seq<Partition>, lo: int)
    requires lo <= x.startBlock
    requires forall m | 0 <= m < |t| :: lo <= t[m].startBlock
    ensures forall m | 0 <= m < |t| + 1 :: lo <= InsertByStart(x, t)[m].startBlock
  {
    if t != [] && x.startBlock > t[0].startBlock {
      InsertByStartLowerBound(x, t[1..], lo);
    }
  }

  /** The sort orders partitions by start block. */
  lemma {:induction false} SortByStartBlockSorted(s: seq<Partition>)
    ensures SortedByStart(SortByStartBlock(s))
  {
    if s != [] {
      SortByStartBlockSorted(s[1..]);
      InsertByStartSorted(s[0], SortByStartBlock(s[1..]));
    }
  }

  // ---------------------------------------------------------------------------
  // Stability
  // ---------------------------------------------------------------------------

  lemma WithStartCons(p: Partition, t: seq<Partition>, k: Usize)
    ensures WithStart([p] + t, k) == (if p.startBlock == k then [p] else []) + WithStart(t, k)
  {
    assert ([p] + t)[0] == p;
    assert ([p] + t)[1..] == t;
  }

  lemma {:induction false} InsertByStartGroups(x: Partition, t: seq<Partition>, k: Usize)
    ensures WithStart(InsertByStart(x, t), k) == WithStart([x] + t, k)
  {
    if t != [] && x.startBlock > t[0].startBlock {
      var rest := t[1..];
      var hx := if x.startBlock == k then [x] else [];
      var ht := if t[0].startBlock == k then [t[0]] else [];
      InsertByStartGroups(x, rest, k);
      WithStartCons(t[0], InsertByStart(x, rest), k);
      WithStartCons(x, rest, k);
      WithStartCons(x, t, k);
      WithStartCons(t[0], rest, k);
      assert t == [t[0]] + rest;
      assert hx == [] || ht == [];
      assert ht + (hx + WithStart(rest, k)) == hx + (ht + WithStart(rest, k));
    }
  }

  /** The sort is stable: partitions with equal start blocks stay in input order. */
  lemma {:induction false} SortByStartBlockStable(s: seq<Partition>)
    ensures SameGroups(SortByStartBlock(s), s)
  {
    if s != [] {
      SortByStartBlockStable(s[1..]);
      forall k: Usize ensures WithStart(SortByStartBlock(s), k) == WithStart(s, k) {
        InsertByStartGroups(s[0], SortByStartBlock(s[1..]), k);
        WithStartCons(s[0], SortByStartBlock(s[1..]), k);
        WithStartCons(s[0], s[1..], k);
        assert s == [s[0]] + s[1..];
      }
    }
  }

  // ---------------------------------------------------------------------------
  // A stable sort by start block has only one possible result
  // ---------------------------------------------------------------------------

  lemma {:induction false} WithStartEmpty(s: seq<Partition>, k: Usize)
    ensures WithStart(s, k) == [] <==> forall m | 0 <= m < |s| :: s[m].startBlock != k
  {
    if s != [] {
      WithStartEmpty(s[1..], k);
      assert forall m | 1 <= m < |s| :: s[m] == s[1..][m - 1];
    }
  }

  /** Two ordered sequences with the same groups are equal. */
  lemma {:induction false} SortedGroupsUnique(t: seq<Partition>, u: seq<Partition>)
    requires SortedByStart(t) && SortedByStart(u) && SameGroups(t, u)
    ensures t == u
    decreases |t|
  {
    if t == [] {
      if u != [] {
        WithStartEmpty(u, u[0].startBlock);
      }
    } else if u == [] {
      WithStartEmpty(t, t[0].startBlock);
    } else {
      var a, b := t[0].startBlock, u[0].startBlock;
      // Each head carries the smallest start block of its sequence, and both
      // sequences hold the same start blocks.
      assert a <= b by {
        assert WithStart(u, b) != [];
        WithStartEmpty(t, b);
      }
      assert b <= a by {
        assert WithStart(t, a) != [];
        WithStartEmpty(u, a);
      }
      assert t[0] == u[0] by {
        assert WithStart(t, a)[0] == t[0];
        assert WithStart(u, a)[0] == u[0];
      }
      forall k: Usize ensures WithStart(t[1..], k) == WithStart(u[1..], k) {
        var head := if t[0].startBlock == k then [t[0]] else [];
        assert WithStart(t, k) == head + WithStart(t[1..], k);
        assert WithStart(u, k) == head + WithStart(u[1..], k);
        assert WithStart(t[1..], k) == WithStart(t, k)[|head|..];
        assert WithStart(u[1..], k) == WithStart(u, k)[|head|..];
      }
      SortedGroupsUnique(t[1..], u[1..]);
      assert t == [t[0]] + t[1..] && u == [u[0]] + u[1..];
    }
  }

  /**
    Every stable sort by start block gives `SortByStartBlock`: a result that
    is ordered and keeps the groups of equal start blocks is that sequence.
   */
  lemma StableSortUnique(s: seq<Partition>, r: seq<Partition>)
    requires SortedByStart(r) && SameGroups(r, s)
    ensures r == SortByStartBlock(s)
  {
    SortByStartBlockSorted(s);
    SortByStartBlockStable(s);
    SortedGroupsUnique(r, SortByStartBlock(s));
  }

  /** The sort of the module's own test: start blocks 2048, 2069, 2022, 1969. */
  lemma SortByStartBlockExample()
    ensures SortByStartBlock([NewFromStartBlock(2048), NewFromStartBlock(2069), NewFromStartBlock(2022), NewFromStartBlock(1969)])
         == [NewFromStartBlock(1969), NewFromStartBlock(2022), NewFromStartBlock(2048), NewFromStartBlock(2069)]
  {
    var p2048, p2069, p2022, p1969 := NewFromStartBlock(2048), NewFromStartBlock(2069), NewFromStartBlock(2022), NewFromStartBlock(1969);
    var s := [p2048, p2069, p2022, p1969];
    assert s[3..] == [p1969] && s[2..] == [p2022, p1969] && s[1..] == [p2069, p2022, p1969];
    assert SortByStartBlock([p1969]) == [p1969];
    assert InsertByStart(p2022, [p1969]) == [p1969, p2022] by {
      assert InsertByStart(p2022, [p1969]) == [p1969] + InsertByStart(p2022, []);
    }
    assert SortByStartBlock([p2022, p1969]) == [p1969, p2022];
    assert InsertByStart(p2069, [p1969, p2022]) == [p1969, p2022, p2069] by {
      assert [p1969, p2022][1..] == [p2022];
      assert InsertByStart(p2069, [p2022]) == [p2022] + InsertByStart(p2069, []);
    }
    assert SortByStartBlock([p2069, p2022, p1969]) == [p1969, p2022, p2069];
    assert InsertByStart(p2048, [p1969, p2022, p2069]) == [p1969, p2022, p2048, p2069] by {
      assert [p1969, p2022, p2069][1..] == [p2022, p2069];
      assert [p2022, p2069][1..] == [p2069];
      assert InsertByStart(p2048, [p2022, p2069]) == [p2022] + InsertByStart(p2048, [p2069]);
    }
  }

  // ---------------------------------------------------------------------------
  // The in-place sort
  // ---------------------------------------------------------------------------

  /** Where `InsertByStart` puts `x`: after the `k` partitions that start before it. */
  lemma {:induction false} InsertByStartAt(x: Partition, t: seq<Partition>, k: nat)
    requires k <= |t|
    requires forall m | 0 <= m < k :: t[m].startBlock < x.startBlock
    requires k == |t| || x.startBlock <= t[k].startBlock
    ensures InsertByStart(x, t) == t[..k] + [x] + t[k..]
  {
    if k > 0 {
      InsertByStartAt(x, t[1..], k - 1);
      assert t[1..][..k - 1] == t[1..k];
      assert t[1..][k - 1..] == t[k..];
      assert t[..k] == [t[0]] + t[1..k];
    }
  }

  /**
    One step of the in-place sort: `a[i + 1..]` is already sorted, and
    `a[i]` moves forward past the partitions that start before it.
   */
  method InsertForward(a: array<Partition>, i: nat)
    requires i < a.Length
    modifies a
    ensures a[..i] == old(a[..i])
    ensures a[i..] == InsertByStart(old(a[i]), old(a[i + 1..]))
  {
    var n := a.Length;
    var x := a[i];
    ghost var t := a[i + 1..];
    ghost var front := a[..i];
    var j := i;
    while j + 1 < n && a[j + 1].startBlock < x.startBlock
      invariant i <= j < n
      invariant forall m | 0 <= m < i :: a[m] == front[m]
      invariant forall m | i <= m < j :: a[m] == t[m - i]
      invariant forall m | j < m < n :: a[m] == t[m - i - 1]
      invariant forall m | 0 <= m < j - i :: t[m].startBlock < x.startBlock
    {
      a[j] := a[j + 1];
      j := j + 1;
    }
    a[j] := x;
    InsertedSuffix(a[..], front, t, x, i, j);
  }

  /** The array after one step holds the untouched front and `x` inserted into the sorted suffix. */
  lemma InsertedSuffix(s: seq<Partition>, front: seq<Partition>, t: seq<Partition>, x: Partition, i: nat, j: nat)
    requires i <= j < |s| && |front| == i && |t| == |s| - i - 1
    requires forall m | 0 <= m < i :: s[m] == front[m]
    requires forall m | i <= m < j :: s[m] == t[m - i]
    requires s[j] == x
    requires forall m | j < m < |s| :: s[m] == t[m - i - 1]
    requires forall m | 0 <= m < j - i :: t[m].startBlock < x.startBlock
    requires j - i == |t| || x.startBlock <= t[j - i].startBlock
    ensures s[..i] == front
    ensures s[i..] == InsertByStart(x, t)
  {
    InsertByStartAt(x, t, j - i);
    var r := t[..j - i] + [x] + t[j - i..];
    forall m | i <= m < |s| ensures s[m] == r[m - i] {
      if m < j {
        assert r[m - i] == t[..j - i][m - i];
      } else if m > j {
        assert r[m - i] == t[j - i..][m - i - (j - i) - 1];
      }
    }
    assert s[i..] == r;
  }

  /**
    `partitions.sort_by(|a, b| a.start_block.cmp(&b.start_block))` on the
    vector's buffer: an insertion sort that grows a sorted suffix.
   */
  method SortInPlace(a: array<Partition>)
    modifies a
    ensures a[..] == SortByStartBlock(old(a[..]))
  {
    ghost var s := a[..];
    var i := a.Length;
    while i > 0
      invariant 0 <= i <= a.Length
      invariant a[..i] == s[..i]
      invariant a[i..] == SortByStartBlock(s[i..])
    {
      i := i - 1;
      InsertForward(a, i);
      assert s[i..] == [s[i]] + s[i + 1..];
    }
    assert a[..] == a[0..] && s == s[0..];
  }
}
