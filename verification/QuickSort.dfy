/** The quicksort of dynamic arrays: median of three, scans that rely on sentinels, insertion sort
    for short segments, and a fixed stack of segments still to sort. */
module QuickSort {
  import opened Ordering
  import opened Bytes

  const INSERT_SORT_LIMIT := 37
  const STACK_SLOTS := 100

  /** Between `l` and `r` the items are in order, but for the one at `hole`. */
  ghost predicate SortedBut<T(!new)>(cmp: (T, T) -> int, s: seq<T>, l: int, r: int, hole: int)
    requires 0 <= l <= r <= |s|
  {
    && (forall x, y :: l <= x < y < r && x != hole && y != hole ==> cmp(s[x], s[y]) <= 0)
    && (forall y :: l <= hole < y < r ==> cmp(s[hole], s[y]) <= 0)
  }

  /** Moving the item at `i + 1` one place down. */
  lemma HoleMoves<T(!new)>(cmp: (T, T) -> int, first: seq<T>, s: seq<T>, l: nat, i: nat, j: nat) returns (s': seq<T>)
    requires Preorder(cmp) && l <= i < j < |s| && SortedBut(cmp, s, l, j + 1, i + 1) && cmp(s[i], s[i + 1]) > 0
    requires Permuted(first, s, l, j + 1)
    ensures |s'| == |s| && s'[i] == s[i + 1] && s'[i + 1] == s[i]
    ensures forall k :: 0 <= k < |s| && k != i && k != i + 1 ==> s'[k] == s[k]
    ensures Permuted(first, s', l, j + 1) && SortedBut(cmp, s', l, j + 1, i)
  {
    hide Preorder, Permuted, SortedBut;
    s' := s[i := s[i + 1]][i + 1 := s[i]];
    SwapPermutes(s, i, i + 1, l, j + 1);
    PermutedThen(first, s, s', l, j + 1);
    HoleSorted(cmp, s, s', l, i, j);
  }

  lemma HoleSorted<T(!new)>(cmp: (T, T) -> int, s: seq<T>, s': seq<T>, l: nat, i: nat, j: nat)
    requires Preorder(cmp) && l <= i < j < |s| && SortedBut(cmp, s, l, j + 1, i + 1) && cmp(s[i], s[i + 1]) > 0
    requires |s'| == |s| && s'[i] == s[i + 1] && s'[i + 1] == s[i]
    requires forall k :: 0 <= k < |s| && k != i && k != i + 1 ==> s'[k] == s[k]
    ensures SortedBut(cmp, s', l, j + 1, i)
  {
    Reverse(cmp, s[i], s[i + 1]);
    hide Preorder;
    forall x, y | l <= x < y < j + 1 && x != i && y != i
      ensures cmp(s'[x], s'[y]) <= 0
    {
      var x', y' := if x == i + 1 then i else x, if y == i + 1 then i else y;
      assert cmp(s[x'], s[y']) <= 0;
    }
  }

  lemma HoleFilled<T(!new)>(cmp: (T, T) -> int, s: seq<T>, l: nat, hole: nat, j: nat)
    requires Preorder(cmp) && l <= hole <= j < |s| && SortedBut(cmp, s, l, j + 1, hole)
    requires hole > l ==> cmp(s[hole - 1], s[hole]) <= 0
    ensures SortedBut(cmp, s, l, j + 1, -1)
  {
    hide Preorder;
    forall x | l <= x < hole
      ensures cmp(s[x], s[hole]) <= 0
    {
      if x < hole - 1 {
        Transitive(cmp, s[x], s[hole - 1], s[hole]);
      }
    }
  }

  /** Inserts c[j] among the sorted items before it. */
  method Insert<T(!new)>(c: array<T>, cmp: (T, T) -> int, l: nat, j: nat)
    requires l <= j < c.Length && Preorder(cmp) && SortedBut(cmp, c[..], l, j, -1)
    modifies c
    ensures Permuted(old(c[..]), c[..], l, j + 1)
    ensures SortedBut(cmp, c[..], l, j + 1, -1)
  {
    hide Preorder, Permuted, SortedBut;
    var a := c[j];
    var i: int := j - 1;
    ghost var first := c[..];
    ghost var s := first;
    InsertStart(cmp, s, l, j);
    while i >= l && cmp(c[i], a) > 0
      invariant l - 1 <= i < j && |s| == c.Length && s[i + 1] == a
      invariant forall k :: 0 <= k < |s| && k != i + 1 ==> c[k] == s[k]
      invariant Permuted(first, s, l, j + 1) && SortedBut(cmp, s, l, j + 1, i + 1)
    {
      s := HoleMoves(cmp, first, s, l, i, j);
      c[i + 1] := c[i];
      i := i - 1;
    }
    HoleFilled(cmp, s, l, i + 1, j);
    c[i + 1] := a;
    assert c[..] == s;
  }

  lemma InsertStart<T(!new)>(cmp: (T, T) -> int, s: seq<T>, l: nat, j: nat)
    requires l <= j < |s| && SortedBut(cmp, s, l, j, -1)
    ensures Permuted(s, s, l, j + 1) && SortedBut(cmp, s, l, j + 1, j)
  {
  }

  /** Sorts c[l..ir] by insertion. */
  method InsertionSort<T(!new)>(c: array<T>, cmp: (T, T) -> int, l: nat, ir: nat)
    requires l <= ir < c.Length && Preorder(cmp)
    modifies c
    ensures Permuted(old(c[..]), c[..], l, ir + 1)
    ensures SortedBut(cmp, c[..], l, ir + 1, -1)
  {
    hide Preorder, Permuted;
    PermutedSelf(c[..], l, ir + 1);
    for j := l + 1 to ir + 1
      invariant Permuted(old(c[..]), c[..], l, ir + 1)
      invariant SortedBut(cmp, c[..], l, j, -1)
    {
      hide SortedBut;
      ghost var before := c[..];
      Insert(c, cmp, l, j);
      PermutedWhole(before, c[..], l, j + 1, l, ir + 1);
      PermutedThen(old(c[..]), before, c[..], l, ir + 1);
    }
  }

  lemma PermutedSelf<T>(s: seq<T>, l: nat, r: nat)
    requires l <= r <= |s|
    ensures Permuted(s, s, l, r)
  {
  }

  // ----- partition -----

  /** c[l..i] hold nothing above `a`, c[j..] up to c[ir] nothing below. */
  ghost predicate Split<T(!new)>(cmp: (T, T) -> int, s: seq<T>, a: T, l: nat, i: int, j: int, ir: nat)
    requires l <= ir < |s|
  {
    && (forall x :: l <= x <= i && x <= ir ==> cmp(s[x], a) <= 0)
    && (forall x :: j <= x <= ir && x >= l ==> cmp(s[x], a) >= 0)
  }

  /** Exchanges two items of a part that is a permutation of that of `first`. */
  method Swap<T>(c: array<T>, i: nat, j: nat, ghost first: seq<T>, ghost l: nat, ghost r: nat)
    requires l <= i < r && l <= j < r && r <= c.Length && Permuted(first, c[..], l, r)
    modifies c
    ensures c[i] == old(c[j]) && c[j] == old(c[i])
    ensures forall k :: 0 <= k < c.Length && k != i && k != j ==> c[k] == old(c[k])
    ensures Permuted(first, c[..], l, r)
  {
    hide Permuted;
    SwapPermutes(c[..], i, j, l, r);
    var tmp := c[i];
    c[i] := c[j];
    c[j] := tmp;
    assert c[..] == old(c[..])[i := old(c[j])][j := old(c[i])];
    PermutedThen(first, old(c[..]), c[..], l, r);
  }

  /** Puts the median of the first, middle and last items second, the other two at the ends. */
  method MedianOfThree<T(!new)>(c: array<T>, cmp: (T, T) -> int, l: nat, ir: nat)
    requires l + 2 <= ir < c.Length && Preorder(cmp)
    modifies c
    ensures Permuted(old(c[..]), c[..], l, ir + 1)
    ensures cmp(c[l], c[l + 1]) <= 0 && cmp(c[l + 1], c[ir]) <= 0
  {
    hide Preorder, Permuted;
    ghost var first := c[..];
    PermutedSelf(first, l, ir + 1);
    Swap(c, (l + ir) / 2, l + 1, first, l, ir + 1);
    Reverse(cmp, c[l], c[ir]);
    if cmp(c[l], c[ir]) > 0 {
      Swap(c, l, ir, first, l, ir + 1);
    }
    Reverse(cmp, c[l + 1], c[ir]);
    if cmp(c[l + 1], c[ir]) > 0 {
      Transitive(cmp, c[l], c[ir], c[l + 1]);
      Swap(c, l + 1, ir, first, l, ir + 1);
    }
    Reverse(cmp, c[l], c[l + 1]);
    if cmp(c[l], c[l + 1]) > 0 {
      Swap(c, l, l + 1, first, l, ir + 1);
    }
  }

  /** The first place after `i` that holds nothing below `a`. No bound is tested: there is an item not below
      `a` at `stop`. */
  method ScanUp<T(!new)>(c: array<T>, cmp: (T, T) -> int, a: T, l: nat, i: nat, ghost stop: nat) returns (i': nat)
    requires l <= i < stop < c.Length && cmp(c[stop], a) >= 0
    requires forall x :: l <= x <= i ==> cmp(c[x], a) <= 0
    ensures i < i' <= stop && cmp(c[i'], a) >= 0 && forall x :: l <= x < i' ==> cmp(c[x], a) <= 0
  {
    i' := i + 1;
    while cmp(c[i'], a) < 0
      invariant i < i' <= stop
      invariant forall x :: l <= x < i' ==> cmp(c[x], a) <= 0
      decreases stop - i'
    {
      i' := i' + 1;
    }
  }

  method ScanDown<T(!new)>(c: array<T>, cmp: (T, T) -> int, a: T, ir: nat, j: nat, ghost stop: nat) returns (j': nat)
    requires stop < j <= ir < c.Length && cmp(c[stop], a) <= 0
    requires forall x :: j <= x <= ir ==> cmp(c[x], a) >= 0
    ensures stop <= j' < j && cmp(c[j'], a) <= 0 && forall x :: j' < x <= ir ==> cmp(c[x], a) >= 0
  {
    j' := j - 1;
    while cmp(c[j'], a) > 0
      invariant stop <= j' < j
      invariant forall x :: j' < x <= ir ==> cmp(c[x], a) >= 0
      decreases j' - stop
    {
      j' := j' - 1;
    }
  }

  /** Around c[j]: nothing above it before c[i], nothing below it after c[j]. */
  ghost predicate Partitioned<T(!new)>(cmp: (T, T) -> int, s: seq<T>, l: nat, i: nat, j: nat, ir: nat)
    requires ir < |s| && l <= j <= ir
  {
    && (forall x :: l <= x < i && x <= ir ==> cmp(s[x], s[j]) <= 0)
    && (forall x :: j <= x <= ir ==> cmp(s[x], s[j]) >= 0)
  }

  method Partition<T(!new)>(c: array<T>, cmp: (T, T) -> int, l: nat, ir: nat) returns (i: nat, j: nat)
    requires l + 2 <= ir < c.Length && Preorder(cmp)
    modifies c
    ensures Permuted(old(c[..]), c[..], l, ir + 1)
    ensures l + 1 <= j < i <= ir && Partitioned(cmp, c[..], l, i, j, ir)
  {
    hide Preorder, Permuted;
    ghost var first := c[..];
    MedianOfThree(c, cmp, l, ir);
    i := l + 1;
    j := ir;
    var a := c[l + 1];
    Reflexive(cmp, a);
    Reverse(cmp, a, c[ir]);
    while true
      invariant l + 1 <= i <= j <= ir && (i == j ==> l + 1 < i && j < ir)
      invariant Permuted(first, c[..], l, ir + 1)
      invariant c[l + 1] == a && Split(cmp, c[..], a, l, i, j, ir)
      decreases j - i
    {
      var i0, j0 := i, j;
      i := ScanUp(c, cmp, a, l, i0, if i0 < j0 then j0 else j0 + 1);
      j := ScanDown(c, cmp, a, ir, j0, if i0 < j0 then i0 else i0 - 1);
      if j < i {
        break;
      }
      Swap(c, i, j, first, l, ir + 1);
    }
    Swap(c, l + 1, j, first, l, ir + 1);
  }

  // ----- the stack of segments -----

  /** `group[x]` is the stack level of the segment that still holds x, or -1 - x when x is in its place.
      Items of different groups are in order. */
  ghost predicate InOrder<T(!new)>(cmp: (T, T) -> int, s: seq<T>, group: seq<int>)
    requires |group| <= |s|
  {
    forall x, y :: 0 <= x < y < |group| && group[x] != group[y] ==> cmp(s[x], s[y]) <= 0
  }

  /** The segment at level `k` is [lo, hi]: the deeper, the shorter. */
  ghost predicate Level(group: seq<int>, k: nat, lo: nat, hi: nat) {
    && lo <= hi < |group|
    && (forall x :: 0 <= x < |group| ==> (group[x] == k <==> lo <= x <= hi))
    && (hi - lo + 1) * Pow2(k) <= |group|
  }

  ghost predicate Levels(group: seq<int>, slots: seq<nat>, depth: nat) {
    && 2 * depth < |slots|
    && forall k :: 0 <= k < depth ==> Level(group, k, slots[2 * k + 1], slots[2 * k + 2])
  }

  ghost predicate GroupsOk(group: seq<int>, depth: nat) {
    forall x :: 0 <= x < |group| ==> group[x] <= depth && (group[x] < 0 ==> group[x] == -1 - x)
  }

  ghost function Unfinished(group: seq<int>): set<nat> {
    set x: nat | x < |group| && group[x] >= 0
  }

  /** After a partition: the larger side is pushed, the smaller one is next. */
  ghost function SplitGroup(group: seq<int>, depth: nat, lo: nat, hi: nat, lo': nat, hi': nat): (r: seq<int>)
    ensures |r| == |group|
  {
    seq(|group|, x requires 0 <= x < |group| =>
      if group[x] != depth then group[x]
      else if lo <= x <= hi then depth else if lo' <= x <= hi' then depth + 1 else -1 - x)
  }

  ghost function DoneGroup(group: seq<int>, depth: nat): (r: seq<int>)
    ensures |r| == |group|
  {
    seq(|group|, x requires 0 <= x < |group| => if group[x] == depth then -1 - x else group[x])
  }

  lemma InOrderPermuted<T(!new)>(cmp: (T, T) -> int, s: seq<T>, s': seq<T>, group: seq<int>, d: nat, l: nat, ir: nat)
    requires |group| <= |s| && InOrder(cmp, s, group) && Level(group, d, l, ir) && Permuted(s, s', l, ir + 1)
    ensures InOrder(cmp, s', group)
  {
    forall x, y | 0 <= x < y < |group| && group[x] != group[y]
      ensures cmp(s'[x], s'[y]) <= 0
    {
      var x', y' := x, y;
      if l <= x <= ir {
        x' := PermutedItem(s, s', l, ir + 1, x);
      }
      if l <= y <= ir {
        y' := PermutedItem(s, s', l, ir + 1, y);
      }
      assert group[x'] != group[y'] && x' < y';
    }
  }

  lemma InOrderSplit<T(!new)>(cmp: (T, T) -> int, s: seq<T>, group: seq<int>, d: nat, l: nat, ir: nat, i: nat, j: nat,
                        group': seq<int>)
    requires |group| <= |s| && Preorder(cmp) && InOrder(cmp, s, group) && Level(group, d, l, ir)
    requires l < j < i <= ir && Partitioned(cmp, s, l, i, j, ir)
    requires group' == SplitGroup(group, d, l, j - 1, i, ir) || group' == SplitGroup(group, d, i, ir, l, j - 1)
    ensures InOrder(cmp, s, group')
  {
    hide Preorder;
    forall x, y | 0 <= x < y < |group| && group'[x] != group'[y]
      ensures cmp(s[x], s[y]) <= 0
    {
      if group[x] == group[y] {
        assert l <= x < i && j <= y <= ir;
        Reverse(cmp, s[y], s[j]);
        Transitive(cmp, s[x], s[j], s[y]);
      }
    }
  }

  lemma InOrderDone<T(!new)>(cmp: (T, T) -> int, s: seq<T>, group: seq<int>, d: nat, l: nat, ir: nat)
    requires |group| <= |s| && InOrder(cmp, s, group) && Level(group, d, l, ir) && SortedBut(cmp, s, l, ir + 1, -1)
    ensures InOrder(cmp, s, DoneGroup(group, d))
  {
  }

  /** Half of a segment, one level deeper. */
  lemma SplitLevels(group: seq<int>, slots: seq<nat>, depth: nat, l: nat, ir: nat,
                    lo: nat, hi: nat, lo': nat, hi': nat)
    requires Level(group, depth, l, ir) && Levels(group, slots, depth) && GroupsOk(group, depth)
    requires 2 * depth + 2 < |slots|
    requires slots[2 * depth + 1] == lo && slots[2 * depth + 2] == hi
    requires l <= lo <= hi <= ir && l <= lo' <= hi' <= ir && (hi < lo' - 1 || hi' < lo - 1)
    requires hi - lo >= hi' - lo'
    ensures var group' := SplitGroup(group, depth, lo, hi, lo', hi');
      && Level(group', depth + 1, lo', hi') && Levels(group', slots, depth + 1) && GroupsOk(group', depth + 1)
      && Unfinished(group') < Unfinished(group)
  {
    var group' := SplitGroup(group, depth, lo, hi, lo', hi');
    var middle := if hi < lo' then hi + 1 else hi' + 1;
    assert middle in Unfinished(group) && middle !in Unfinished(group');
    SmallerHalf(hi - lo + 1, hi' - lo' + 1, ir - l + 1, Pow2(depth), |group|);
    forall k | 0 <= k < depth + 1
      ensures Level(group', k, slots[2 * k + 1], slots[2 * k + 2])
    {
      if k < depth {
        assert Level(group, k, slots[2 * k + 1], slots[2 * k + 2]);
      }
    }
  }

  lemma SmallerHalf(a: nat, b: nat, whole: nat, p: nat, n: nat)
    requires b <= a && a + b < whole && whole * p <= n
    ensures a * p <= n && b * (2 * p) <= n
  {
    assert a * p <= whole * p;
    assert (2 * b) * p <= whole * p;
  }

  lemma DoneLevels(group: seq<int>, slots: seq<nat>, depth: nat, l: nat, ir: nat)
    requires Level(group, depth, l, ir) && Levels(group, slots, depth) && GroupsOk(group, depth)
    ensures var group' := DoneGroup(group, depth);
      && Unfinished(group') < Unfinished(group) && GroupsOk(group', if depth == 0 then 0 else depth - 1)
      && (depth > 0 ==>
          Level(group', depth - 1, slots[2 * depth - 1], slots[2 * depth]) && Levels(group', slots, depth - 1))
      && (depth == 0 ==> forall x :: 0 <= x < |group'| ==> group'[x] == -1 - x)
  {
    var group' := DoneGroup(group, depth);
    assert l in Unfinished(group) && l !in Unfinished(group');
    hide Level;
    forall k | 0 <= k < depth
      ensures Level(group', k, slots[2 * k + 1], slots[2 * k + 2])
    {
      DoneLevel(group, depth, k, slots[2 * k + 1], slots[2 * k + 2]);
    }
    if depth > 0 {
      assert Level(group', depth - 1, slots[2 * (depth - 1) + 1], slots[2 * (depth - 1) + 2]);
    }
  }

  lemma DoneLevel(group: seq<int>, depth: nat, k: nat, lo: nat, hi: nat)
    requires Level(group, k, lo, hi) && k < depth
    ensures Level(DoneGroup(group, depth), k, lo, hi)
  {
  }

  /** Only segments longer than the limit are split, so the stack never fills. */
  lemma DepthBound(length: nat, depth: nat, n: nat)
    requires length > INSERT_SORT_LIMIT && length * Pow2(depth) <= n < 38 * Pow2(49)
    ensures depth < 49
  {
    hide Pow2;
    if depth >= 49 {
      PowGrows(49, depth);
      MoreTimes(38, length, Pow2(depth));
    }
  }

  lemma MoreTimes(a: nat, b: nat, p: nat)
    requires a <= b
    ensures a * p <= b * p
  {
  }

  lemma PowGrows(a: nat, b: nat)
    requires a <= b
    ensures Pow2(a) <= Pow2(b)
    decreases b - a
  {
    if a < b {
      PowGrows(a + 1, b);
    }
  }

  /** Sorts the first `n` items. On any array that fits in memory the stack of segments does not overflow. */
  method Sort<T(!new)>(c: array<T>, n: nat, cmp: (T, T) -> int)
    requires n <= c.Length && Preorder(cmp) && n < 38 * Pow2(49)
    modifies c
    ensures Sorted(cmp, c[..n]) && multiset(c[..n]) == multiset(old(c[..n]))
    ensures forall k :: n <= k < c.Length ==> c[k] == old(c[k])
  {
    hide Preorder, Permuted, InOrder, Level, Levels, GroupsOk, Unfinished, SortedBut, Partitioned, Sorted;
    hide SplitGroup, DoneGroup, Pow2;
    ghost var first := c[..];
    if n <= 1 {
      SortedShort(cmp, c[..n]);
      return;
    }
    var istack := new nat[STACK_SLOTS];
    var ir: nat, l: nat, jstack: nat := n - 1, 0, 0;
    ghost var depth: nat, group := 0, seq(n, x => 0);
    StartSort(cmp, first, group, istack[..], n);
    while true
      invariant l <= ir < n && jstack == 2 * depth && depth < 50 && |group| == n
      invariant Level(group, depth, l, ir) && Levels(group, istack[..], depth) && GroupsOk(group, depth)
      invariant Permuted(first, c[..], 0, n) && InOrder(cmp, c[..], group)
      decreases Unfinished(group)
    {
      ghost var before, was := c[..], group;
      if ir - l < INSERT_SORT_LIMIT {
        InsertionSort(c, cmp, l, ir);
        Kept(cmp, first, before, c[..], group, depth, l, ir, n);
        InOrderDone(cmp, c[..], group, depth, l, ir);
        DoneLevels(group, istack[..], depth, l, ir);
        group := DoneGroup(group, depth);
        if jstack == 0 {
          break;
        }
        PopBounds(group, istack[..], depth);
        ir := istack[jstack];
        l := istack[jstack - 1];
        jstack := jstack - 2;
        depth := depth - 1;
      } else {
        var i, j := Partition(c, cmp, l, ir);
        Kept(cmp, first, before, c[..], group, depth, l, ir, n);
        LevelSize(group, depth, l, ir);
        DepthBound(ir - l + 1, depth, n);
        jstack := jstack + 2;
        if jstack > STACK_SLOTS {
          assert false;
        }
        ghost var slots := istack[..];
        if ir - i + 1 >= j - l {
          istack[jstack] := ir;
          istack[jstack - 1] := i;
          group := Pushed(cmp, c[..], was, slots, istack[..], depth, l, ir, i, j, i, ir, l, j - 1);
          ir := j - 1;
        } else {
          istack[jstack] := j - 1;
          istack[jstack - 1] := l;
          group := Pushed(cmp, c[..], was, slots, istack[..], depth, l, ir, i, j, l, j - 1, i, ir);
          l := i;
        }
        depth := depth + 1;
      }
    }
    AllInOrder(cmp, first, c[..], group, n);
  }

  /** The larger side [lo, hi] has been pushed, the smaller one [lo', hi'] is next. */
  lemma Pushed<T(!new)>(cmp: (T, T) -> int, s: seq<T>, group: seq<int>, slots: seq<nat>, slots': seq<nat>, depth: nat,
                  l: nat, ir: nat, i: nat, j: nat, lo: nat, hi: nat, lo': nat, hi': nat) returns (group': seq<int>)
    requires |group| <= |s| && Preorder(cmp) && InOrder(cmp, s, group) && l < j < i <= ir < |s|
    requires Partitioned(cmp, s, l, i, j, ir)
    requires Level(group, depth, l, ir) && Levels(group, slots, depth) && GroupsOk(group, depth)
    requires 2 * depth + 2 < |slots'| == |slots| && slots'[2 * depth + 1] == lo && slots'[2 * depth + 2] == hi
    requires forall k :: 0 <= k <= 2 * depth ==> slots'[k] == slots[k]
    requires hi - lo >= hi' - lo'
    requires (lo, hi, lo', hi') == (i, ir, l, j - 1) || (lo, hi, lo', hi') == (l, j - 1, i, ir)
    ensures |group'| == |group| && InOrder(cmp, s, group') && GroupsOk(group', depth + 1)
    ensures Level(group', depth + 1, lo', hi') && Levels(group', slots', depth + 1)
    ensures Unfinished(group') < Unfinished(group)
  {
    hide Preorder, InOrder, Level, Levels, GroupsOk, Unfinished, Partitioned, SplitGroup;
    group' := SplitGroup(group, depth, lo, hi, lo', hi');
    SameLevels(group, slots, slots', depth);
    SplitLevels(group, slots', depth, l, ir, lo, hi, lo', hi');
    InOrderSplit(cmp, s, group, depth, l, ir, i, j, group');
  }

  lemma SortedShort<T(!new)>(cmp: (T, T) -> int, s: seq<T>)
    requires |s| <= 1
    ensures Sorted(cmp, s)
  {
  }

  lemma StartSort<T(!new)>(cmp: (T, T) -> int, s: seq<T>, group: seq<int>, slots: seq<nat>, n: nat)
    requires 1 < n == |group| <= |s| && |slots| == STACK_SLOTS && forall x :: 0 <= x < n ==> group[x] == 0
    ensures Level(group, 0, 0, n - 1) && Levels(group, slots, 0) && GroupsOk(group, 0)
    ensures InOrder(cmp, s, group) && Permuted(s, s, 0, n)
  {
  }

  /** Rearranging the current segment disturbs nothing. */
  lemma Kept<T(!new)>(cmp: (T, T) -> int, first: seq<T>, s: seq<T>, s': seq<T>, group: seq<int>, d: nat, l: nat,
               ir: nat, n: nat)
    requires |group| == n <= |s| && InOrder(cmp, s, group) && Level(group, d, l, ir)
    requires Permuted(first, s, 0, n) && Permuted(s, s', l, ir + 1)
    ensures |s'| == |s| && InOrder(cmp, s', group) && Permuted(first, s', 0, n)
  {
    InOrderPermuted(cmp, s, s', group, d, l, ir);
    PermutedWhole(s, s', l, ir + 1, 0, n);
    PermutedThen(first, s, s', 0, n);
  }

  lemma LevelSize(group: seq<int>, k: nat, lo: nat, hi: nat)
    requires Level(group, k, lo, hi)
    ensures lo <= hi < |group| && (hi - lo + 1) * Pow2(k) <= |group|
  {
  }

  lemma PopBounds(group: seq<int>, slots: seq<nat>, depth: nat)
    requires 0 < depth && 2 * depth < |slots| && Level(group, depth - 1, slots[2 * depth - 1], slots[2 * depth])
    ensures slots[2 * depth - 1] <= slots[2 * depth] < |group|
  {
  }

  lemma SameLevels(group: seq<int>, slots: seq<nat>, slots': seq<nat>, depth: nat)
    requires Levels(group, slots, depth)
    requires |slots'| == |slots| && forall k :: 0 <= k <= 2 * depth ==> slots'[k] == slots[k]
    ensures Levels(group, slots', depth)
  {
    forall k | 0 <= k < depth
      ensures Level(group, k, slots'[2 * k + 1], slots'[2 * k + 2])
    {
      assert Level(group, k, slots[2 * k + 1], slots[2 * k + 2]);
    }
  }

  lemma AllInOrder<T(!new)>(cmp: (T, T) -> int, first: seq<T>, s: seq<T>, group: seq<int>, n: nat)
    requires |group| == n <= |s| && InOrder(cmp, s, group) && Permuted(first, s, 0, n)
    requires forall x :: 0 <= x < n ==> group[x] == -1 - x
    ensures Sorted(cmp, s[..n]) && multiset(s[..n]) == multiset(first[..n])
    ensures forall k :: n <= k < |s| ==> s[k] == first[k]
  {
    assert s[..n] == s[0..n] && first[..n] == first[0..n];
  }
}
