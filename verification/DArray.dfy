/** Dynamic arrays of compared items: growing, inserting, sorting, dropping doubles, merging. */
module DArray {
  import opened Ordering
  import QuickSort
  import opened Bytes

  datatype Growth = Steady | Linear | Geometrical

  /** Each item the first time it is met, in a sequence whose equal items are neighbours. */
  ghost function Firsts<T>(cmp: (T, T) -> int, s: seq<T>): seq<T> {
    if |s| == 0 then []
    else
      var kept, x := Firsts(cmp, s[..|s| - 1]), s[|s| - 1];
      if kept != [] && cmp(kept[|kept| - 1], x) == 0 then kept else kept + [x]
  }

  /** Something in `s` compares equal to `x`. */
  ghost predicate Has<T>(cmp: (T, T) -> int, s: seq<T>, x: T) {
    exists k :: 0 <= k < |s| && cmp(s[k], x) == 0
  }

  /** The items of `s` that nothing in `t` compares equal to. */
  ghost function Others<T>(cmp: (T, T) -> int, s: seq<T>, t: seq<T>): seq<T> {
    if s == [] then []
    else
      var x := s[|s| - 1];
      var rest := Others(cmp, s[..|s| - 1], t);
      if Has(cmp, t, x) then rest else rest + [x]
  }

  class DynamicArray<T(0, !new)> {
    var content: array<T>
    var len: nat
    const cmp: (T, T) -> int
    const growth: Growth
    const increment: nat

    ghost predicate Valid()
      reads this
    {
      len <= content.Length && Preorder(cmp) && (growth != Steady ==> increment > 0)
    }

    /** It does not grow: because it is not meant to, or because its factor is one, or it has nothing to multiply. */
    predicate Stuck()
      reads this
    {
      growth == Steady || (growth == Geometrical && (increment == 1 || content.Length == 0))
    }

    /** There is room for so many items more, or can be. */
    predicate Room(n: nat)
      reads this
    {
      !Stuck() || len + n <= content.Length
    }

    ghost function Contents(): (s: seq<T>)
      requires len <= content.Length
      reads this, content
      ensures |s| == len
    {
      content[..len]
    }

    constructor (size: nat, growth: Growth, increment: nat, cmp: (T, T) -> int)
      requires (growth != Steady ==> increment > 0) && Preorder(cmp)
      ensures Valid() && fresh(content) && Contents() == [] && this.cmp == cmp
    {
      content := new T[size];
      len := 0;
      this.cmp, this.growth, this.increment := cmp, growth, increment;
    }

    /** A steady array stays as it is; others get a larger place, unless they are stuck. */
    method Grow()
      requires Valid()
      modifies this`content
      ensures Valid() && Contents() == old(Contents()) && Stuck() == old(Stuck())
      ensures if growth == Steady then content == old(content) else fresh(content)
      ensures if Stuck() then content.Length == old(content.Length) else content.Length > old(content.Length)
    {
      hide Preorder;
      if growth == Steady {
        return;
      }
      var old' := content;
      var size := if growth == Linear then old'.Length + increment else old'.Length * increment;
      if growth == Geometrical && old'.Length > 0 && increment > 1 {
        Larger(old'.Length, increment);
      }
      content := new T[size];
      for k := 0 to len
        invariant content.Length == size && fresh(content)
        invariant forall m :: 0 <= m < k ==> content[m] == old'[m]
        modifies content
      {
        content[k] := old'[k];
      }
      assert content[..len] == old'[..len];
    }

    method Append(elem: T)
      requires Valid() && Room(1)
      modifies this, content
      ensures Valid() && (content == old(content) || fresh(content))
      ensures Contents() == old(Contents()) + [elem]
    {
      hide Preorder;
      if len + 1 >= content.Length {
        Grow();
      }
      content[len] := elem;
      len := len + 1;
    }

    /** Inserts at `where`; the caller gets an error for a place that does not exist. */
    method InsertAt(elem: T, where: nat) returns (ok: bool)
      requires Valid() && Room(1)
      modifies this, content
      ensures Valid() && (content == old(content) || fresh(content))
      ensures Stuck() == old(Stuck()) && (Stuck() ==> content.Length == old(content.Length))
      ensures ok <==> where <= old(len)
      ensures Contents() == if ok then old(Contents())[..where] + [elem] + old(Contents())[where..] else old(Contents())
    {
      hide Preorder;
      if where > len {
        return false;
      }
      if len + 1 >= content.Length {
        Grow();
      }
      MoveUp(elem, where);
      len := len + 1;
      ok := true;
    }

    /** Moves the items from `where` on one place up, and fills the gap. */
    method MoveUp(elem: T, where: nat)
      requires where <= len < content.Length
      modifies content
      ensures content[..len + 1] == old(content[..len])[..where] + [elem] + old(content[..len])[where..]
    {
      ghost var s := content[..len];
      var i := len;
      while where < i
        invariant where <= i <= len
        invariant forall k :: 0 <= k < i ==> content[k] == s[k]
        invariant forall k :: i < k <= len ==> content[k] == s[k - 1]
      {
        content[i] := content[i - 1];
        i := i - 1;
      }
      content[where] := elem;
    }

    method RemoveAt(where: nat) returns (ok: bool)
      requires Valid()
      modifies this`len, content
      ensures Valid()
      ensures ok <==> where < old(len)
      ensures Contents() == if ok then old(Contents())[..where] + old(Contents())[where + 1..] else old(Contents())
    {
      hide Preorder;
      if where >= len {
        return false;
      }
      ghost var s := Contents();
      for i := where + 1 to len
        invariant forall k :: 0 <= k < where ==> content[k] == s[k]
        invariant forall k :: where < k < i ==> content[k - 1] == s[k]
        invariant forall k :: i - 1 <= k < len ==> content[k] == s[k]
        modifies content
      {
        content[i - 1] := content[i];
      }
      len := len - 1;
      assert content[..len] == s[..where] + s[where + 1..];
      ok := true;
    }

    method Qsort()
      requires Valid() && len < 38 * Pow2(49)
      modifies content
      ensures Valid()
      ensures Sorted(cmp, Contents()) && multiset(Contents()) == multiset(old(Contents()))
    {
      hide Preorder, Sorted;
      QuickSort.Sort(content, len, cmp);
    }

    /** Removes the item at `c` when it equals the one before, or else goes on to the next. */
    method DropOrKeep(c: nat) returns (c': nat)
      requires Valid() && 1 <= c < len
      modifies this`len, content
      ensures Valid()
      ensures var s := old(Contents());
        if cmp(s[c - 1], s[c]) == 0 then c' == c && Contents() == s[..c] + s[c + 1..]
        else c' == c + 1 && Contents() == s
    {
      hide Preorder;
      c' := c;
      if cmp(content[c - 1], content[c]) == 0 {
        var ok := RemoveAt(c);
      } else {
        c' := c + 1;
      }
    }

    /** Leaves the first of each double. */
    method Unique()
      requires Valid()
      modifies this`len, content
      ensures Valid() && Contents() == Firsts(cmp, old(Contents()))
    {
      hide Preorder, Firsts, Contents;
      ghost var s := Contents();
      ghost var k := if len == 0 then 0 else 1;
      FirstsStart(cmp, s);
      ghost var cur := s;
      var c := 1;
      while c < len
        invariant Valid() && 1 <= c && Contents() == cur && k <= |s| && cur == Firsts(cmp, s[..k]) + s[k..]
        invariant if s == [] then len == 0 else c == |Firsts(cmp, s[..k])|
        decreases len - c
      {
        FirstsStep(cmp, s, k, cur, c);
        c := DropOrKeep(c);
        cur := Contents();
        k := k + 1;
      }
      assert s[..k] == s;
    }

    /** Passes over the items that are below the next of the other array. */
    method LeaveSmaller(a2: DynamicArray<T>, start: nat, c2: nat, ghost s1: seq<T>) returns (c1: nat)
      requires Valid() && a2.Valid() && start <= len && c2 <= a2.len
      requires Merging(cmp, s1, a2.Contents(), Contents(), start, c2)
      ensures start <= c1 <= len && Merging(cmp, s1, a2.Contents(), Contents(), c1, c2)
      ensures c1 < len ==> c2 < a2.len && cmp(content[c1], a2.content[c2]) >= 0
    {
      hide Preorder, Merging;
      c1 := start;
      while c1 < len && (c2 == a2.len || cmp(content[c1], a2.content[c2]) < 0)
        invariant start <= c1 <= len && Merging(cmp, s1, a2.Contents(), Contents(), c1, c2)
      {
        LeaveKept(cmp, s1, a2.Contents(), Contents(), c1, c2);
        c1 := c1 + 1;
      }
    }

    /** Skips the items of the other array that equal the next of this one. */
    method SkipEqual(a2: DynamicArray<T>, c1: nat, start: nat, ghost s1: seq<T>) returns (c2: nat)
      requires Valid() && a2.Valid() && c1 <= len && start <= a2.len && Sorted(cmp, a2.Contents())
      requires Merging(cmp, s1, a2.Contents(), Contents(), c1, start) && TakenBelow(cmp, s1, a2.Contents(), start)
      ensures start <= c2 <= a2.len
      ensures Merging(cmp, s1, a2.Contents(), Contents(), c1, c2) && TakenBelow(cmp, s1, a2.Contents(), c2)
      ensures c1 < len && c2 < a2.len ==> cmp(content[c1], a2.content[c2]) != 0
    {
      hide Preorder, Sorted, Merging, TakenBelow;
      c2 := start;
      while c1 < len && c2 < a2.len && cmp(content[c1], a2.content[c2]) == 0
        invariant start <= c2 <= a2.len
        invariant Merging(cmp, s1, a2.Contents(), Contents(), c1, c2) && TakenBelow(cmp, s1, a2.Contents(), c2)
      {
        SkipKept(cmp, s1, a2.Contents(), Contents(), c1, c2);
        c2 := c2 + 1;
      }
    }

    /** Takes the items of the other array that are not above the next of this one. */
    method TakeSmaller(a2: DynamicArray<T>, c1: nat, start: nat, ghost s1: seq<T>) returns (c2: nat)
      requires Valid() && a2.Valid() && a2 != this && a2.content != content && Sorted(cmp, a2.Contents())
      requires c1 <= len && start <= a2.len && Merging(cmp, s1, a2.Contents(), Contents(), c1, start)
      requires Room(a2.len - start)
      requires Wanted(cmp, s1, a2.Contents(), Contents(), c1, start) && TakenBelow(cmp, s1, a2.Contents(), start)
      modifies this, content
      ensures Valid() && (content == old(content) || fresh(content)) && start <= c2 <= a2.len && c1 <= len
      ensures Room(a2.len - c2)
      ensures len - old(len) == c2 - start && (c2 == start ==> Contents() == old(Contents()))
      ensures Merging(cmp, s1, a2.Contents(), Contents(), c1, c2) && TakenBelow(cmp, s1, a2.Contents(), c2)
      ensures c2 < a2.len ==> c1 < len && cmp(content[c1], a2.content[c2]) < 0
    {
      hide Preorder, Sorted, Merging, TakenBelow, Wanted;
      ghost var s2 := a2.Contents();
      c2 := start;
      while c2 < a2.len && (c1 == len || cmp(content[c1], a2.content[c2]) >= 0)
        invariant Valid() && (content == old(content) || fresh(content)) && start <= c2 <= a2.len && c1 <= len
        invariant len - old(len) == c2 - start && Room(a2.len - c2)
        invariant Merging(cmp, s1, s2, Contents(), c1, c2) && Wanted(cmp, s1, s2, Contents(), c1, c2)
        invariant if c2 > start then c1 < len && Contents()[c1] == s2[c2 - 1] else Contents() == old(Contents())
        decreases a2.len - c2
      {
        TakeKept(cmp, s1, s2, Contents(), c1, c2);
        var ok := InsertAt(a2.content[c2], c1);
        c2 := c2 + 1;
      }
      if c2 > start {
        TakenEnough(cmp, s1, s2, c2);
      }
    }

    /** Merges another sorted array into this one. On equal items, this array's are kept. The array
        grows while it is being scanned. */
    method Merge(a2: DynamicArray<T>)
      requires Valid() && a2.Valid() && a2 != this && a2.content != content && Room(a2.len)
      requires Sorted(cmp, Contents()) && Sorted(cmp, a2.Contents())
      modifies this, content
      ensures Valid() && (content == old(content) || fresh(content))
      ensures Sorted(cmp, Contents())
      ensures multiset(Contents()) == multiset(old(Contents())) + multiset(Others(cmp, a2.Contents(), old(Contents())))
    {
      hide Preorder, Sorted, Merging, TakenBelow, Wanted, Has, Others;
      ghost var s1, s2 := Contents(), a2.Contents();
      var c1, c2 := 0, 0;
      MergeStart(cmp, s1, s2);
      while c1 != len || c2 != a2.len
        invariant Valid() && (content == old(content) || fresh(content)) && c1 <= len && c2 <= a2.len
        invariant Merging(cmp, s1, s2, Contents(), c1, c2) && TakenBelow(cmp, s1, s2, c2) && Room(a2.len - c2)
        decreases 2 * (a2.len - c2) + (len - c1)
      {
        c1 := LeaveSmaller(a2, c1, c2, s1);
        c2 := SkipEqual(a2, c1, c2, s1);
        WantedFirst(cmp, s1, s2, Contents(), c1, c2);
        c2 := TakeSmaller(a2, c1, c2, s1);
        assert c1 < len ==> content[c1] == Contents()[c1];
      }
      MergeEnd(cmp, s1, s2, Contents(), c1);
    }

    /** Takes the items of the other array that are not above the next of this one, whatever there is already. */
    method TakeAny(a2: DynamicArray<T>, c1: nat, start: nat, ghost s1: seq<T>) returns (c2: nat)
      requires Valid() && a2.Valid() && a2 != this && a2.content != content && start <= a2.len
      requires Room(a2.len - start) && c1 <= len && Both(cmp, s1, a2.Contents(), Contents(), c1, start)
      modifies this, content
      ensures Valid() && (content == old(content) || fresh(content)) && start <= c2 <= a2.len && c1 <= len
      ensures len - old(len) == c2 - start && Room(a2.len - c2)
      ensures Both(cmp, s1, a2.Contents(), Contents(), c1, c2)
      ensures start < a2.len && (c1 == old(len) || cmp(old(content[c1]), a2.content[start]) >= 0) ==> c2 > start
    {
      hide Preorder, Sorted, Both;
      ghost var s2 := a2.Contents();
      c2 := start;
      while c2 < a2.len && (c1 == len || cmp(content[c1], a2.content[c2]) >= 0)
        invariant Valid() && (content == old(content) || fresh(content)) && start <= c2 <= a2.len && c1 <= len
        invariant len - old(len) == c2 - start && Room(a2.len - c2)
        invariant Both(cmp, s1, s2, Contents(), c1, c2)
        invariant c2 == start ==> Contents() == old(Contents())
        decreases a2.len - c2
      {
        BothTaken(cmp, s1, s2, Contents(), c1, c2);
        var ok := InsertAt(a2.content[c2], c1);
        c2 := c2 + 1;
      }
      assert c2 == start && c1 < len ==> content[c1] == Contents()[c1] == old(Contents())[c1];
    }

    /** The other policy, by which the other array is said to win: on equal items, both are kept. */
    method MergeBoth(a2: DynamicArray<T>)
      requires Valid() && a2.Valid() && a2 != this && a2.content != content && Room(a2.len)
      requires Sorted(cmp, Contents()) && Sorted(cmp, a2.Contents())
      modifies this, content
      ensures Valid() && (content == old(content) || fresh(content))
      ensures Sorted(cmp, Contents()) && multiset(Contents()) == multiset(old(Contents())) + multiset(a2.Contents())
    {
      hide Preorder, Sorted, Both;
      ghost var s1, s2 := Contents(), a2.Contents();
      var c1, c2 := 0, 0;
      BothStart(cmp, s1, s2);
      while c1 != len || c2 != a2.len
        invariant Valid() && (content == old(content) || fresh(content)) && c1 <= len && c2 <= a2.len
        invariant Both(cmp, s1, s2, Contents(), c1, c2) && Room(a2.len - c2)
        decreases 2 * (a2.len - c2) + (len - c1)
      {
        ghost var from := c1;
        while c1 < len && (c2 == a2.len || cmp(content[c1], a2.content[c2]) < 0)
          invariant from <= c1 <= len && Both(cmp, s1, s2, Contents(), c1, c2)
          modifies {}
        {
          BothPassed(cmp, s1, s2, Contents(), c1, c2);
          c1 := c1 + 1;
        }
        while c1 < len && c2 < a2.len && cmp(content[c1], a2.content[c2]) == 0
          invariant from <= c1 <= len && Both(cmp, s1, s2, Contents(), c1, c2)
          invariant c1 == from && c1 < len ==> c2 < a2.len && cmp(content[c1], a2.content[c2]) >= 0
          modifies {}
        {
          BothPassed(cmp, s1, s2, Contents(), c1, c2);
          c1 := c1 + 1;
        }
        c2 := TakeAny(a2, c1, c2, s1);
      }
      BothEnd(cmp, s1, s2, Contents(), c1);
    }
  }

  /** `cur` holds the firsts of s[..k], `c` of them, and the rest of `s`. */
  lemma FirstsStep<T>(cmp: (T, T) -> int, s: seq<T>, k: nat, cur: seq<T>, c: nat)
    requires k < |s| && cur == Firsts(cmp, s[..k]) + s[k..] && c == |Firsts(cmp, s[..k])| > 0
    ensures c < |cur| && var next := if cmp(cur[c - 1], cur[c]) == 0 then cur[..c] + cur[c + 1..] else cur;
      && next == Firsts(cmp, s[..k + 1]) + s[k + 1..]
      && |Firsts(cmp, s[..k + 1])| == if cmp(cur[c - 1], cur[c]) == 0 then c else c + 1
  {
    assert s[..k + 1][..k] == s[..k];
    KeptThenRest(Firsts(cmp, s[..k]), s, k);
  }

  lemma FirstsStart<T>(cmp: (T, T) -> int, s: seq<T>)
    ensures Firsts(cmp, s[..0]) + s[0..] == s
    ensures s != [] ==> |Firsts(cmp, s[..1])| == 1 && Firsts(cmp, s[..1]) + s[1..] == s
  {
    if s != [] {
      assert s[..1][..0] == [];
      assert Firsts(cmp, s[..1]) == [s[0]];
    }
  }

  lemma KeptThenRest<T>(kept: seq<T>, s: seq<T>, k: nat)
    requires k < |s|
    ensures (kept + s[k..])[..|kept|] == kept && (kept + s[k..])[|kept| + 1..] == s[k + 1..]
    ensures kept + s[k..] == (kept + [s[k]]) + s[k + 1..]
  {
  }

  /** What is kept was there, and has an equal of everything that was there. */
  ghost predicate StandsFor<T(!new)>(cmp: (T, T) -> int, kept: seq<T>, s: seq<T>) {
    (forall x :: x in kept ==> x in s) && (forall x :: x in s ==> Has(cmp, kept, x))
  }

  /** Of sorted items, one of each class is left. */
  lemma {:induction false} FirstsMeaning<T(!new)>(cmp: (T, T) -> int, s: seq<T>)
    requires Preorder(cmp) && Sorted(cmp, s)
    ensures StrictlyIncreasing(cmp, Firsts(cmp, s)) && StandsFor(cmp, Firsts(cmp, s), s)
    ensures s != [] ==> Firsts(cmp, s) != [] && cmp(Firsts(cmp, s)[|Firsts(cmp, s)| - 1], s[|s| - 1]) == 0
  {
    hide Preorder, StrictlyIncreasing, StandsFor, Sorted, Firsts;
    NothingFirst(cmp);
    if s != [] {
      var init, x := s[..|s| - 1], s[|s| - 1];
      var kept := Firsts(cmp, init);
      assert s == init + [x];
      SortedInit(cmp, s);
      FirstsMeaning(cmp, init);
      FirstsNext(cmp, init, x);
      Reflexive(cmp, x);
      if kept != [] {
        var top, before := kept[|kept| - 1], init[|init| - 1];
        Reverse(cmp, top, before);
        Transitive(cmp, top, before, x);
        StandsForMore(cmp, kept, init, x);
        if cmp(top, x) != 0 {
          StrictMore(cmp, kept, x);
        }
      } else {
        assert kept + [x] == [x] && init == [];
        StrictOne(cmp, x);
        StandsForOne(cmp, x);
      }
    }
  }

  /** They are picked at these places, in order, and before each there is nothing equal to it. */
  ghost predicate PickedFirst<T>(cmp: (T, T) -> int, s: seq<T>, kept: seq<T>, at: seq<nat>) {
    && |at| == |kept| && (forall k :: 0 <= k < |at| ==> at[k] < |s| && kept[k] == s[at[k]])
    && (forall j, k :: 0 <= j < k < |at| ==> at[j] < at[k])
    && forall k, j :: 0 <= k < |at| && 0 <= j < at[k] ==> cmp(s[j], kept[k]) != 0
  }

  /** What is left of a class is the first of it. */
  lemma {:induction false} FirstsLeast<T(!new)>(cmp: (T, T) -> int, s: seq<T>) returns (at: seq<nat>)
    requires Preorder(cmp) && Sorted(cmp, s)
    ensures PickedFirst(cmp, s, Firsts(cmp, s), at)
  {
    hide Preorder, Sorted, Firsts, PickedFirst;
    NothingFirst(cmp);
    at := NothingPicked(cmp);
    if s != [] {
      var init, x := s[..|s| - 1], s[|s| - 1];
      var kept := Firsts(cmp, init);
      assert s == init + [x];
      SortedInit(cmp, s);
      at := FirstsLeast(cmp, init);
      FirstsNext(cmp, init, x);
      FirstsMeaning(cmp, init);
      StillPicked(cmp, init, kept, at, x);
      if kept == [] || cmp(kept[|kept| - 1], x) != 0 {
        NoneBefore(cmp, init, kept, x);
        OnePicked(cmp, init, kept, at, x);
        at := at + [|init|];
      }
    }
  }

  lemma NothingPicked<T>(cmp: (T, T) -> int) returns (at: seq<nat>)
    ensures PickedFirst(cmp, [], [], at)
  {
    at := [];
  }

  lemma StillPicked<T>(cmp: (T, T) -> int, init: seq<T>, kept: seq<T>, at: seq<nat>, x: T)
    requires PickedFirst(cmp, init, kept, at)
    ensures PickedFirst(cmp, init + [x], kept, at)
  {
    assert forall j :: 0 <= j < |init| ==> (init + [x])[j] == init[j];
  }

  lemma OnePicked<T>(cmp: (T, T) -> int, init: seq<T>, kept: seq<T>, at: seq<nat>, x: T)
    requires PickedFirst(cmp, init, kept, at) && forall j :: 0 <= j < |init| ==> cmp(init[j], x) != 0
    ensures PickedFirst(cmp, init + [x], kept + [x], at + [|init|])
  {
    assert forall j :: 0 <= j < |init| ==> (init + [x])[j] == init[j];
  }

  lemma NoneBefore<T(!new)>(cmp: (T, T) -> int, init: seq<T>, kept: seq<T>, x: T)
    requires Preorder(cmp) && Sorted(cmp, init + [x])
    requires init != [] ==> kept != [] && cmp(kept[|kept| - 1], init[|init| - 1]) == 0 && cmp(kept[|kept| - 1], x) != 0
    ensures forall j :: 0 <= j < |init| ==> cmp(init[j], x) != 0
  {
    forall j | 0 <= j < |init|
      ensures cmp(init[j], x) != 0
    {
      var top, before := kept[|kept| - 1], init[|init| - 1];
      assert (init + [x])[j] == init[j] && (init + [x])[|init|] == x && (init + [x])[|init| - 1] == before;
      Reflexive(cmp, before);
      assert cmp(init[j], before) <= 0 && cmp(before, x) <= 0;
      Reverse(cmp, top, before);
      hide Preorder, Sorted;
      EqualsApart(cmp, top, before, x);
      Strictly(cmp, init[j], before, x);
    }
  }

  lemma EqualsApart<T(!new)>(cmp: (T, T) -> int, top: T, before: T, x: T)
    requires Preorder(cmp) && cmp(top, before) == 0 && cmp(before, x) <= 0 && cmp(top, x) != 0
    ensures cmp(before, x) < 0
  {
    Transitive(cmp, top, before, x);
    Reverse(cmp, top, before);
    Transitive(cmp, before, top, x);
  }

  lemma Strictly<T(!new)>(cmp: (T, T) -> int, y: T, before: T, x: T)
    requires Preorder(cmp) && cmp(y, before) <= 0 && cmp(before, x) < 0
    ensures cmp(y, x) < 0
  {
    Transitive(cmp, y, before, x);
  }

  lemma StandsForOne<T(!new)>(cmp: (T, T) -> int, x: T)
    requires cmp(x, x) == 0
    ensures StandsFor(cmp, [x], [x])
  {
    assert cmp([x][0], x) == 0;
  }

  lemma StandsForMore<T(!new)>(cmp: (T, T) -> int, kept: seq<T>, init: seq<T>, x: T)
    requires StandsFor(cmp, kept, init) && kept != [] && cmp(x, x) == 0
    ensures StandsFor(cmp, if cmp(kept[|kept| - 1], x) == 0 then kept else kept + [x], init + [x])
  {
    hide Has;
    HasMore(cmp, kept, x);
    if cmp(kept[|kept| - 1], x) == 0 {
      LastHas(cmp, kept, x);
    }
  }

  lemma NothingFirst<T(!new)>(cmp: (T, T) -> int)
    ensures Firsts(cmp, []) == [] && StrictlyIncreasing(cmp, Firsts(cmp, [])) && StandsFor(cmp, [], [])
  {
  }

  lemma FirstsNext<T(!new)>(cmp: (T, T) -> int, init: seq<T>, x: T)
    ensures var kept := Firsts(cmp, init);
      Firsts(cmp, init + [x]) == if kept != [] && cmp(kept[|kept| - 1], x) == 0 then kept else kept + [x]
  {
    assert (init + [x])[..|init|] == init;
  }

  lemma SortedInit<T(!new)>(cmp: (T, T) -> int, s: seq<T>)
    requires Sorted(cmp, s) && s != []
    ensures Sorted(cmp, s[..|s| - 1]) && (|s| > 1 ==> cmp(s[|s| - 2], s[|s| - 1]) <= 0)
  {
  }

  lemma LastHas<T(!new)>(cmp: (T, T) -> int, s: seq<T>, x: T)
    requires s != [] && cmp(s[|s| - 1], x) == 0
    ensures Has(cmp, s, x)
  {
  }

  lemma StrictOne<T(!new)>(cmp: (T, T) -> int, x: T)
    ensures StrictlyIncreasing(cmp, [x])
  {
  }

  lemma StrictMore<T(!new)>(cmp: (T, T) -> int, s: seq<T>, x: T)
    requires Preorder(cmp) && StrictlyIncreasing(cmp, s) && s != [] && cmp(s[|s| - 1], x) < 0
    ensures StrictlyIncreasing(cmp, s + [x])
  {
    hide Preorder;
    forall k | 0 <= k < |s|
      ensures cmp(s[k], x) < 0
    {
      if k < |s| - 1 {
        Transitive(cmp, s[k], s[|s| - 1], x);
      }
    }
  }

  lemma HasMore<T(!new)>(cmp: (T, T) -> int, s: seq<T>, x: T)
    requires cmp(x, x) == 0
    ensures Has(cmp, s + [x], x) && forall y :: Has(cmp, s, y) ==> Has(cmp, s + [x], y)
  {
    assert (s + [x])[|s|] == x;
    forall y | Has(cmp, s, y)
      ensures Has(cmp, s + [x], y)
    {
      var k :| 0 <= k < |s| && cmp(s[k], y) == 0;
      assert (s + [x])[k] == s[k];
    }
  }

  // ----- merging -----

  /** `cur` is the first array, whose first `c1` items are final; `c2` items of the second have been dealt with. */
  ghost predicate Merging<T(!new)>(cmp: (T, T) -> int, s1: seq<T>, s2: seq<T>, cur: seq<T>, c1: nat, c2: nat) {
    && c1 <= |cur| && c2 <= |s2| && Sorted(cmp, cur)
    && multiset(cur) == multiset(s1) + multiset(Others(cmp, s2[..c2], s1))
    && (c2 < |s2| ==> forall x :: 0 <= x < c1 ==> cmp(cur[x], s2[c2]) < 0)
  }

  /** What has been taken from the second array is below what comes next. */
  ghost predicate TakenBelow<T(!new)>(cmp: (T, T) -> int, s1: seq<T>, s2: seq<T>, c2: nat) {
    c2 < |s2| ==> forall k :: 0 <= k < c2 && !Has(cmp, s1, s2[k]) ==> cmp(s2[k], s2[c2]) < 0
  }

  /** The next item of the second array is wanted: nothing in the first compares equal. */
  ghost predicate Wanted<T(!new)>(cmp: (T, T) -> int, s1: seq<T>, s2: seq<T>, cur: seq<T>, c1: nat, c2: nat) {
    c2 < |s2| && c1 <= |cur| && (c1 == |cur| || cmp(cur[c1], s2[c2]) >= 0) ==> !Has(cmp, s1, s2[c2])
  }

  lemma OthersStep<T>(cmp: (T, T) -> int, s1: seq<T>, s2: seq<T>, c2: nat)
    requires c2 < |s2|
    ensures Others(cmp, s2[..c2 + 1], s1) == Others(cmp, s2[..c2], s1) + (if Has(cmp, s1, s2[c2]) then [] else [s2[c2]])
  {
    assert s2[..c2 + 1][..c2] == s2[..c2];
  }

  lemma {:induction false} OthersMember<T>(cmp: (T, T) -> int, s: seq<T>, t: seq<T>, x: T)
    ensures x in Others(cmp, s, t) <==> x in s && !Has(cmp, t, x)
  {
    hide Has;
    if s != [] {
      OthersMember(cmp, s[..|s| - 1], t, x);
      assert s == s[..|s| - 1] + [s[|s| - 1]];
    }
  }

  lemma NextNotBelow<T(!new)>(cmp: (T, T) -> int, s2: seq<T>, c2: nat, x: T)
    requires Preorder(cmp) && Sorted(cmp, s2) && c2 + 1 < |s2| && cmp(x, s2[c2]) < 0
    ensures cmp(x, s2[c2 + 1]) < 0
  {
    hide Preorder;
    Transitive(cmp, x, s2[c2], s2[c2 + 1]);
  }

  /** Skipping an item of the second array that the first has already. */
  lemma SkipKept<T(!new)>(cmp: (T, T) -> int, s1: seq<T>, s2: seq<T>, cur: seq<T>, c1: nat, c2: nat)
    requires Preorder(cmp) && Sorted(cmp, s2) && Merging(cmp, s1, s2, cur, c1, c2) && TakenBelow(cmp, s1, s2, c2)
    requires c1 < |cur| && c2 < |s2| && cmp(cur[c1], s2[c2]) == 0
    ensures Merging(cmp, s1, s2, cur, c1, c2 + 1) && TakenBelow(cmp, s1, s2, c2 + 1)
  {
    hide Preorder;
    assert cur[c1] in multiset(cur);
    assert cur[c1] in s1 || cur[c1] in Others(cmp, s2[..c2], s1);
    OthersMember(cmp, s2[..c2], s1, cur[c1]);
    assert Has(cmp, s1, s2[c2]);
    OthersStep(cmp, s1, s2, c2);
    if c2 + 1 < |s2| {
      forall x | cmp(x, s2[c2]) < 0
        ensures cmp(x, s2[c2 + 1]) < 0
      {
        NextNotBelow(cmp, s2, c2, x);
      }
    }
  }

  /** When the two next items differ, the second array's is wanted if it is the smaller. */
  lemma WantedFirst<T(!new)>(cmp: (T, T) -> int, s1: seq<T>, s2: seq<T>, cur: seq<T>, c1: nat, c2: nat)
    requires Preorder(cmp) && Merging(cmp, s1, s2, cur, c1, c2)
    requires c1 < |cur| && c2 < |s2| ==> cmp(cur[c1], s2[c2]) != 0
    ensures Wanted(cmp, s1, s2, cur, c1, c2)
  {
    hide Preorder;
    if c2 < |s2| && (c1 == |cur| || cmp(cur[c1], s2[c2]) >= 0) && Has(cmp, s1, s2[c2]) {
      var k :| 0 <= k < |s1| && cmp(s1[k], s2[c2]) == 0;
      assert s1[k] in multiset(s1);
      assert s1[k] in multiset(cur);
      var x :| 0 <= x < |cur| && cur[x] == s1[k];
      if c1 < |cur| {
        Reverse(cmp, cur[c1], s2[c2]);
        Reverse(cmp, s2[c2], cur[x]);
        if c1 < x {
          Transitive(cmp, cur[c1], cur[x], s2[c2]);
        }
      }
    }
  }

  /** Taking an item of the second array. */
  lemma TakeKept<T(!new)>(cmp: (T, T) -> int, s1: seq<T>, s2: seq<T>, cur: seq<T>, c1: nat, c2: nat)
    requires Preorder(cmp) && Sorted(cmp, s2) && Merging(cmp, s1, s2, cur, c1, c2) && Wanted(cmp, s1, s2, cur, c1, c2)
    requires c2 < |s2| && (c1 == |cur| || cmp(cur[c1], s2[c2]) >= 0)
    ensures var cur' := cur[..c1] + [s2[c2]] + cur[c1..];
      Merging(cmp, s1, s2, cur', c1, c2 + 1) && Wanted(cmp, s1, s2, cur', c1, c2 + 1) && cur'[c1] == s2[c2]
  {
    hide Preorder;
    var y, cur' := s2[c2], cur[..c1] + [s2[c2]] + cur[c1..];
    assert !Has(cmp, s1, y);
    TakenMultiset(cmp, s1, s2, cur, c1, c2);
    InsertSorted(cmp, cur, c1, y);
    hide Has, Others, Sorted;
    if c2 + 1 < |s2| {
      SortedNext(cmp, s2, c2);
      forall x | 0 <= x < c1
        ensures cmp(cur'[x], s2[c2 + 1]) < 0
      {
        assert cur'[x] == cur[x];
        Transitive(cmp, cur[x], y, s2[c2 + 1]);
      }
      if cmp(y, s2[c2 + 1]) == 0 {
        SameClass(cmp, s1, y, s2[c2 + 1]);
      }
    }
  }

  /** Everything so far is in `cur`, sorted, and up to `c1` nothing is above what is still to come. */
  ghost predicate Both<T(!new)>(cmp: (T, T) -> int, s1: seq<T>, s2: seq<T>, cur: seq<T>, c1: nat, c2: nat) {
    && c1 <= |cur| && c2 <= |s2| && Sorted(cmp, cur) && Sorted(cmp, s2)
    && multiset(cur) == multiset(s1) + multiset(s2[..c2])
    && forall k, m :: 0 <= k < c1 && c2 <= m < |s2| ==> cmp(cur[k], s2[m]) <= 0
  }

  lemma BothStart<T(!new)>(cmp: (T, T) -> int, s1: seq<T>, s2: seq<T>)
    requires Sorted(cmp, s1) && Sorted(cmp, s2)
    ensures Both(cmp, s1, s2, s1, 0, 0)
  {
    hide Sorted;
    assert s2[..0] == [];
  }

  lemma BothEnd<T(!new)>(cmp: (T, T) -> int, s1: seq<T>, s2: seq<T>, cur: seq<T>, c1: nat)
    requires Both(cmp, s1, s2, cur, c1, |s2|)
    ensures Sorted(cmp, cur) && multiset(cur) == multiset(s1) + multiset(s2)
  {
    hide Sorted;
    assert s2[..|s2|] == s2;
  }

  lemma BothPassed<T(!new)>(cmp: (T, T) -> int, s1: seq<T>, s2: seq<T>, cur: seq<T>, c1: nat, c2: nat)
    requires Preorder(cmp) && Both(cmp, s1, s2, cur, c1, c2) && c1 < |cur|
    requires c2 == |s2| || cmp(cur[c1], s2[c2]) <= 0
    ensures Both(cmp, s1, s2, cur, c1 + 1, c2)
  {
    hide Preorder;
    forall m | c2 <= m < |s2|
      ensures cmp(cur[c1], s2[m]) <= 0
    {
      if c2 < m {
        Transitive(cmp, cur[c1], s2[c2], s2[m]);
      }
    }
  }

  lemma BothTaken<T(!new)>(cmp: (T, T) -> int, s1: seq<T>, s2: seq<T>, cur: seq<T>, c1: nat, c2: nat)
    requires Preorder(cmp) && Both(cmp, s1, s2, cur, c1, c2) && c2 < |s2|
    requires c1 == |cur| || cmp(cur[c1], s2[c2]) >= 0
    ensures Both(cmp, s1, s2, cur[..c1] + [s2[c2]] + cur[c1..], c1, c2 + 1)
  {
    hide Preorder;
    var y, cur' := s2[c2], cur[..c1] + [s2[c2]] + cur[c1..];
    InsertSorted(cmp, cur, c1, y);
    hide Sorted;
    InsertedMultiset(cur, c1, y);
    InsertedMultiset(s2[..c2], c2, y);
    assert s2[..c2 + 1] == s2[..c2][..c2] + [y] + s2[..c2][c2..];
    forall k, m | 0 <= k < c1 && c2 + 1 <= m < |s2|
      ensures cmp(cur'[k], s2[m]) <= 0
    {
      assert cur'[k] == cur[k];
    }
  }

  lemma InsertedMultiset<T>(s: seq<T>, k: nat, y: T)
    requires k <= |s|
    ensures multiset(s[..k] + [y] + s[k..]) == multiset(s) + multiset{y}
  {
    assert s == s[..k] + s[k..];
  }

  lemma SortedNext<T(!new)>(cmp: (T, T) -> int, s: seq<T>, k: nat)
    requires Sorted(cmp, s) && k + 1 < |s|
    ensures cmp(s[k], s[k + 1]) <= 0
  {
  }

  lemma OneMore<T>(a: multiset<T>, b: multiset<T>, c: multiset<T>, d: multiset<T>, y: multiset<T>)
    requires a + b == c + d
    ensures a + y + b == c + (d + y)
  {
    assert a + y + b == (a + b) + y;
  }

  lemma TakenMultiset<T(!new)>(cmp: (T, T) -> int, s1: seq<T>, s2: seq<T>, cur: seq<T>, c1: nat, c2: nat)
    requires c1 <= |cur| && c2 < |s2| && !Has(cmp, s1, s2[c2])
    requires multiset(cur) == multiset(s1) + multiset(Others(cmp, s2[..c2], s1))
    ensures multiset(cur[..c1] + [s2[c2]] + cur[c1..]) == multiset(s1) + multiset(Others(cmp, s2[..c2 + 1], s1))
  {
    OthersStep(cmp, s1, s2, c2);
    hide Has;
    var y, a, b := s2[c2], cur[..c1], cur[c1..];
    var taken := Others(cmp, s2[..c2], s1);
    assert Others(cmp, s2[..c2 + 1], s1) == taken + [y];
    hide Others;
    assert cur == a + b;
    assert multiset(a + [y] + b) == multiset(a) + multiset{y} + multiset(b);
    assert multiset(taken + [y]) == multiset(taken) + multiset{y};
    OneMore(multiset(a), multiset(b), multiset(s1), multiset(taken), multiset{y});
  }

  lemma InsertSorted<T(!new)>(cmp: (T, T) -> int, cur: seq<T>, c1: nat, y: T)
    requires Preorder(cmp) && Sorted(cmp, cur) && c1 <= |cur| && (c1 < |cur| ==> cmp(cur[c1], y) >= 0)
    requires forall x :: 0 <= x < c1 ==> cmp(cur[x], y) <= 0
    ensures Sorted(cmp, cur[..c1] + [y] + cur[c1..])
  {
    hide Preorder;
    forall x | c1 <= x < |cur|
      ensures cmp(y, cur[x]) <= 0
    {
      Reverse(cmp, cur[c1], y);
      Reverse(cmp, y, cur[c1]);
      if c1 < x {
        Transitive(cmp, y, cur[c1], cur[x]);
      }
    }
  }

  lemma SameClass<T(!new)>(cmp: (T, T) -> int, s: seq<T>, x: T, y: T)
    requires Preorder(cmp) && cmp(x, y) == 0
    ensures Has(cmp, s, x) ==> Has(cmp, s, y)
    ensures Has(cmp, s, y) ==> Has(cmp, s, x)
  {
    hide Preorder;
    Reverse(cmp, x, y);
    forall k | 0 <= k < |s|
      ensures cmp(s[k], x) == 0 <==> cmp(s[k], y) == 0
    {
      if cmp(s[k], x) == 0 {
        SameSide(cmp, s[k], x, y);
      }
      if cmp(s[k], y) == 0 {
        SameSide(cmp, s[k], y, x);
      }
    }
  }

  lemma SameSide<T(!new)>(cmp: (T, T) -> int, a: T, x: T, y: T)
    requires Preorder(cmp) && cmp(x, y) == 0 && cmp(a, x) == 0
    ensures cmp(a, y) == 0
  {
    hide Preorder;
    Reverse(cmp, x, y);
    Reverse(cmp, a, x);
    Transitive(cmp, a, x, y);
    Transitive(cmp, y, x, a);
    Reverse(cmp, y, a);
  }

  /** When nothing more can be taken, what has been taken is below what comes next. */
  lemma TakenEnough<T(!new)>(cmp: (T, T) -> int, s1: seq<T>, s2: seq<T>, c2: nat)
    requires Preorder(cmp) && Sorted(cmp, s2) && 0 < c2 <= |s2| && (c2 < |s2| ==> cmp(s2[c2 - 1], s2[c2]) < 0)
    ensures TakenBelow(cmp, s1, s2, c2)
  {
    hide Preorder;
    if c2 < |s2| {
      forall k | 0 <= k < c2
        ensures cmp(s2[k], s2[c2]) < 0
      {
        if k < c2 - 1 {
          Transitive(cmp, s2[k], s2[c2 - 1], s2[c2]);
        }
      }
    }
  }

  lemma MergeStart<T(!new)>(cmp: (T, T) -> int, s1: seq<T>, s2: seq<T>)
    requires Sorted(cmp, s1)
    ensures Merging(cmp, s1, s2, s1, 0, 0) && TakenBelow(cmp, s1, s2, 0)
  {
    assert s2[..0] == [];
  }

  lemma LeaveKept<T(!new)>(cmp: (T, T) -> int, s1: seq<T>, s2: seq<T>, cur: seq<T>, c1: nat, c2: nat)
    requires Merging(cmp, s1, s2, cur, c1, c2) && c1 < |cur| && (c2 == |s2| || cmp(cur[c1], s2[c2]) < 0)
    ensures Merging(cmp, s1, s2, cur, c1 + 1, c2)
  {
  }

  lemma MergeEnd<T(!new)>(cmp: (T, T) -> int, s1: seq<T>, s2: seq<T>, cur: seq<T>, c1: nat)
    requires Merging(cmp, s1, s2, cur, c1, |s2|)
    ensures Sorted(cmp, cur) && multiset(cur) == multiset(s1) + multiset(Others(cmp, s2, s1))
  {
    assert s2[..|s2|] == s2;
  }

  /** Of two arrays without doubles, the merge has none either: all of the first, and what only the second has. */
  lemma MergedMeaning<T(!new)>(cmp: (T, T) -> int, s1: seq<T>, s2: seq<T>, r: seq<T>)
    requires Preorder(cmp) && StrictlyIncreasing(cmp, s1) && StrictlyIncreasing(cmp, s2)
    requires Sorted(cmp, r) && multiset(r) == multiset(s1) + multiset(Others(cmp, s2, s1))
    ensures StrictlyIncreasing(cmp, r)
    ensures forall x :: x in r <==> x in s1 || (x in s2 && !Has(cmp, s1, x))
    ensures forall x :: Has(cmp, r, x) <==> Has(cmp, s1, x) || Has(cmp, s2, x)
  {
    hide Preorder, StrictlyIncreasing, Sorted, Has, Others;
    forall x
      ensures x in r <==> x in s1 || (x in s2 && !Has(cmp, s1, x))
    {
      assert x in r <==> x in multiset(r);
      OthersMember(cmp, s2, s1, x);
    }
    forall x {
      MergedHas(cmp, s1, s2, r, x);
    }
    MergedStrict(cmp, s1, s2, r);
  }

  lemma MergedHas<T(!new)>(cmp: (T, T) -> int, s1: seq<T>, s2: seq<T>, r: seq<T>, x: T)
    requires Preorder(cmp)
    requires forall y :: y in r <==> y in s1 || (y in s2 && !Has(cmp, s1, y))
    ensures Has(cmp, r, x) <==> Has(cmp, s1, x) || Has(cmp, s2, x)
  {
    hide Preorder;
    if Has(cmp, s1, x) {
      var k :| 0 <= k < |s1| && cmp(s1[k], x) == 0;
      assert s1[k] in r;
    } else if Has(cmp, s2, x) {
      var k :| 0 <= k < |s2| && cmp(s2[k], x) == 0;
      SameClass(cmp, s1, s2[k], x);
      assert s2[k] in r;
    }
    ItemsIn(r);
  }

  lemma ItemsIn<T>(s: seq<T>)
    ensures forall k :: 0 <= k < |s| ==> s[k] in s
  {
  }

  /** At most one item of each class. */
  lemma MergedStrict<T(!new)>(cmp: (T, T) -> int, s1: seq<T>, s2: seq<T>, r: seq<T>)
    requires Preorder(cmp) && StrictlyIncreasing(cmp, s1) && StrictlyIncreasing(cmp, s2)
    requires Sorted(cmp, r) && multiset(r) == multiset(s1) + multiset(Others(cmp, s2, s1))
    ensures StrictlyIncreasing(cmp, r)
  {
    hide Preorder, Has, Others;
    var others := Others(cmp, s2, s1);
    forall x, y | 0 <= x < y < |r|
      ensures cmp(r[x], r[y]) < 0
    {
      if cmp(r[x], r[y]) == 0 {
        var a, b := r[x], r[y];
        assert a in multiset(r) && b in multiset(r);
        OthersMember(cmp, s2, s1, a);
        OthersMember(cmp, s2, s1, b);
        Reverse(cmp, a, b);
        Reflexive(cmp, a);
        if a == b {
          Twice(r, x, y);
          OnceOnly(cmp, s1, a);
          OnceOnly(cmp, s2, a);
          OthersCount(cmp, s2, s1, a);
          InClass(cmp, s1, a, a);
        } else {
          NotBoth(cmp, s1, a, b);
          NotBoth(cmp, s2, a, b);
          InClass(cmp, s1, a, b);
          InClass(cmp, s1, b, a);
        }
      }
    }
  }

  lemma InClass<T(!new)>(cmp: (T, T) -> int, s: seq<T>, a: T, b: T)
    requires cmp(a, b) == 0
    ensures a in s ==> Has(cmp, s, b)
  {
  }

  lemma Twice<T(!new)>(s: seq<T>, x: nat, y: nat)
    requires x < y < |s| && s[x] == s[y]
    ensures multiset(s)[s[x]] >= 2
  {
    assert s == s[..y] + s[y..];
    assert s[..y][x] == s[x] && s[y..][0] == s[x];
    assert s[x] in multiset(s[..y]) && s[x] in multiset(s[y..]);
  }

  lemma NotBoth<T(!new)>(cmp: (T, T) -> int, s: seq<T>, a: T, b: T)
    requires Preorder(cmp) && StrictlyIncreasing(cmp, s) && a != b && cmp(a, b) == 0
    ensures !(a in s && b in s)
  {
    hide Preorder;
    Reverse(cmp, a, b);
  }

  lemma {:induction false} OnceOnly<T(!new)>(cmp: (T, T) -> int, s: seq<T>, a: T)
    requires StrictlyIncreasing(cmp, s) && cmp(a, a) == 0
    ensures multiset(s)[a] <= 1
  {
    if s != [] {
      var init, x := s[..|s| - 1], s[|s| - 1];
      assert s == init + [x];
      OnceOnly(cmp, init, a);
      if x == a {
        assert a !in init;
        assert a !in multiset(init);
      }
    }
  }

  lemma {:induction false} OthersCount<T(!new)>(cmp: (T, T) -> int, s: seq<T>, t: seq<T>, a: T)
    ensures multiset(Others(cmp, s, t))[a] <= multiset(s)[a]
  {
    if s != [] {
      assert s == s[..|s| - 1] + [s[|s| - 1]];
      OthersCount(cmp, s[..|s| - 1], t, a);
    }
  }

  lemma Larger(a: nat, b: nat)
    requires a > 0 && b > 1
    ensures a * b > a
  {
  }
}
