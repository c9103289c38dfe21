/** The double-hashing table as a finite map with one item for each class of equal keys. */
module HashTable {
  import opened Bytes
  import opened Probing

  datatype Slot<T> = Empty | Deleted | Full(item: T)
  datatype Option<T> = None | Some(value: T)

  // ----- a vector of slots -----

  /** `i` is on the probe sequence of `x`, with no empty slot before it. */
  ghost predicate OnPath<T(!new)>(s: Scheme<T>, vec: seq<Slot<T>>, x: T, i: nat)
    requires |vec| > 0
  {
    exists n: nat :: Probe(s, x, |vec|, n) == i && Clear(s, vec, x, n)
  }

  ghost predicate Clear<T(!new)>(s: Scheme<T>, vec: seq<Slot<T>>, x: T, n: nat)
    requires |vec| > 0
  {
    forall m: nat :: m < n ==> vec[Probe(s, x, |vec|, m)] != Empty
  }

  /** Every item is on its own probe sequence, and no two items are the same. */
  ghost predicate Consistent<T(!new)>(s: Scheme<T>, vec: seq<Slot<T>>)
    requires |vec| > 0
  {
    && (forall i :: 0 <= i < |vec| && vec[i].Full? ==> OnPath(s, vec, vec[i].item, i))
    && (forall i, j | 0 <= i < |vec| && 0 <= j < |vec| && vec[i].Full? && vec[j].Full? ::
        s.Same(vec[i].item, vec[j].item) ==> i == j)
  }

  ghost predicate HasEmpty<T(!new)>(vec: seq<Slot<T>>) {
    exists i :: 0 <= i < |vec| && vec[i].Empty?
  }

  ghost predicate NoTombstones<T(!new)>(vec: seq<Slot<T>>) {
    forall i :: 0 <= i < |vec| ==> !vec[i].Deleted?
  }

  ghost function Items<T(!new)>(vec: seq<Slot<T>>): set<T> {
    set i | 0 <= i < |vec| && vec[i].Full? :: vec[i].item
  }

  /** The number of items. */
  ghost function Count<T(!new)>(vec: seq<Slot<T>>): nat {
    if vec == [] then 0 else Count(vec[..|vec| - 1]) + (if vec[|vec| - 1].Full? then 1 else 0)
  }

  lemma {:induction false} CountUpdate<T(!new)>(vec: seq<Slot<T>>, i: nat, slot: Slot<T>)
    requires i < |vec|
    ensures Count(vec[i := slot]) == Count(vec) - (if vec[i].Full? then 1 else 0) + (if slot.Full? then 1 else 0)
  {
    var init, vec' := vec[..|vec| - 1], vec[i := slot];
    if i < |init| {
      CountUpdate(init, i, slot);
      assert vec'[..|vec| - 1] == init[i := slot];
    } else {
      assert vec'[..|vec| - 1] == init;
    }
  }

  lemma {:induction false} RoomLeft<T(!new)>(vec: seq<Slot<T>>)
    requires NoTombstones(vec) && Count(vec) < |vec|
    ensures HasEmpty(vec)
  {
    if !vec[|vec| - 1].Empty? {
      RoomLeft(vec[..|vec| - 1]);
      var i :| 0 <= i < |vec| - 1 && vec[..|vec| - 1][i].Empty?;
      assert vec[i].Empty?;
    }
  }

  /** The number of slots that are not empty, tombstones included. */
  ghost function Used<T(!new)>(vec: seq<Slot<T>>): nat {
    if vec == [] then 0 else Used(vec[..|vec| - 1]) + (if vec[|vec| - 1].Empty? then 0 else 1)
  }

  lemma {:induction false} UsedUpdate<T(!new)>(vec: seq<Slot<T>>, i: nat, slot: Slot<T>)
    requires i < |vec|
    ensures Used(vec[i := slot]) == Used(vec) - (if vec[i].Empty? then 0 else 1) + (if slot.Empty? then 0 else 1)
  {
    var init, vec' := vec[..|vec| - 1], vec[i := slot];
    if i < |init| {
      UsedUpdate(init, i, slot);
      assert vec'[..|vec| - 1] == init[i := slot];
    } else {
      assert vec'[..|vec| - 1] == init;
    }
  }

  lemma {:induction false} NotAllUsed<T(!new)>(vec: seq<Slot<T>>)
    requires Used(vec) < |vec|
    ensures HasEmpty(vec)
  {
    if !vec[|vec| - 1].Empty? {
      NotAllUsed(vec[..|vec| - 1]);
      var i :| 0 <= i < |vec| - 1 && vec[..|vec| - 1][i].Empty?;
      assert vec[i].Empty?;
    }
  }

  lemma {:induction false} CountEmpty<T(!new)>(vec: seq<Slot<T>>)
    requires forall i :: 0 <= i < |vec| ==> vec[i] == Empty
    ensures Count(vec) == 0 && Used(vec) == 0
  {
    if vec != [] {
      CountEmpty(vec[..|vec| - 1]);
    }
  }

  /** Where a key is found, or where it can be put. */
  ghost predicate Found<T(!new)>(s: Scheme<T>, vec: seq<Slot<T>>, key: T, i: nat)
    requires |vec| > 0
  {
    && i < |vec|
    && (vec[i].Full? ==> s.Same(key, vec[i].item))
    && (!vec[i].Full? ==> OnPath(s, vec, key, i) && forall x :: x in Items(vec) ==> !s.Same(key, x))
  }

  lemma SameProbes<T(!new)>(s: Scheme<T>, x: T, y: T, size: nat, n: nat)
    requires Proper(s) && s.Same(x, y) && size > 0
    ensures Probe(s, x, size, n) == Probe(s, y, size, n)
  {
  }

  /** The first `n` probes have met neither an empty slot nor the key. */
  ghost predicate Passed<T(!new)>(s: Scheme<T>, vec: seq<Slot<T>>, key: T, n: nat)
    requires |vec| > 0
  {
    forall m: nat :: m < n ==>
      var slot := vec[Probe(s, key, |vec|, m)];
      slot != Empty && !(slot.Full? && s.Same(key, slot.item))
  }

  lemma PassedNone<T(!new)>(s: Scheme<T>, vec: seq<Slot<T>>, key: T)
    requires |vec| > 0
    ensures Passed(s, vec, key, 0)
  {
  }

  lemma FoundVacant<T(!new)>(s: Scheme<T>, vec: seq<Slot<T>>, key: T, n: nat, i: nat)
    requires Proper(s) && |vec| > 0 && Consistent(s, vec) && vec[Probe(s, key, |vec|, n)] == Empty
    requires Passed(s, vec, key, n)
    requires i < |vec| && !vec[i].Full? && OnPath(s, vec, key, i)
    ensures Found(s, vec, key, i)
  {
    NotFurther(s, vec, key, n);
  }

  lemma FoundFull<T(!new)>(s: Scheme<T>, vec: seq<Slot<T>>, key: T, i: nat)
    requires i < |vec| && vec[i].Full? && s.Same(key, vec[i].item)
    ensures Found(s, vec, key, i)
  {
  }

  lemma PassedPath<T(!new)>(s: Scheme<T>, vec: seq<Slot<T>>, key: T, n: nat)
    requires |vec| > 0 && Passed(s, vec, key, n)
    ensures OnPath(s, vec, key, Probe(s, key, |vec|, n))
  {
    assert Clear(s, vec, key, n);
  }

  lemma PassedMore<T(!new)>(s: Scheme<T>, vec: seq<Slot<T>>, key: T, n: nat)
    requires |vec| > 0 && Passed(s, vec, key, n)
    requires var slot := vec[Probe(s, key, |vec|, n)]; slot != Empty && !(slot.Full? && s.Same(key, slot.item))
    ensures Passed(s, vec, key, n + 1)
  {
  }

  /** An empty slot ends the search: the key is not further on. */
  lemma NotFurther<T(!new)>(s: Scheme<T>, vec: seq<Slot<T>>, key: T, n: nat)
    requires Proper(s) && |vec| > 0 && Consistent(s, vec) && vec[Probe(s, key, |vec|, n)] == Empty
    requires Passed(s, vec, key, n)
    ensures forall x :: x in Items(vec) ==> !s.Same(key, x)
  {
    hide Proper, Probe;
    forall i | 0 <= i < |vec| && vec[i].Full?
      ensures !s.Same(key, vec[i].item)
    {
      var x := vec[i].item;
      if s.Same(key, x) {
        var k: nat :| Probe(s, x, |vec|, k) == i && Clear(s, vec, x, k);
        SameProbes(s, key, x, |vec|, k);
        SameProbes(s, key, x, |vec|, n);
      }
    }
  }

  /** Putting a key where it was found keeps the table consistent. */
  lemma PutKept<T(!new)>(s: Scheme<T>, vec: seq<Slot<T>>, item: T, i: nat)
    requires Proper(s) && |vec| > 0 && Consistent(s, vec) && Found(s, vec, item, i)
    ensures var vec' := vec[i := Full(item)];
      && Consistent(s, vec')
      && Items(vec') == (set x | x in Items(vec) && !s.Same(item, x)) + {item}
      && Count(vec') == Count(vec) + (if vec[i].Full? then 0 else 1)
      && (NoTombstones(vec) ==> NoTombstones(vec'))
  {
    hide Proper, Probe, OnPath;
    var vec' := vec[i := Full(item)];
    CountUpdate(vec, i, Full(item));
    forall j | 0 <= j < |vec| && vec'[j].Full?
      ensures OnPath(s, vec', vec'[j].item, j)
    {
      if j == i && vec[i].Full? {
        PathOfSame(s, vec, vec[i].item, item, i);
      }
      PathKept(s, vec, i, Full(item), vec'[j].item, j);
    }
    forall j | 0 <= j < |vec| && j != i && vec[j].Full?
      ensures !s.Same(item, vec[j].item) && !s.Same(vec[j].item, item)
    {
      OthersDiffer(s, vec, item, i, j);
    }
    PutItems(s, vec, item, i);
  }

  lemma PathKept<T(!new)>(s: Scheme<T>, vec: seq<Slot<T>>, i: nat, slot: Slot<T>, x: T, j: nat)
    requires i < |vec| && slot != Empty && OnPath(s, vec, x, j)
    ensures OnPath(s, vec[i := slot], x, j)
  {
    hide Probe;
    var n: nat :| Probe(s, x, |vec|, n) == j && Clear(s, vec, x, n);
    assert Clear(s, vec[i := slot], x, n);
  }

  lemma PathOfSame<T(!new)>(s: Scheme<T>, vec: seq<Slot<T>>, x: T, y: T, j: nat)
    requires Proper(s) && s.Same(y, x) && |vec| > 0 && OnPath(s, vec, x, j)
    ensures OnPath(s, vec, y, j)
  {
    hide Probe, Proper;
    var n: nat :| Probe(s, x, |vec|, n) == j && Clear(s, vec, x, n);
    forall m: nat {
      SameProbes(s, y, x, |vec|, m);
    }
    assert Clear(s, vec, y, n);
  }

  lemma OthersDiffer<T(!new)>(s: Scheme<T>, vec: seq<Slot<T>>, item: T, i: nat, j: nat)
    requires Proper(s) && |vec| > 0 && Consistent(s, vec) && Found(s, vec, item, i)
    requires j < |vec| && j != i && vec[j].Full?
    ensures !s.Same(item, vec[j].item) && !s.Same(vec[j].item, item)
  {
    hide OnPath;
    ItemThere(vec, j);
    if vec[i].Full? {
      Triangle(s, item, vec[i].item, vec[j].item);
    }
  }

  lemma ItemThere<T(!new)>(vec: seq<Slot<T>>, i: nat)
    requires i < |vec|
    ensures vec[i].Full? ==> vec[i].item in Items(vec)
  {
  }

  lemma Triangle<T(!new)>(s: Scheme<T>, x: T, y: T, z: T)
    requires Proper(s)
    ensures s.Same(x, y) && s.Same(x, z) ==> s.Same(y, z)
  {
  }

  lemma PutItems<T(!new)>(s: Scheme<T>, vec: seq<Slot<T>>, item: T, i: nat)
    requires i < |vec| && (vec[i].Full? ==> s.Same(item, vec[i].item))
    requires forall j :: 0 <= j < |vec| && j != i && vec[j].Full? ==> !s.Same(item, vec[j].item)
    ensures Items(vec[i := Full(item)]) == (set x | x in Items(vec) && !s.Same(item, x)) + {item}
  {
    var vec' := vec[i := Full(item)];
    forall x | x in Items(vec) && !s.Same(item, x)
      ensures x in Items(vec')
    {
      var j :| 0 <= j < |vec| && vec[j].Full? && vec[j].item == x;
      assert vec'[j] == vec[j];
    }
    assert vec'[i].item in Items(vec');
    forall x | x in Items(vec')
      ensures x == item || (x in Items(vec) && !s.Same(item, x))
    {
      var j :| 0 <= j < |vec| && vec'[j].Full? && vec'[j].item == x;
      assert j != i ==> vec'[j] == vec[j];
    }
  }

  /** Taking an item out leaves a tombstone, which keeps the probe sequences of others whole. */
  lemma DeleteKept<T(!new)>(s: Scheme<T>, vec: seq<Slot<T>>, i: nat)
    requires Proper(s) && |vec| > 0 && i < |vec| && Consistent(s, vec) && vec[i].Full?
    ensures var vec' := vec[i := Deleted];
      Consistent(s, vec') && Items(vec') == Items(vec) - {vec[i].item} && Count(vec') == Count(vec) - 1
    ensures HasEmpty(vec) ==> HasEmpty(vec[i := Deleted])
  {
    hide OnPath;
    var vec' := vec[i := Deleted];
    CountUpdate(vec, i, Deleted);
    forall j | 0 <= j < |vec| && vec'[j].Full?
      ensures OnPath(s, vec', vec'[j].item, j)
    {
      PathKept(s, vec, i, Deleted, vec'[j].item, j);
    }
    DeletedItems(s, vec, i);
    if HasEmpty(vec) {
      var e :| 0 <= e < |vec| && vec[e].Empty?;
      assert vec'[e].Empty?;
    }
  }

  /** Those that do not compare equal to what marks a tombstone. */
  ghost function Unmarked<T(!new)>(s: Scheme<T>, tomb: T, items: set<T>): set<T> {
    set x | x in items && !s.Same(tomb, x)
  }

  /** Nothing compares equal to it. */
  ghost predicate Unlike<T(!new)>(s: Scheme<T>, items: set<T>, tomb: T) {
    forall x :: x in items ==> !s.Same(tomb, x)
  }

  /** A tombstone put where one is looked for, as if it were an item: where there is no item yet, or in the place of
      the one that compares equal, which is lost. */
  lemma TombPut<T(!new)>(s: Scheme<T>, vec: seq<Slot<T>>, tomb: T, i: nat)
    requires Proper(s) && |vec| > 0 && Consistent(s, vec) && Found(s, vec, tomb, i)
    ensures var vec' := vec[i := Deleted];
      && Consistent(s, vec') && Items(vec') == Unmarked(s, tomb, Items(vec)) && Used(vec') <= Used(vec) + 1
      && Count(vec') == Count(vec) - (if Unlike(s, Items(vec), tomb) then 0 else 1)
  {
    UsedUpdate(vec, i, Deleted);
    if vec[i].Full? {
      hide OnPath;
      ItemThere(vec, i);
      DeleteKept(s, vec, i);
      OnlyMarked(s, vec, tomb, i);
    } else {
      TombAdded(s, vec, i);
    }
  }

  lemma OnlyMarked<T(!new)>(s: Scheme<T>, vec: seq<Slot<T>>, tomb: T, i: nat)
    requires Proper(s) && |vec| > 0 && Consistent(s, vec) && i < |vec| && vec[i].Full? && s.Same(tomb, vec[i].item)
    ensures Unmarked(s, tomb, Items(vec)) == Items(vec) - {vec[i].item}
  {
    hide OnPath, Proper;
    forall j | 0 <= j < |vec| && vec[j].Full? && s.Same(tomb, vec[j].item)
      ensures j == i
    {
      Triangle(s, tomb, vec[i].item, vec[j].item);
    }
  }

  lemma TombAdded<T(!new)>(s: Scheme<T>, vec: seq<Slot<T>>, i: nat)
    requires |vec| > 0 && Consistent(s, vec) && i < |vec| && !vec[i].Full?
    ensures var vec' := vec[i := Deleted];
      Consistent(s, vec') && Items(vec') == Items(vec) && Count(vec') == Count(vec)
  {
    hide OnPath;
    var vec' := vec[i := Deleted];
    CountUpdate(vec, i, Deleted);
    forall j | 0 <= j < |vec| && vec'[j].Full?
      ensures OnPath(s, vec', vec'[j].item, j)
    {
      PathKept(s, vec, i, Deleted, vec'[j].item, j);
    }
    assert forall j :: 0 <= j < |vec| ==> (vec'[j].Full? <==> vec[j].Full?) && (vec[j].Full? ==> vec'[j] == vec[j]);
    SameItems(vec, vec');
  }

  lemma SameItems<T(!new)>(vec: seq<Slot<T>>, vec': seq<Slot<T>>)
    requires |vec'| == |vec|
    requires forall j :: 0 <= j < |vec| ==> (vec'[j].Full? <==> vec[j].Full?) && (vec[j].Full? ==> vec'[j] == vec[j])
    ensures Items(vec') == Items(vec)
  {
  }

  lemma DeletedItems<T(!new)>(s: Scheme<T>, vec: seq<Slot<T>>, i: nat)
    requires i < |vec| && vec[i].Full?
    requires forall x, y | 0 <= x < |vec| && 0 <= y < |vec| && vec[x].Full? && vec[y].Full? ::
      s.Same(vec[x].item, vec[y].item) ==> x == y
    requires s.Same(vec[i].item, vec[i].item)
    ensures Items(vec[i := Deleted]) == Items(vec) - {vec[i].item}
  {
    var vec' := vec[i := Deleted];
    forall x | x in Items(vec) && x != vec[i].item
      ensures x in Items(vec')
    {
      var j :| 0 <= j < |vec| && vec[j].Full? && vec[j].item == x;
      assert vec'[j] == vec[j];
    }
  }

  lemma {:induction false} CountAtMost<T(!new)>(vec: seq<Slot<T>>)
    ensures Count(vec) <= |vec|
  {
    if vec != [] {
      CountAtMost(vec[..|vec| - 1]);
    }
  }

  /** When a search comes to an end: there is an empty slot to stop it, or the key is there. */
  lemma SearchEnds<T(!new)>(s: Scheme<T>, vec: seq<Slot<T>>, key: T, k: nat)
    requires |vec| == Pow2(k)
    ensures (exists n: nat :: !Passed(s, vec, key, n)) <==>
      HasEmpty(vec) || exists x :: x in Items(vec) && s.Same(key, x)
  {
    hide Probe, Pow2;
    if HasEmpty(vec) {
      var i :| 0 <= i < |vec| && vec[i].Empty?;
      var n := Covers(s, key, k, i);
      assert !Passed(s, vec, key, n + 1);
    }
    if x :| x in Items(vec) && s.Same(key, x) {
      var i :| 0 <= i < |vec| && vec[i].Full? && vec[i].item == x;
      var n := Covers(s, key, k, i);
      assert !Passed(s, vec, key, n + 1);
    }
  }

  // ----- the table -----

  /** The least power of two above `rough`; 1 for nothing. */
  method RoundUp2(rough: nat) returns (round: nat, ghost k: nat)
    requires rough < WORD / 2
    ensures round == Pow2(k) && rough < round && (rough > 0 ==> round <= 2 * rough) && k <= 64
  {
    hide Pow2, Shifted;
    round, k := 1, 0;
    var left := rough;
    ShiftStart(rough);
    while left > 0
      invariant round == Pow2(k) && Shifted(rough, left, round)
      decreases left
    {
      Halved(left, round, rough);
      DoublePower(k);
      round := 2 * round;
      left := left / 2;
      k := k + 1;
    }
    ShiftEnd(rough, round);
    BoundedPower(k, round);
  }

  /** `left` is `rough` shifted down as often as 1 has been shifted up to `round`. */
  ghost predicate Shifted(rough: nat, left: nat, round: nat) {
    && left * round <= rough < (left + 1) * round
    && (rough > 0 && left == 0 ==> round <= 2 * rough) && (rough == 0 ==> round == 1)
  }

  lemma ShiftStart(rough: nat)
    ensures Shifted(rough, rough, 1) && 1 == Pow2(0)
  {
  }

  lemma ShiftEnd(rough: nat, round: nat)
    requires Shifted(rough, 0, round)
    ensures rough < round && (if rough == 0 then round == 1 else round <= 2 * rough)
  {
  }

  lemma DoublePower(k: nat)
    ensures 2 * Pow2(k) == Pow2(k + 1)
  {
  }

  lemma Halved(left: nat, round: nat, rough: nat)
    requires left > 0 && Shifted(rough, left, round)
    ensures Shifted(rough, left / 2, 2 * round)
  {
    var h := left / 2;
    var up := left - 2 * h;
    Distribute(h, up, round);
    assert left == 2 * h + up;
  }

  lemma Distribute(h: nat, up: nat, round: nat)
    requires up <= 1
    ensures h * (2 * round) <= (2 * h + up) * round && (2 * h + up + 1) * round <= (h + 1) * (2 * round)
    ensures 2 * h + up > 0 ==> (2 * h + up) * round >= round
  {
    assert h * (2 * round) == (2 * h) * round;
    assert (h + 1) * (2 * round) == (2 * h) * round + 2 * round;
    assert (2 * h + up) * round == (2 * h) * round + up * round;
    assert (2 * h + up + 1) * round == (2 * h) * round + up * round + round;
  }

  lemma BoundedPower(k: nat, round: nat)
    requires round == Pow2(k) && round <= WORD
    ensures k <= 64
  {
    WordIsPower();
    if k > 64 {
      Increasing(64, k);
    }
  }

  lemma Increasing(a: nat, b: nat)
    requires a < b
    ensures Pow2(a) < Pow2(b)
    decreases b - a
  {
    if a + 1 < b {
      Increasing(a + 1, b);
    }
  }

  // ----- the table as a map -----

  /** The item takes the place of the one that is the same. */
  ghost function Replaced<T(!new)>(s: Scheme<T>, items: set<T>, item: T): set<T> {
    (set x | x in items && !s.Same(item, x)) + {item}
  }

  ghost function Inserted<T(!new)>(s: Scheme<T>, items: set<T>, history: seq<T>): set<T> {
    if history == [] then items
    else Replaced(s, Inserted(s, items, history[..|history| - 1]), history[|history| - 1])
  }

  ghost function AllOf<T(!new)>(items: seq<T>): set<T> {
    set x | x in items
  }

  /** The last item inserted that is the same as `key`. */
  function LastInserted<T(!new)>(s: Scheme<T>, history: seq<T>, key: T): Option<T> {
    if history == [] then None
    else
      var last := history[|history| - 1];
      if s.Same(key, last) then Some(last) else LastInserted(s, history[..|history| - 1], key)
  }

  /** After any history of insertions, what is the same as a key is the last such item inserted. */
  lemma {:induction false} HistoryLookup<T(!new)>(s: Scheme<T>, history: seq<T>, key: T, x: T)
    requires Proper(s)
    ensures x in Inserted(s, {}, history) && s.Same(key, x) <==> LastInserted(s, history, key) == Some(x)
  {
    if history != [] {
      HistoryLookup(s, history[..|history| - 1], key, x);
      var last := history[|history| - 1];
      hide Proper;
      SameTwice(s, key, last, x);
    }
  }

  lemma SameTwice<T(!new)>(s: Scheme<T>, x: T, y: T, z: T)
    requires Proper(s)
    ensures s.Same(x, y) ==> (s.Same(x, z) <==> s.Same(y, z))
  {
  }

  lemma SizeBound(k: nat, size: nat)
    requires size == Pow2(k) && size <= WORD / 2 + 1 && k <= 64
    ensures k < 64
  {
    WordIsPower();
  }

  lemma NoneYet<T(!new)>(s: Scheme<T>, tomb: T, vec: seq<Slot<T>>, from: seq<Slot<T>>)
    requires |vec| > 0 && forall i :: 0 <= i < |vec| ==> vec[i] == Empty
    ensures Consistent(s, vec) && Items(vec) == Moved(s, tomb, from[..0]) && Count(from[..0]) == 0
    ensures !Overtaken(s, tomb, from[..0])
  {
  }

  lemma OneMoreSlot<T(!new)>(from: seq<Slot<T>>, o: nat)
    requires o < |from|
    ensures Items(from[..o + 1]) == Items(from[..o]) + (if from[o].Full? then {from[o].item} else {})
    ensures Count(from[..o + 1]) == Count(from[..o]) + (if from[o].Full? then 1 else 0)
  {
    assert from[..o + 1][..o] == from[..o];
    var more, fewer := Items(from[..o + 1]), Items(from[..o]) + (if from[o].Full? then {from[o].item} else {});
    forall x | x in more
      ensures x in fewer
    {
      var i :| 0 <= i < o + 1 && from[i].Full? && from[i].item == x;
      assert i < o ==> from[..o][i].item == x;
    }
    forall x | x in fewer
      ensures x in more
    {
      if x in Items(from[..o]) {
        var i :| 0 <= i < o && from[..o][i].Full? && from[..o][i].item == x;
        assert from[..o + 1][i].item == x;
      } else {
        assert from[..o + 1][o].item == x;
      }
    }
  }

  // ----- growing -----

  /** What is in a new table after the slots have been put into it one after another: an item is added, and a
      tombstone takes the place of the item that compares equal to it. */
  ghost function Moved<T(!new)>(s: Scheme<T>, tomb: T, slots: seq<Slot<T>>): set<T> {
    if slots == [] then {}
    else
      var before := Moved(s, tomb, slots[..|slots| - 1]);
      match slots[|slots| - 1]
      case Empty => before
      case Full(x) => before + {x}
      case Deleted => Unmarked(s, tomb, before)
  }

  lemma MovedNext<T(!new)>(s: Scheme<T>, tomb: T, from: seq<Slot<T>>, o: nat)
    requires o < |from|
    ensures var before := Moved(s, tomb, from[..o]);
      Moved(s, tomb, from[..o + 1]) ==
        if from[o].Full? then before + {from[o].item} else if from[o].Deleted? then Unmarked(s, tomb, before)
        else before
  {
    assert from[..o + 1][..o] == from[..o];
  }

  /** An item that compares equal to a tombstone comes before one. */
  ghost predicate Overtaken<T(!new)>(s: Scheme<T>, tomb: T, slots: seq<Slot<T>>) {
    exists i, j | 0 <= i < j < |slots| :: slots[i].Full? && s.Same(tomb, slots[i].item) && slots[j].Deleted?
  }

  ghost predicate Distinct<T(!new)>(s: Scheme<T>, slots: seq<Slot<T>>) {
    forall i, j | 0 <= i < |slots| && 0 <= j < |slots| && slots[i].Full? && slots[j].Full? ::
      s.Same(slots[i].item, slots[j].item) ==> i == j
  }

  lemma {:induction false} MovedItems<T(!new)>(s: Scheme<T>, tomb: T, slots: seq<Slot<T>>)
    requires Proper(s) && Distinct(s, slots)
    ensures Moved(s, tomb, slots) == if Overtaken(s, tomb, slots) then Unmarked(s, tomb, Items(slots)) else Items(slots)
  {
    hide Proper, Items, Overtaken;
    if slots != [] {
      var init, n := slots[..|slots| - 1], |slots| - 1;
      MovedItems(s, tomb, init);
      OneMoreSlot(slots, n);
      assert slots[..n + 1] == slots && slots[..n] == init;
      OvertakenNext(s, tomb, slots);
      if slots[n].Full? && Overtaken(s, tomb, init) {
        OnlyOneMarked(s, tomb, slots);
      }
    } else {
      NothingOvertaken(s, tomb, slots);
    }
  }

  lemma NothingOvertaken<T(!new)>(s: Scheme<T>, tomb: T, slots: seq<Slot<T>>)
    requires slots == []
    ensures !Overtaken(s, tomb, slots) && Items(slots) == {}
  {
  }

  /** When a table grows an item is lost if and only if a tombstone that compares equal to it comes after it. */
  lemma MovedExactly<T(!new)>(s: Scheme<T>, tomb: T, slots: seq<Slot<T>>)
    requires Proper(s) && Distinct(s, slots)
    ensures Moved(s, tomb, slots) == if Overtaken(s, tomb, slots) then Unmarked(s, tomb, Items(slots)) else Items(slots)
    ensures Moved(s, tomb, slots) == Items(slots) <==> !Overtaken(s, tomb, slots)
  {
    hide Proper;
    MovedItems(s, tomb, slots);
    if Overtaken(s, tomb, slots) {
      var i, j :| 0 <= i < j < |slots| && slots[i].Full? && s.Same(tomb, slots[i].item) && slots[j].Deleted?;
      ItemThere(slots, i);
    }
  }

  /** A table of two slots, whose one item is lost. */
  lemma OneLost<T(!new)>(s: Scheme<T>, tomb: T, x: T)
    requires Proper(s) && s.Same(tomb, x) && s.hash1(x) % 2 == 0
    ensures Consistent(s, [Full(x), Deleted]) && Items([Full(x), Deleted]) == {x}
    ensures Moved(s, tomb, [Full(x), Deleted]) == {}
  {
    var slots: seq<Slot<T>> := [Full(x), Deleted];
    assert Probe(s, x, 2, 0) == 0;
    assert Clear(s, slots, x, 0);
    assert OnPath(s, slots, x, 0);
    assert slots[0].item in Items(slots);
    MovedNext(s, tomb, slots, 0);
    MovedNext(s, tomb, slots, 1);
    assert slots[..2] == slots && slots[..0] == [];
  }

  lemma OvertakenNext<T(!new)>(s: Scheme<T>, tomb: T, slots: seq<Slot<T>>)
    requires slots != []
    ensures var init := slots[..|slots| - 1];
      Overtaken(s, tomb, slots) <==>
        Overtaken(s, tomb, init) || (slots[|slots| - 1].Deleted? && !Unlike(s, Items(init), tomb))
  {
    var init, n := slots[..|slots| - 1], |slots| - 1;
    if Overtaken(s, tomb, slots) {
      var i, j :| 0 <= i < j < |slots| && slots[i].Full? && s.Same(tomb, slots[i].item) && slots[j].Deleted?;
      assert init[i] == slots[i];
      ItemThere(init, i);
      assert j < n ==> init[j] == slots[j];
    }
    if Overtaken(s, tomb, init) {
      var i, j :| 0 <= i < j < n && init[i].Full? && s.Same(tomb, init[i].item) && init[j].Deleted?;
      assert slots[i] == init[i] && slots[j] == init[j];
    }
    if slots[n].Deleted? && !Unlike(s, Items(init), tomb) {
      var i :| 0 <= i < n && init[i].Full? && s.Same(tomb, init[i].item);
      assert slots[i] == init[i];
    }
  }

  lemma OnlyOneMarked<T(!new)>(s: Scheme<T>, tomb: T, slots: seq<Slot<T>>)
    requires Proper(s) && slots != [] && Distinct(s, slots) && Overtaken(s, tomb, slots[..|slots| - 1])
    requires slots[|slots| - 1].Full?
    ensures !s.Same(tomb, slots[|slots| - 1].item)
  {
    hide Proper;
    var init, n := slots[..|slots| - 1], |slots| - 1;
    var i, j :| 0 <= i < j < n && init[i].Full? && s.Same(tomb, init[i].item) && init[j].Deleted?;
    assert slots[i] == init[i];
    Triangle(s, tomb, slots[i].item, slots[n].item);
  }

  lemma {:induction false} MovedWithin<T(!new)>(s: Scheme<T>, tomb: T, from: seq<Slot<T>>, o: nat)
    requires o <= |from|
    ensures Moved(s, tomb, from[..o]) <= Items(from[..o])
  {
    if o > 0 {
      MovedWithin(s, tomb, from, o - 1);
      OneMoreSlot(from, o - 1);
      MovedNext(s, tomb, from, o - 1);
    }
  }

  /** Nothing is overtaken where there are no tombstones, or none that compares equal to an item. */
  lemma NotOvertaken<T(!new)>(s: Scheme<T>, tomb: T, slots: seq<Slot<T>>)
    ensures NoTombstones(slots) || Unlike(s, Items(slots), tomb) ==> !Overtaken(s, tomb, slots)
  {
    if Overtaken(s, tomb, slots) {
      var i, j :| 0 <= i < j < |slots| && slots[i].Full? && s.Same(tomb, slots[i].item) && slots[j].Deleted?;
      ItemThere(slots, i);
    }
  }

  /** All the items, but perhaps for one that compares equal to a tombstone. */
  ghost predicate AllBut<T(!new)>(s: Scheme<T>, tomb: T, contents: set<T>, items: set<T>) {
    Unmarked(s, tomb, items) <= contents <= items
  }

  lemma AllButReplaced<T(!new)>(s: Scheme<T>, tomb: T, contents: set<T>, items: set<T>, more: set<T>, item: T)
    requires AllBut(s, tomb, contents, items) && AllBut(s, tomb, more, Replaced(s, contents, item))
    ensures AllBut(s, tomb, more, Replaced(s, items, item))
  {
  }

  /** While moving: the next item is not in the new table yet. */
  lemma NewItem<T(!new)>(s: Scheme<T>, vec: seq<Slot<T>>, from: seq<Slot<T>>, o: nat, slot: nat)
    requires Proper(s) && |vec| > 0 && o < |from| && from[o].Full? && Distinct(s, from)
    requires Items(vec) <= Items(from[..o])
    requires Found(s, vec, from[o].item, slot)
    ensures slot < |vec| && !vec[slot].Full?
    ensures (set x | x in Items(vec) && !s.Same(from[o].item, x)) == Items(vec)
  {
    hide Proper, OnPath;
    forall x | x in Items(vec)
      ensures !s.Same(from[o].item, x)
    {
      var i :| 0 <= i < o && from[..o][i].Full? && from[..o][i].item == x;
      assert from[i] == from[..o][i];
    }
    ItemThere(vec, slot);
  }

  ghost function Listed<T(!new)>(vec: seq<Slot<T>>): seq<T> {
    if vec == [] then []
    else Listed(vec[..|vec| - 1]) + (if vec[|vec| - 1].Full? then [vec[|vec| - 1].item] else [])
  }

  lemma {:induction false} ListedItems<T(!new)>(vec: seq<Slot<T>>)
    ensures |Listed(vec)| == Count(vec) && forall x :: x in Listed(vec) <==> x in Items(vec)
  {
    if vec != [] {
      ListedItems(vec[..|vec| - 1]);
      OneMoreSlot(vec, |vec| - 1);
      assert vec[..|vec|] == vec;
    }
  }

  lemma {:induction false} ListedOnce<T(!new)>(s: Scheme<T>, vec: seq<Slot<T>>)
    requires Proper(s)
    requires forall i, j | 0 <= i < |vec| && 0 <= j < |vec| && vec[i].Full? && vec[j].Full? ::
      s.Same(vec[i].item, vec[j].item) ==> i == j
    ensures |Listed(vec)| == Count(vec) && forall x :: x in Listed(vec) <==> x in Items(vec)
    ensures forall i, j :: 0 <= i < j < |Listed(vec)| ==> Listed(vec)[i] != Listed(vec)[j]
  {
    ListedItems(vec);
    if vec != [] {
      var init, last := vec[..|vec| - 1], vec[|vec| - 1];
      ListedOnce(s, init);
      if last.Full? {
        ListedItems(init);
        forall i | 0 <= i < |init| && init[i].Full?
          ensures init[i].item != last.item
        {
          assert s.Same(last.item, last.item);
          assert vec[i] == init[i];
        }
        assert last.item !in Items(init);
      }
    }
  }

  lemma AsDistinct<T(!new)>(s: Scheme<T>, vec: seq<Slot<T>>)
    requires |vec| > 0 && Consistent(s, vec)
    ensures Distinct(s, vec)
  {
    hide OnPath;
  }

  lemma FoundWhere<T(!new)>(s: Scheme<T>, vec: seq<Slot<T>>, key: T, i: nat)
    requires |vec| > 0 && Found(s, vec, key, i)
    ensures i < |vec|
    ensures vec[i].Full? ==> vec[i].item in Items(vec) && s.Same(key, vec[i].item)
    ensures !vec[i].Full? ==> forall x :: x in Items(vec) ==> !s.Same(key, x)
  {
    hide OnPath;
  }

  lemma NextOvertaken<T(!new)>(s: Scheme<T>, tomb: T, from: seq<Slot<T>>, o: nat)
    requires Proper(s) && |from| > 0 && o < |from| && Consistent(s, from)
    ensures Overtaken(s, tomb, from[..o + 1]) <==>
      Overtaken(s, tomb, from[..o]) || (from[o].Deleted? && !Unlike(s, Moved(s, tomb, from[..o]), tomb))
    ensures Overtaken(s, tomb, from[..o]) ==> Unlike(s, Moved(s, tomb, from[..o]), tomb)
  {
    hide Proper;
    AsDistinct(s, from);
    assert from[..o + 1][..o] == from[..o];
    OvertakenNext(s, tomb, from[..o + 1]);
    MovedExactly(s, tomb, from[..o]);
  }

  class Table<T(==, !new)> {
    var vec: array<Slot<T>>
    var capacity: nat
    var fill: nat
    const scheme: Scheme<T>
    /** What user functions see of a tombstone, when a table grows. */
    const tomb: T
    ghost var k: nat

    /** Searches work. */
    ghost predicate Sound()
      reads this, vec
    {
      Proper(scheme) && k <= 64 && vec.Length == Pow2(k) && vec.Length > 0 && Consistent(scheme, vec[..])
    }

    /** Fifteen sixteenths of the slots, rounded down at first and up after a rehash. */
    ghost predicate CapacityOk()
      reads this
    {
      capacity == vec.Length * 15 / 16 || capacity == vec.Length - vec.Length / 16
    }

    ghost predicate Valid()
      reads this, vec
    {
      Sound() && Count(vec[..]) <= fill && CapacityOk() && (fill < capacity || fill == 0)
    }

    /** The count of items is right, as long as none has been lost to a tombstone. */
    ghost predicate Exact()
      reads this, vec
    {
      fill == Count(vec[..])
    }

    ghost function Contents(): set<T>
      reads this, vec
    {
      Items(vec[..])
    }

    ghost predicate Room()
      reads this, vec
    {
      HasEmpty(vec[..])
    }

    ghost predicate Has(key: T)
      reads this, vec
    {
      exists x :: x in Contents() && scheme.Same(key, x)
    }

    /** A search for the key comes to an end. */
    ghost predicate Searchable(key: T)
      reads this, vec
    {
      Room() || Has(key)
    }

    ghost predicate NeverDeleted()
      reads this, vec
    {
      NoTombstones(vec[..])
    }

    /** The number of slots never used. */
    ghost function Free(): int
      reads this, vec
    {
      vec.Length - Used(vec[..])
    }

    /** There are as many slots never used as items can be added before the table grows. */
    ghost predicate Roomy()
      reads this, vec
    {
      vec.Length >= 16 && Free() >= capacity - fill
    }

    /** One item more, and the table is full. */
    ghost predicate Grows(i: nat)
      requires i < vec.Length
      reads this, vec
    {
      !vec[i].Full? && fill + 1 >= capacity
    }

    lemma FreeRoom()
      requires Free() > 0
      ensures Room()
    {
      NotAllUsed(vec[..]);
    }

    /** As long as nothing has been deleted there is an empty slot, so that every search ends. */
    lemma AlwaysRoom()
      requires NeverDeleted() && Count(vec[..]) < vec.Length
      ensures Room()
    {
      RoomLeft(vec[..]);
    }

    constructor (size: nat, scheme: Scheme<T>, tomb: T)
      requires Proper(scheme) && size < WORD / 2
      ensures Valid() && Exact() && fresh(vec) && Contents() == {} && NeverDeleted() && this.scheme == scheme
      ensures this.tomb == tomb
    {
      hide Proper, Pow2;
      var slots; ghost var e;
      slots, e := RoundUp2(size);
      if slots > 128 * 1024 {
        HalfPower(e);
        slots, e := slots / 2, e - 1;
      }
      this.scheme, this.tomb := scheme, tomb;
      vec := new Slot<T>[slots](_ => Empty);
      capacity := slots * 15 / 16;
      fill := 0;
      k := e;
      new;
      CountEmpty(vec[..]);
    }

    /** The slot of `key`, or the place where it could go. */
    method FindSlot(key: T) returns (i: nat)
      requires Sound() && Searchable(key)
      ensures Found(scheme, vec[..], key, i)
    {
      hide Proper, Probe, Consistent, Items, Pow2, Passed, OnPath, Found;
      ghost var s := vec[..];
      ghost var end := SomeEnd(key);
      var size := vec.Length;
      var deleted := -1;
      var hash1, hash2 := scheme.hash1(key), 0;
      ghost var n := 0;
      FirstProbe(key);
      PassedNone(scheme, s, key);
      while true
        invariant hash1 % size == Probe(scheme, key, size, n) && n <= end
        invariant hash2 == if n == 0 then 0 else scheme.Stride(key)
        invariant Passed(scheme, s, key, n)
        invariant deleted == -1 || (0 <= deleted < size && s[deleted].Deleted? && OnPath(scheme, s, key, deleted))
        decreases end - n
      {
        hash1 := hash1 % size;
        i := hash1;
        var slot := vec[i];
        PassedPath(scheme, s, key, n);
        if slot == Empty {
          if deleted != -1 {
            i := deleted;
          }
          FoundVacant(scheme, s, key, n, i);
          return;
        }
        SameItself(key);
        if slot == Deleted {
          if deleted == -1 {
            deleted := i;
          }
        } else if key == slot.item || scheme.Same(key, slot.item) {
          FoundFull(scheme, s, key, i);
          return;
        }
        if hash2 == 0 {
          hash2 := scheme.Stride(key);
        }
        StepProbe(key, n);
        PassedMore(scheme, s, key, n);
        hash1 := (hash1 + hash2) % WORD;
        n := n + 1;
      }
    }

    /** The item that is the same as `key`, if there is one. */
    method FindItem(key: T) returns (r: Option<T>)
      requires Sound() && Searchable(key)
      ensures r.Some? ==> r.value in Contents() && scheme.Same(key, r.value)
      ensures r.None? ==> forall x :: x in Contents() ==> !scheme.Same(key, x)
    {
      hide Proper, Consistent, OnPath, Pow2;
      var i := FindSlot(key);
      if vec[i].Full? {
        assert vec[i].item in Items(vec[..]);
        r := Some(vec[i].item);
      } else {
        r := None;
      }
    }

    /** Puts the item where it was looked for, and gives back the one that was there. Should the table grow, its
        slots are moved, item and all. */
    method InsertAt(item: T, i: nat) returns (was: T)
      requires Valid() && Found(scheme, vec[..], item, i) && fill < WORD / 4
      modifies this, vec
      ensures Valid() && (vec == old(vec) || fresh(vec)) && (old(NeverDeleted()) ==> NeverDeleted())
      ensures Contents() == if old(Grows(i)) then Moved(scheme, tomb, old(vec[..])[i := Full(item)])
                            else Replaced(scheme, old(Contents()), item)
      ensures AllBut(scheme, tomb, Contents(), Replaced(scheme, old(Contents()), item))
      ensures old(NeverDeleted() || Unlike(scheme, Replaced(scheme, Contents(), item), tomb)) ==>
        Contents() == Replaced(scheme, old(Contents()), item) && (old(Exact()) ==> Exact())
      ensures fill == old(fill) + (if old(vec[i].Full?) then 0 else 1) && Free() + 1 >= old(Free())
      ensures old(Roomy()) ==> Roomy()
      ensures was == if old(vec[i].Full?) then old(vec[i].item) else item
    {
      hide Proper, Consistent, OnPath, Pow2, Count, Items, Found, Overtaken;
      hide Moved, HasEmpty, NoTombstones, Used, Distinct;
      ghost var s := vec[..];
      FoundWhere(scheme, s, item, i);
      PutKept(scheme, s, item, i);
      UsedUpdate(s, i, Full(item));
      if vec[i].Full? {
        was := vec[i].item;
      } else {
        fill := fill + 1;
        was := item;
      }
      vec[i] := Full(item);
      ghost var s' := s[i := Full(item)];
      assert vec[..] == s';
      if fill >= capacity {
        SizeBound(k, vec.Length);
        AsDistinct(scheme, s');
        MovedExactly(scheme, tomb, s');
        NotOvertaken(scheme, tomb, s');
        Rehash();
      }
    }

    /** Puts the item in the place of the one that was the same, if any, and gives that one back. */
    method Insert(item: T) returns (was: T)
      requires Valid() && Searchable(item) && fill < WORD / 4
      modifies this, vec
      ensures Valid() && (vec == old(vec) || fresh(vec)) && (old(NeverDeleted()) ==> NeverDeleted() && Room())
      ensures if old(Has(item)) || old(fill) + 1 < old(capacity) then
        Contents() == Replaced(scheme, old(Contents()), item)
        else exists i: nat :: Found(scheme, old(vec[..]), item, i)
                              && Contents() == Moved(scheme, tomb, old(vec[..])[i := Full(item)])
      ensures AllBut(scheme, tomb, Contents(), Replaced(scheme, old(Contents()), item))
      ensures old(NeverDeleted() || Unlike(scheme, Replaced(scheme, Contents(), item), tomb)) ==>
        Contents() == Replaced(scheme, old(Contents()), item) && (old(Exact()) ==> Exact())
      ensures fill == old(fill) + (if old(Has(item)) then 0 else 1) && Free() + 1 >= old(Free())
      ensures old(Roomy()) ==> Roomy()
      ensures if old(Has(item)) then was in old(Contents()) && scheme.Same(item, was) else was == item
    {
      hide Proper, Consistent, OnPath, Pow2, Count, Items, Found, Moved, HasEmpty, NoTombstones, Used;
      var i := FindSlot(item);
      FoundWhere(scheme, vec[..], item, i);
      was := InsertAt(item, i);
      if NeverDeleted() {
        AlwaysRoom();
      }
    }

    /** Moves everything to a table of twice the size. Tombstones are moved as well, as if they were items. */
    method Rehash()
      requires Sound() && Count(vec[..]) <= fill <= vec.Length && k < 64
      modifies this`vec, this`capacity, this`k
      ensures Valid() && fresh(vec) && Contents() == Moved(scheme, tomb, old(vec[..]))
      ensures Count(vec[..]) == old(Count(vec[..])) - (if Overtaken(scheme, tomb, old(vec[..])) then 1 else 0)
      ensures vec.Length == 2 * old(vec.Length) && capacity == vec.Length - vec.Length / 16
      ensures Room() && Free() >= old(vec.Length) && (old(NeverDeleted()) ==> NeverDeleted())
    {
      hide Proper, Consistent, OnPath, Pow2, Count, Items, Found, Used, Overtaken, Moved;
      var oldVec := vec;
      ghost var from := oldVec[..];
      var size := 2 * vec.Length;
      DoublePower(k);
      k := k + 1;
      capacity := size - size / 16;
      vec := new Slot<T>[size](_ => Empty);
      CountEmpty(vec[..]);
      NoneYet(scheme, tomb, vec[..], from);
      for o := 0 to oldVec.Length
        invariant fresh(vec) && vec != oldVec && vec.Length == size && oldVec[..] == from && Sound()
        invariant Items(vec[..]) == Moved(scheme, tomb, from[..o]) && Used(vec[..]) <= o
        invariant Count(vec[..]) == Count(from[..o]) - (if Overtaken(scheme, tomb, from[..o]) then 1 else 0)
        invariant NoTombstones(from) ==> NeverDeleted()
        modifies vec
      {
        OneMoreSlot(from, o);
        MovedNext(scheme, tomb, from, o);
        NotAllUsed(vec[..]);
        NextOvertaken(scheme, tomb, from, o);
        if oldVec[o].Empty? {
          continue;
        }
        MoveSlot(oldVec[o], from, o);
      }
      assert from[..|from|] == from;
      CountAtMost(from);
      NotAllUsed(vec[..]);
    }

    /** Puts one slot of the old table where it belongs in the new one. */
    method MoveSlot(slot: Slot<T>, ghost from: seq<Slot<T>>, ghost o: nat)
      requires Sound() && Room() && o < |from| && slot == from[o] && !slot.Empty? && Consistent(scheme, from)
      requires Items(vec[..]) == Moved(scheme, tomb, from[..o])
      modifies vec
      ensures Sound() && Items(vec[..]) == Moved(scheme, tomb, from[..o + 1])
      ensures Count(vec[..]) == old(Count(vec[..])) +
        (if slot.Full? then 1 else if Unlike(scheme, Moved(scheme, tomb, from[..o]), tomb) then 0 else -1)
      ensures Used(vec[..]) <= old(Used(vec[..])) + 1
      ensures slot.Full? && old(NeverDeleted()) ==> NeverDeleted()
    {
      hide Proper, Consistent, OnPath, Pow2, Count, Items, Found, Used, Unlike, Moved;
      ghost var s := vec[..];
      MovedNext(scheme, tomb, from, o);
      if slot.Full? {
        var i := FindSlot(slot.item);
        MovedWithin(scheme, tomb, from, o);
        AsDistinct(scheme, from);
        NewItem(scheme, s, from, o, i);
        PutKept(scheme, s, slot.item, i);
        UsedUpdate(s, i, slot);
        vec[i] := slot;
        assert vec[..] == s[i := slot];
      } else {
        var i := FindSlot(tomb);
        FoundWhere(scheme, s, tomb, i);
        TombPut(scheme, s, tomb, i);
        vec[i] := Deleted;
        assert vec[..] == s[i := Deleted];
      }
    }

    /** Takes out the item that is the same as `key`, if there is one, and leaves a tombstone. */
    method Delete(key: T) returns (r: Option<T>)
      requires Valid() && Searchable(key)
      modifies vec, this`fill
      ensures Valid() && (old(Room()) ==> Room())
      ensures r.Some? ==>
        r.value in old(Contents()) && scheme.Same(key, r.value) && Contents() == old(Contents()) - {r.value}
      ensures r.None? ==> Contents() == old(Contents()) && forall x :: x in Contents() ==> !scheme.Same(key, x)
    {
      hide Proper, Consistent, OnPath, Pow2, Count;
      var i := FindSlot(key);
      if vec[i].Full? {
        ghost var s := vec[..];
        assert vec[i].item in Items(s);
        DeleteKept(scheme, s, i);
        r := Some(vec[i].item);
        vec[i] := Deleted;
        assert vec[..] == s[i := Deleted];
        fill := fill - 1;
      } else {
        r := None;
      }
    }

    /** All items, each once. */
    method Dump() returns (v: seq<T>)
      requires Valid()
      ensures |v| == Count(vec[..]) <= fill && forall x :: x in v <==> x in Contents()
      ensures forall i, j :: 0 <= i < j < |v| ==> v[i] != v[j]
    {
      hide Proper, OnPath, Pow2, Items, Count;
      v := [];
      assert vec[..0] == [];
      for o := 0 to vec.Length
        invariant v == Listed(vec[..o])
      {
        assert vec[..o + 1][..o] == vec[..o];
        if vec[o].Full? {
          v := v + [vec[o].item];
        }
      }
      assert vec[..vec.Length] == vec[..];
      ListedOnce(scheme, vec[..]);
    }

    /** Inserts one item after another. With tombstones there must be slots never used, for each item or until the
        table grows. */
    method Load(items: seq<T>)
      requires Valid() && fill + |items| < WORD / 4
      requires NeverDeleted() || Free() > |items| || Roomy()
      modifies this, vec
      ensures Valid() && (old(NeverDeleted()) ==> NeverDeleted()) && (vec == old(vec) || fresh(vec))
      ensures AllBut(scheme, tomb, Contents(), Inserted(scheme, old(Contents()), items))
      ensures old(NeverDeleted() || Unlike(scheme, Contents() + AllOf(items), tomb)) ==>
        Contents() == Inserted(scheme, old(Contents()), items)
    {
      hide Proper, Consistent, Pow2, Items, Used, Count, Moved, OnPath;
      ghost var never, roomy := NeverDeleted(), Roomy();
      ghost var was, all := Contents(), Contents() + AllOf(items);
      ghost var unlike := Unlike(scheme, all, tomb);
      for n := 0 to |items|
        invariant Valid() && (vec == old(vec) || fresh(vec)) && fill <= old(fill) + n
        invariant if never then NeverDeleted() else if roomy then Roomy() else Free() > |items| - n
        invariant AllBut(scheme, tomb, Contents(), Inserted(scheme, was, items[..n])) && Contents() <= all
        invariant never || unlike ==> Contents() == Inserted(scheme, was, items[..n])
      {
        assert items[n] in AllOf(items);
        if NeverDeleted() {
          AlwaysRoom();
        } else {
          FreeRoom();
        }
        ghost var before := Contents();
        var _ := Insert(items[n]);
        assert items[..n + 1][..n] == items[..n];
        AllButReplaced(scheme, tomb, before, Inserted(scheme, was, items[..n]), Contents(), items[n]);
      }
      assert items[..|items|] == items;
    }

    lemma SameItself(x: T)
      requires Proper(scheme)
      ensures scheme.Same(x, x) && scheme.Stride(x) > 0
    {
    }

    lemma FirstProbe(key: T)
      requires vec.Length > 0
      ensures Probe(scheme, key, vec.Length, 0) == scheme.hash1(key) % vec.Length
    {
    }

    lemma StepProbe(key: T, n: nat)
      requires k <= 64 && vec.Length == Pow2(k) && vec.Length > 0 && Proper(scheme)
      ensures ((Probe(scheme, key, vec.Length, n) + scheme.Stride(key)) % WORD) % vec.Length ==
        Probe(scheme, key, vec.Length, n + 1)
      ensures scheme.Stride(key) > 0
    {
      NextProbe(scheme, key, k, n);
    }

    /** Some probe meets an empty slot or the key. */
    lemma SomeEnd(key: T) returns (n: nat)
      requires vec.Length == Pow2(k) && vec.Length > 0 && Searchable(key)
      ensures var slot := vec[..][Probe(scheme, key, vec.Length, n)];
        slot == Empty || (slot.Full? && scheme.Same(key, slot.item))
    {
      var e: nat;
      if Room() {
        e :| 0 <= e < vec.Length && vec[..][e].Empty?;
      } else {
        e :| 0 <= e < vec.Length && vec[..][e].Full? && scheme.Same(key, vec[..][e].item);
      }
      n := Covers(scheme, key, k, e);
    }
  }

  lemma HalfPower(k: nat)
    requires Pow2(k) > 1
    ensures k > 0 && Pow2(k) / 2 == Pow2(k - 1)
  {
  }
}
