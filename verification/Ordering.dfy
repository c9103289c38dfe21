/** Comparison functions, and sequences sorted by one. */
module Ordering {
  /** `cmp` compares as a total preorder: distinct items may compare equal. */
  ghost predicate Preorder<T(!new)>(cmp: (T, T) -> int) {
    && (forall x, y :: cmp(x, y) < 0 <==> cmp(y, x) > 0)
    && (forall x, y, z :: cmp(x, y) <= 0 && cmp(y, z) <= 0 ==> cmp(x, z) <= 0)
  }

  ghost predicate Sorted<T(!new)>(cmp: (T, T) -> int, s: seq<T>) {
    forall x, y :: 0 <= x < y < |s| ==> cmp(s[x], s[y]) <= 0
  }

  ghost predicate StrictlyIncreasing<T(!new)>(cmp: (T, T) -> int, s: seq<T>) {
    forall x, y :: 0 <= x < y < |s| ==> cmp(s[x], s[y]) < 0
  }

  lemma Transitive<T(!new)>(cmp: (T, T) -> int, x: T, y: T, z: T)
    requires Preorder(cmp) && cmp(x, y) <= 0 && cmp(y, z) <= 0
    ensures cmp(x, z) <= 0
    ensures cmp(x, y) < 0 || cmp(y, z) < 0 ==> cmp(x, z) < 0
  {
    if cmp(x, z) >= 0 {
      assert cmp(z, x) <= 0;
      assert cmp(z, y) <= 0;
      assert cmp(y, x) <= 0;
    }
  }

  lemma Reflexive<T(!new)>(cmp: (T, T) -> int, x: T)
    requires Preorder(cmp)
    ensures cmp(x, x) == 0
  {
    assert cmp(x, x) < 0 <==> cmp(x, x) > 0;
  }

  lemma Reverse<T(!new)>(cmp: (T, T) -> int, x: T, y: T)
    requires Preorder(cmp)
    ensures cmp(x, y) < 0 <==> cmp(y, x) > 0
    ensures cmp(x, y) == 0 <==> cmp(y, x) == 0
  {
    assert cmp(x, y) < 0 <==> cmp(y, x) > 0;
    assert cmp(y, x) < 0 <==> cmp(x, y) > 0;
  }

  /** Only s[l..r] differs, and that by a permutation. */
  ghost predicate Permuted<T>(s: seq<T>, s': seq<T>, l: nat, r: nat) {
    && l <= r <= |s| && |s'| == |s|
    && (forall k :: 0 <= k < |s| && !(l <= k < r) ==> s'[k] == s[k])
    && multiset(s'[l..r]) == multiset(s[l..r])
  }

  lemma SwapPermutes<T>(s: seq<T>, i: nat, j: nat, l: nat, r: nat)
    requires l <= i < r && l <= j < r && r <= |s|
    ensures Permuted(s, s[i := s[j]][j := s[i]], l, r)
  {
    var t := s[l..r];
    assert s[i := s[j]][j := s[i]][l..r] == t[i - l := t[j - l]][j - l := t[i - l]];
    SameMultiset(t, i - l, j - l);
  }

  lemma SameMultiset<T>(t: seq<T>, i: nat, j: nat)
    requires i < |t| && j < |t|
    ensures multiset(t[i := t[j]][j := t[i]]) == multiset(t)
  {
    if i != j {
      assert multiset(t[i := t[j]]) == multiset(t) - multiset{t[i]} + multiset{t[j]};
    }
  }

  lemma PermutedThen<T>(s: seq<T>, s': seq<T>, s'': seq<T>, l: nat, r: nat)
    requires Permuted(s, s', l, r) && Permuted(s', s'', l, r)
    ensures Permuted(s, s'', l, r)
  {
  }

  /** A permutation of a part is a permutation of the whole. */
  lemma PermutedWhole<T>(s: seq<T>, s': seq<T>, l: nat, r: nat, l': nat, r': nat)
    requires Permuted(s, s', l, r) && l' <= l && r <= r' <= |s|
    ensures Permuted(s, s', l', r')
  {
    assert s[l'..r'] == s[l'..l] + s[l..r] + s[r..r'];
    assert s'[l'..r'] == s'[l'..l] + s'[l..r] + s'[r..r'];
    assert s[l'..l] == s'[l'..l] && s[r..r'] == s'[r..r'];
  }

  /** Every item of the permuted part was there before. */
  lemma PermutedItem<T>(s: seq<T>, s': seq<T>, l: nat, r: nat, k: nat) returns (k': nat)
    requires Permuted(s, s', l, r) && l <= k < r
    ensures l <= k' < r && s'[k] == s[k']
  {
    assert s'[l..r][k - l] == s'[k];
    assert s'[k] in multiset(s'[l..r]);
    assert s'[k] in multiset(s[l..r]);
    var m :| 0 <= m < r - l && s[l..r][m] == s'[k];
    k' := l + m;
  }
}
