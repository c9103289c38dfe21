/** Open addressing: a power-of-two number of slots, probed with an odd stride. */
module Probing {
  import opened Bytes

  /** What a table needs to know of its keys: two hash values and whether two keys are the same. */
  datatype Scheme<!T> = Scheme(hash1: T -> nat, hash2: T -> nat, compare: (T, T) -> int)
  {
    predicate Same(x: T, y: T) {
      compare(x, y) == 0
    }

    /** `hash_2 (key) | 1`. */
    function Stride(x: T): nat {
      if hash2(x) % 2 == 1 then hash2(x) else hash2(x) + 1
    }
  }

  /** The comparison is an equivalence, same keys hash alike, and hash values fit in a word. */
  ghost predicate Proper<T(!new)>(s: Scheme<T>) {
    && (forall x :: s.Same(x, x))
    && (forall x, y :: s.Same(x, y) ==> s.Same(y, x) && s.hash1(x) == s.hash1(y) && s.hash2(x) == s.hash2(y))
    && (forall x, y, z :: s.Same(x, y) && s.Same(y, z) ==> s.Same(x, z))
    && (forall x :: s.hash1(x) < WORD && s.hash2(x) < WORD)
  }

  /** The slot looked at after `n` others. */
  function Probe<T>(s: Scheme<T>, x: T, size: nat, n: nat): (r: nat)
    requires size > 0
    ensures r < size
  {
    (s.hash1(x) + n * s.Stride(x)) % size
  }

  // ----- every slot is probed -----

  lemma {:induction false} Reaches(h: int, stride: nat, k: nat, t: int) returns (n: nat, q: int)
    requires stride % 2 == 1
    ensures h + n * stride == t + q * Pow2(k) && n < Pow2(k)
  {
    if k == 0 {
      n, q := 0, h - t;
    } else {
      n, q := Reaches(h, stride, k - 1, t);
      var p := Pow2(k - 1);
      if q % 2 == 0 {
        q := q / 2;
        assert 2 * q * p == q * (2 * p);
      } else {
        Carry(h, n, stride, t, q, p);
        n, q := n + p, (q + stride) / 2;
      }
    }
  }

  lemma Carry(h: int, n: nat, stride: nat, t: int, q: int, p: nat)
    requires h + n * stride == t + q * p && q % 2 == 1 && stride % 2 == 1
    ensures h + (n + p) * stride == t + ((q + stride) / 2) * (2 * p)
  {
    var r := (q + stride) / 2;
    assert 2 * r == q + stride;
    assert (n + p) * stride == n * stride + p * stride;
    assert r * (2 * p) == (2 * r) * p == (q + stride) * p;
  }

  /** Each slot is probed once among the first `size` probes. */
  lemma Covers<T>(s: Scheme<T>, x: T, k: nat, slot: nat) returns (n: nat)
    requires slot < Pow2(k)
    ensures n < Pow2(k) && Probe(s, x, Pow2(k), n) == slot
  {
    var q: int;
    n, q := Reaches(s.hash1(x), s.Stride(x), k, slot);
    RemainderOf(s.hash1(x) + n * s.Stride(x), slot, q, Pow2(k));
  }

  lemma RemainderOf(a: int, r: nat, q: int, m: nat)
    requires a == r + q * m && r < m
    ensures a % m == r
  {
    var d := a / m;
    assert a == d * m + a % m;
    assert (d - q) * m == r - a % m;
    AtLeastOnce(d - q, m);
  }

  lemma AtLeastOnce(x: int, m: nat)
    ensures x >= 1 ==> x * m >= m
    ensures x <= -1 ==> x * m <= -(m as int)
  {
    if x >= 1 {
      assert x * m == (x - 1) * m + m;
    } else if x <= -1 {
      assert x * m == (x + 1) * m - m;
    }
  }

  // ----- stepping on from one probe to the next -----

  /** Adding the stride wraps around at the word size, which does not show modulo the table size. */
  lemma NextProbe<T>(s: Scheme<T>, x: T, k: nat, n: nat)
    requires k <= 64
    ensures ((Probe(s, x, Pow2(k), n) + s.Stride(x)) % WORD) % Pow2(k) == Probe(s, x, Pow2(k), n + 1)
  {
    var c := SizeDividesWord(k);
    hide Pow2;
    NextRemainder(s.hash1(x), n, s.Stride(x), Pow2(k), c);
  }

  lemma NextRemainder(h: nat, n: nat, stride: nat, size: nat, c: nat)
    requires size > 0 && c * size == WORD
    ensures (((h + n * stride) % size + stride) % WORD) % size == (h + (n + 1) * stride) % size
  {
    var a := h + n * stride;
    assert h + (n + 1) * stride == a + stride;
    var d := a / size;
    assert a == d * size + a % size;
    RemainderMod(a % size + stride, size, c);
    SameRemainder(a % size + stride, d, size);
  }

  lemma SameRemainder(b: nat, d: int, size: nat)
    requires size > 0
    ensures (b + d * size) % size == b % size
  {
    var e := b / size;
    assert b == e * size + b % size;
    RemainderOf(b + d * size, b % size, d + e, size);
  }

  lemma RemainderMod(b: nat, size: nat, c: nat)
    requires size > 0 && c * size == WORD
    ensures (b % WORD) % size == b % size
  {
    var e := b / WORD;
    assert b == e * WORD + b % WORD;
    assert e * WORD == (e * c) * size;
    SameRemainder(b % WORD, e * c, size);
  }

  lemma SizeDividesWord(k: nat) returns (c: nat)
    requires k <= 64
    ensures c * Pow2(k) == WORD
  {
    PowSum(64 - k, k);
    WordIsPower();
    c := Pow2(64 - k);
  }

  lemma WordIsPower()
    ensures Pow2(64) == WORD
  {
    ByteBound();
    hide Pow2;
    PowSum(8, 8);
    PowSum(16, 16);
    PowSum(32, 32);
  }

  lemma {:induction false} PowSum(a: nat, b: nat)
    ensures Pow2(a) * Pow2(b) == Pow2(a + b)
  {
    if a > 0 {
      PowSum(a - 1, b);
      assert Pow2(a) * Pow2(b) == 2 * (Pow2(a - 1) * Pow2(b));
    }
  }
}
