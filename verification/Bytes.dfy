/** Bytes, machine words, the two-byte numbers stored in compiled patterns, and bit tests. */
module Bytes {
  type byte = x: int | 0 <= x < 256

  /** Unsigned arithmetic is modulo this. */
  const WORD: nat := 0x1_0000_0000_0000_0000

  /** The two bytes written by STORE_NUMBER: low byte first, the rest truncated. */
  function NumberBytes(n: int): (s: seq<byte>)
    ensures |s| == 2
  {
    [n % 256, (n / 256) % 256]
  }

  /** EXTRACT_NUMBER: the second byte is sign-extended. */
  function NumberAt(lo: byte, hi: byte): int {
    lo + 256 * (if hi < 128 then hi else hi - 256)
  }

  /** A jump displacement survives being stored exactly when it fits in sixteen signed bits. */
  lemma NumberRoundTrip(n: int)
    ensures NumberAt(NumberBytes(n)[0], NumberBytes(n)[1]) == n <==> -32768 <= n < 32768
  {
    assert n == 256 * (n / 256) + n % 256;
    var q := n / 256;
    if -32768 <= n < 32768 {
      if q < 0 {
        assert q % 256 == q + 256;
      } else {
        assert q % 256 == q;
      }
    } else {
      var hi: byte := q % 256;
      assert -32768 <= NumberAt(n % 256, hi) < 32768;
    }
  }

  lemma Associative<T>(a: seq<T>, b: seq<T>, c: seq<T>)
    ensures a + (b + c) == (a + b) + c
  {
  }

  function Pow2(n: nat): (r: nat)
    ensures r > 0
  {
    if n == 0 then 1 else 2 * Pow2(n - 1)
  }

  lemma {:induction false} Pow2Grows(a: nat, b: nat)
    requires a < b
    ensures 2 * Pow2(a) <= Pow2(b)
    decreases b
  {
    if a < b - 1 {
      Pow2Grows(a, b - 1);
    }
  }

  /** Bit `k` of `b`, low bit first: `b & (1 << k)`. */
  predicate Bit(b: nat, k: nat) {
    if k == 0 then b % 2 == 1 else Bit(b / 2, k - 1)
  }

  /** `b | (1 << k)`, on a word of `n` bits. */
  function WithBit(b: nat, k: nat, n: nat): (r: nat)
    requires k < n && b < Pow2(n)
    ensures r < Pow2(n)
    ensures forall m: nat :: Bit(r, m) <==> m == k || Bit(b, m)
  {
    if k == 0 then
      var r := if b % 2 == 1 then b else b + 1;
      assert r / 2 == b / 2;
      assert forall m: nat :: m > 0 ==> (Bit(r, m) <==> Bit(r / 2, m - 1));
      r
    else
      var h := WithBit(b / 2, k - 1, n - 1);
      var r := b % 2 + 2 * h;
      assert r / 2 == h;
      assert forall m: nat :: m > 0 ==> (Bit(r, m) <==> Bit(h, m - 1));
      r
  }

  lemma ByteBound()
    ensures Pow2(8) == 256
  {
    assert Pow2(4) == 16;
  }

  function Ascii(s: string): (r: seq<byte>)
    requires forall k :: 0 <= k < |s| ==> s[k] < 128 as char
  {
    seq(|s|, k requires 0 <= k < |s| => s[k] as int)
  }
}
