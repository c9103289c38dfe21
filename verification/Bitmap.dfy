/** Bracket expressions as bitmaps. */
module Bitmap {
  import opened Bytes
  import opened Bytecode
  import opened CodeTree

  const MAP_BYTES := 32

  /** `b[c / 8] |= 1 << (c % 8)` adds exactly `c`. */
  lemma SetBit(bitmap: seq<byte>, c: byte, members: set<byte>)
    requires |bitmap| == MAP_BYTES && Represents(bitmap, members)
    ensures Pow2(8) == 256
    ensures Represents(bitmap[c / 8 := WithBit(bitmap[c / 8], c % 8, 8)], members + {c})
  {
    ByteBound();
    var bitmap' := bitmap[c / 8 := WithBit(bitmap[c / 8], c % 8, 8)];
    forall x: byte
      ensures InBitmap(bitmap', x) <==> x in members + {c}
    {
      assert InBitmap(bitmap, x) <==> x in members;
      assert x == c <==> x / 8 == c / 8 && x % 8 == c % 8;
    }
  }

  lemma EmptyMap(bitmap: seq<byte>)
    requires |bitmap| == MAP_BYTES && forall k :: 0 <= k < MAP_BYTES ==> bitmap[k] == 0
    ensures Represents(bitmap, {})
  {
    forall x: byte ensures !InBitmap(bitmap, x) {
      ZeroBit(x % 8);
    }
  }

  lemma ZeroBit(k: nat)
    ensures !Bit(0, k)
  {
  }

  /** A zero byte at the end of the map can be dropped. */
  lemma DropZero(bitmap: seq<byte>, members: set<byte>)
    requires bitmap != [] && bitmap[|bitmap| - 1] == 0 && Represents(bitmap, members)
    ensures Represents(bitmap[..|bitmap| - 1], members)
  {
    forall x: byte ensures InBitmap(bitmap[..|bitmap| - 1], x) <==> x in members {
      assert InBitmap(bitmap, x) <==> x in members;
      ZeroBit(x % 8);
    }
  }
}
