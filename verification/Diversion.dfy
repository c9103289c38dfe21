/** Output put off: text is kept until it is dumped, with places left for values that are known only then. */
module Diversion {
  import opened Bytes
  import PostScript

  type Text = seq<byte>

  /** What a place is filled with: a number or a string read from memory at dump time, what a routine
      writes, or a whole other diversion. */
  datatype Derivation =
    | DelayedSize(cell: nat)
    | DelayedString(cell: nat)
    | DelayedRoutine(routine: nat)
    | DelayedChunk(out: Output)

  /** Memory, and what routines write, as they are at dump time. */
  datatype Store = Store(sizes: nat -> nat, strings: nat -> Text, routines: nat -> Text)

  /** The length of a C string. */
  function StrLen(s: Text): (n: nat)
    ensures n <= |s| && (n < |s| ==> s[n] == 0)
    ensures forall k :: 0 <= k < n ==> s[k] != 0
  {
    if s == [] || s[0] == 0 then 0 else 1 + StrLen(s[1..])
  }

  predicate NulFree(s: Text) {
    forall k :: 0 <= k < |s| ==> s[k] != 0
  }

  /** How many places for items there are in a text. */
  function Places(s: Text): nat {
    var n := StrLen(s);
    if n == |s| then 0 else 1 + Places(s[n + 1..])
  }

  /** The text with each place filled. */
  function Filled(s: Text, values: seq<Text>): Text {
    var n := StrLen(s);
    if n == |s| || values == [] then s[..n] else s[..n] + values[0] + Filled(s[n + 1..], values[1..])
  }

  lemma StrLenOf(s: Text, n: nat)
    requires n <= |s| && (n < |s| ==> s[n] == 0) && forall k :: 0 <= k < n ==> s[k] != 0
    ensures StrLen(s) == n
  {
  }

  lemma PlacesFirst(s: Text, n: nat)
    requires n < |s| && StrLen(s) == n
    ensures Places(s) == 1 + Places(s[n + 1..])
  {
    hide StrLen;
  }

  lemma PlacesParts(front: Text, rest: Text)
    requires NulFree(front)
    ensures Places(front) == 0 && Places(front + [0] + rest) == 1 + Places(rest)
  {
    var s := front + [0] + rest;
    StrLenOf(s, |front|);
    StrLenOf(front, |front|);
    PlacesFirst(s, |front|);
    hide StrLen;
    assert s[|front| + 1..] == rest;
  }

  /** Text adds no place, and an item adds one. */
  lemma {:induction false} PlacesAppend(s: Text, t: Text)
    requires NulFree(t)
    ensures Places(s + t) == Places(s) && Places(s + [0]) == Places(s) + 1
  {
    var n := StrLen(s);
    hide Places, StrLen;
    if n == |s| {
      PlacesParts(s + t, []);
      PlacesParts(s, []);
      assert s + [0] + [] == s + [0];
      StrLenOf([], 0);
      PlacesParts([], []);
    } else {
      var front, rest := s[..n], s[n + 1..];
      assert s == front + [0] + rest && s + t == front + [0] + (rest + t) && s + [0] == front + [0] + (rest + [0]);
      PlacesAppend(rest, t);
      PlacesParts(front, rest);
      PlacesParts(front, rest + t);
      PlacesParts(front, rest + [0]);
    }
  }

  lemma FilledFirst(s: Text, values: seq<Text>)
    requires StrLen(s) < |s| && values != []
    ensures Filled(s, values) == s[..StrLen(s)] + values[0] + Filled(s[StrLen(s) + 1..], values[1..])
  {
    hide StrLen;
  }

  lemma {:induction false} FilledText(s: Text, values: seq<Text>, t: Text)
    requires NulFree(t) && Places(s) == |values|
    ensures Filled(s + t, values) == Filled(s, values) + t
  {
    var n := StrLen(s);
    hide StrLen;
    if n == |s| {
      StrLenOf(s + t, |s + t|);
    } else {
      hide Filled, Places;
      PlacesFirst(s, n);
      var front, rest, v0, more := s[..n], s[n + 1..], values[0], values[1..];
      assert s == front + [0] + rest && s + t == front + [0] + (rest + t) && values == [v0] + more;
      FilledParts(front, rest, v0, more);
      FilledParts(front, rest + t, v0, more);
      FilledText(rest, more, t);
      Associative(front + v0, Filled(rest, more), t);
    }
  }

  lemma FilledLast(s: Text, v: Text)
    requires StrLen(s) == |s|
    ensures Filled(s + [0], [v]) == s + v && Filled(s, []) == s
  {
    StrLenOf(s + [0], |s|);
    FilledFirst(s + [0], [v]);
    assert (s + [0])[|s| + 1..] == [] && (s + [0])[..|s|] == s;
    assert Filled([], []) == [];
  }

  /** The text before the first place, and what follows it. */
  lemma FilledParts(front: Text, rest: Text, v: Text, more: seq<Text>)
    requires NulFree(front)
    ensures Filled(front + [0] + rest, [v] + more) == (front + v) + Filled(rest, more)
    ensures Places(front + [0] + rest) == 1 + Places(rest)
  {
    var s := front + [0] + rest;
    StrLenOf(s, |front|);
    FilledFirst(s, [v] + more);
    PlacesFirst(s, |front|);
    hide StrLen, Filled, Places;
    assert s[..|front|] == front && s[|front| + 1..] == rest;
    assert ([v] + more)[1..] == more;
  }

  lemma {:induction false} FilledItem(s: Text, values: seq<Text>, v: Text)
    requires Places(s) == |values|
    ensures Filled(s + [0], values + [v]) == Filled(s, values) + v
  {
    var n := StrLen(s);
    hide StrLen;
    if n == |s| {
      assert values + [v] == [v];
      FilledLast(s, v);
    } else {
      PlacesFirst(s, n);
      hide Filled, Places;
      var front, rest, v0, more := s[..n], s[n + 1..], values[0], values[1..];
      assert s == front + [0] + rest && s + [0] == front + [0] + (rest + [0]);
      assert values == [v0] + more && values + [v] == [v0] + (more + [v]);
      FilledParts(front, rest, v0, more);
      FilledParts(front, rest + [0], v0, more + [v]);
      FilledItem(rest, more, v);
      Associative(front + v0, Filled(rest, more), v);
    }
  }

  // ----- what has been put in a diversion, in order -----

  datatype Issue = Put(text: Text) | Later(item: Derivation)

  ghost function ChunkOf(issued: seq<Issue>): Text {
    if issued == [] then []
    else ChunkOf(issued[..|issued| - 1]) + (match issued[|issued| - 1] case Put(t) => t case Later(_) => [0])
  }

  ghost function ItemsOf(issued: seq<Issue>): seq<Derivation> {
    if issued == [] then []
    else ItemsOf(issued[..|issued| - 1]) + (match issued[|issued| - 1] case Put(_) => [] case Later(d) => [d])
  }

  ghost predicate Plain(issued: seq<Issue>) {
    forall k :: 0 <= k < |issued| && issued[k].Put? ==> NulFree(issued[k].text)
  }

  lemma IssueMore(issued: seq<Issue>, x: Issue)
    ensures var all := issued + [x];
      && ChunkOf(all) == ChunkOf(issued) + (match x case Put(t) => t case Later(_) => [0])
      && ItemsOf(all) == ItemsOf(issued) + (match x case Put(_) => [] case Later(d) => [d])
      && (Plain(all) <==> Plain(issued) && (x.Put? ==> NulFree(x.text)))
  {
    var all := issued + [x];
    assert all[..|issued|] == issued && all[|issued|] == x;
    assert forall k :: 0 <= k < |issued| ==> all[k] == issued[k];
  }

  /** What an item stands for. Diversions within diversions are followed `depth` levels down. */
  ghost function Value(item: Derivation, store: Store, world: set<Output>, depth: nat): Text
    reads world
    decreases depth, 0
  {
    match item
    case DelayedSize(cell) => PostScript.Decimal(store.sizes(cell))
    case DelayedString(cell) => store.strings(cell)
    case DelayedRoutine(r) => store.routines(r)
    case DelayedChunk(o) => if depth > 0 && o in world then Rendered(o.issued, store, world, depth - 1) else []
  }

  /** Text and items in the order in which they were issued. */
  ghost function Rendered(issued: seq<Issue>, store: Store, world: set<Output>, depth: nat): Text
    reads world
    decreases depth, 1, |issued|
  {
    if issued == [] then []
    else
      Rendered(issued[..|issued| - 1], store, world, depth) +
      (match issued[|issued| - 1] case Put(t) => t case Later(d) => Value(d, store, world, depth))
  }

  ghost function Values(items: seq<Derivation>, store: Store, world: set<Output>, depth: nat): (r: seq<Text>)
    reads world
    ensures |r| == |items|
  {
    seq(|items|, k requires 0 <= k < |items| reads world => Value(items[k], store, world, depth))
  }

  /** Diversions nested no deeper than `depth`. */
  ghost predicate Within(o: Output, world: set<Output>, depth: nat)
    reads world
    decreases depth
  {
    && o in world && o.Valid()
    && forall k :: 0 <= k < |o.derivations| && o.derivations[k].DelayedChunk? ==>
         depth > 0 && Within(o.derivations[k].out, world, depth - 1)
  }

  /** Filling the places of the text amounts to issuing everything in order. */
  lemma {:induction false} FilledInOrder(issued: seq<Issue>, store: Store, world: set<Output>, depth: nat)
    requires Plain(issued)
    ensures Places(ChunkOf(issued)) == |ItemsOf(issued)|
    ensures Filled(ChunkOf(issued), Values(ItemsOf(issued), store, world, depth)) ==
      Rendered(issued, store, world, depth)
  {
    hide Value;
    if issued != [] {
      var init, last := issued[..|issued| - 1], issued[|issued| - 1];
      FilledInOrder(init, store, world, depth);
      var s, items := ChunkOf(init), ItemsOf(init);
      match last {
        case Put(t) =>
          assert issued[|issued| - 1].Put?;
          PlacesAppend(s, t);
          FilledText(s, Values(items, store, world, depth), t);
          assert ItemsOf(issued) == items;
        case Later(d) =>
          PlacesAppend(s, []);
          FilledItem(s, Values(items, store, world, depth), Value(d, store, world, depth));
          assert Values(items + [d], store, world, depth) ==
            Values(items, store, world, depth) + [Value(d, store, world, depth)];
      }
    }
  }

  lemma CharIssued(issued: seq<Issue>, c: byte)
    requires Plain(issued)
    ensures var all := issued + [Put([c])];
      && ChunkOf(all) == ChunkOf(issued) + [c] && ItemsOf(all) == ItemsOf(issued)
      && (c != 0 ==> Plain(all))
      && (c == 0 ==> Places(ChunkOf(issued) + [c]) == |ItemsOf(issued)| + 1)
  {
    hide Places, ChunkOf, ItemsOf, Plain;
    IssueMore(issued, Put([c]));
    NulIssued(issued);
    assert c == 0 ==> [c] == [0];
  }

  lemma NulIssued(issued: seq<Issue>)
    requires Plain(issued)
    ensures Places(ChunkOf(issued) + [0]) == |ItemsOf(issued)| + 1
  {
    hide Places, ChunkOf, ItemsOf, Filled, Rendered;
    FilledInOrder(issued, Store(_ => 0, _ => [], _ => []), {}, 0);
    PlacesAppend(ChunkOf(issued), []);
  }

  class Output {
    var chunk: Text
    var derivations: seq<Derivation>
    var toVoid: bool
    ghost var issued: seq<Issue>

    /** Each delayed item has its place in the text. */
    ghost predicate Valid()
      reads this
    {
      chunk == ChunkOf(issued) && derivations == ItemsOf(issued) && Plain(issued)
    }

    constructor ()
      ensures Valid() && issued == [] && !toVoid
    {
      chunk, derivations, toVoid, issued := [], [], false, [];
    }

    /** Text is taken up to its terminating NUL. */
    method Print(text: Text)
      requires Valid()
      modifies `chunk, `issued
      ensures Valid()
      ensures issued == if toVoid then old(issued) else old(issued) + [Put(text[..StrLen(text)])]
    {
      if !toVoid {
        chunk := chunk + text[..StrLen(text)];
        issued := issued + [Put(text[..StrLen(text)])];
        assert issued[..|issued| - 1] == old(issued);
      }
    }

    /** A single character. A NUL is taken for the place of an item, of which there is none. */
    method PrintChar(c: byte)
      requires Valid()
      modifies `chunk, `issued
      ensures toVoid || c != 0 ==> Valid() && issued == if toVoid then old(issued) else old(issued) + [Put([c])]
      ensures !toVoid && c == 0 ==> Places(chunk) == |derivations| + 1
    {
      if !toVoid {
        hide Places, ChunkOf, ItemsOf, Plain;
        CharIssued(issued, c);
        chunk := chunk + [c];
        issued := issued + [Put([c])];
      }
    }

    /** A delayed number, string, routine or chunk. */
    method Delay(item: Derivation)
      requires Valid()
      modifies `chunk, `derivations, `issued
      ensures Valid()
      ensures issued == if toVoid then old(issued) else old(issued) + [Later(item)]
    {
      if !toVoid {
        chunk := chunk + [0];
        derivations := derivations + [item];
        issued := issued + [Later(item)];
        assert issued[..|issued| - 1] == old(issued);
      }
    }

    /** Everything in order; a diversion within is dumped where it was put. */
    method Dump(store: Store, ghost world: set<Output>, ghost depth: nat) returns (stream: Text)
      requires Within(this, world, depth)
      ensures stream == Rendered(issued, store, world, depth)
      decreases depth, 1
    {
      hide Rendered, Value, Valid, Filled, Places, AfterPiece, Pending, Within;
      ghost var whole := Rendered(issued, store, world, depth);
      ghost var values := Values(derivations, store, world, depth);
      DumpStart(store, world, depth);
      var piece := StrLen(chunk);
      stream := chunk[..piece];
      for i := 0 to |derivations|
        invariant piece <= |chunk|
        invariant stream + AfterPiece(chunk, piece, values[i..]) == whole
        invariant Pending(chunk, piece, |derivations| - i)
      {
        ItemWithin(world, depth, i);
        var text := Underivation(derivations[i], store, world, depth);
        ghost var out := AfterStep(chunk, piece, values[i..], stream);
        assert values[i..][1..] == values[i + 1..] && values[i..][0] == text;
        stream := stream + text;
        piece := piece + 1;
        var end := piece + StrLen(chunk[piece..]);
        stream := stream + chunk[piece..end];
        piece := end;
        assert stream == out;
      }
      LastPiece(chunk, piece);
    }

    lemma ItemWithin(world: set<Output>, depth: nat, i: nat)
      requires Within(this, world, depth) && i < |derivations|
      ensures derivations[i].DelayedChunk? ==> depth > 0 && Within(derivations[i].out, world, depth - 1)
    {
    }

    lemma DumpStart(store: Store, world: set<Output>, depth: nat)
      requires Within(this, world, depth)
      ensures var values := Values(derivations, store, world, depth);
        && chunk[..StrLen(chunk)] + AfterPiece(chunk, StrLen(chunk), values[0..]) ==
            Rendered(issued, store, world, depth)
        && Pending(chunk, StrLen(chunk), |derivations|)
    {
      FilledInOrder(issued, store, world, depth);
      hide Value, Rendered, Within;
      var values := Values(derivations, store, world, depth);
      assert values[0..] == values;
      FirstPiece(chunk, values);
    }
  }

  lemma FirstPiece(chunk: Text, values: seq<Text>)
    requires Places(chunk) == |values|
    ensures chunk[..StrLen(chunk)] + AfterPiece(chunk, StrLen(chunk), values) == Filled(chunk, values)
    ensures Pending(chunk, StrLen(chunk), |values|)
  {
    var n := StrLen(chunk);
    if n < |chunk| {
      Associative(chunk[..n], values[0], Filled(chunk[n + 1..], values[1..]));
    }
  }

  lemma LastPiece(chunk: Text, piece: nat)
    requires Pending(chunk, piece, 0)
    ensures piece == |chunk| && AfterPiece(chunk, piece, []) == []
  {
  }

  /** What is still to come when the text up to `piece`, where there is a place if there are items left, is out. */
  ghost function AfterPiece(chunk: Text, piece: nat, values: seq<Text>): Text {
    if values == [] || piece >= |chunk| then [] else values[0] + Filled(chunk[piece + 1..], values[1..])
  }

  ghost predicate Pending(chunk: Text, piece: nat, items: nat) {
    if piece == |chunk| then items == 0
    else piece < |chunk| && items > 0 && Places(chunk[piece + 1..]) == items - 1
  }

  lemma SamePiece(chunk: Text, start: nat, n: nat, values: seq<Text>)
    requires start + n <= |chunk|
    ensures chunk[start..][..n] == chunk[start..start + n]
    ensures AfterPiece(chunk[start..], n, values) == AfterPiece(chunk, start + n, values)
    ensures Pending(chunk[start..], n, |values|) == Pending(chunk, start + n, |values|)
  {
    hide Filled, Places;
    if start + n < |chunk| {
      assert chunk[start..][n + 1..] == chunk[start + n + 1..];
    }
  }

  /** One item and the text after it. */
  lemma AfterStep(chunk: Text, piece: nat, values: seq<Text>, stream: Text) returns (out: Text)
    requires values != [] && Pending(chunk, piece, |values|)
    ensures piece < |chunk|
    ensures var end := piece + 1 + StrLen(chunk[piece + 1..]);
      && end <= |chunk| && out == stream + values[0] + chunk[piece + 1..end]
      && out + AfterPiece(chunk, end, values[1..]) == stream + AfterPiece(chunk, piece, values)
      && Pending(chunk, end, |values| - 1)
  {
    hide Filled, Places, StrLen;
    var rest := chunk[piece + 1..];
    var n := StrLen(rest);
    out := stream + values[0] + rest[..n];
    FirstPiece(rest, values[1..]);
    SamePiece(chunk, piece + 1, n, values[1..]);
    assert AfterPiece(chunk, piece, values) == values[0] + Filled(rest, values[1..]);
    hide AfterPiece, Pending;
    Regroup(stream, values[0], rest[..n], AfterPiece(chunk, piece + 1 + n, values[1..]), Filled(rest, values[1..]));
  }

  lemma Regroup(stream: Text, v: Text, p: Text, after: Text, filled: Text)
    requires p + after == filled
    ensures stream + v + p + after == stream + (v + filled)
  {
    Associative(stream + v, p, after);
    Associative(stream, v, filled);
  }

  /** Fills one place. */
  method Underivation(item: Derivation, store: Store, ghost world: set<Output>, ghost depth: nat) returns (text: Text)
    requires item.DelayedChunk? ==> depth > 0 && Within(item.out, world, depth - 1)
    ensures text == Value(item, store, world, depth)
    decreases depth, 0
  {
    match item {
      case DelayedSize(cell) => text := PostScript.Decimal(store.sizes(cell));
      case DelayedString(cell) => text := store.strings(cell);
      case DelayedRoutine(r) => text := store.routines(r);
      case DelayedChunk(o) => text := o.Dump(store, world, depth - 1);
    }
  }
}
