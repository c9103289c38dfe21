/** Lists of characters between brackets, as they are meant and as they are written. */
module BracketLists {
  import opened Bytes
  import opened EreParser
  import opened Ere

  /** A character, or a range of them. */
  datatype Item = Lone(c: byte) | Span(lo: byte, hi: byte)

  function Spell(i: Item): (s: Text)
    ensures s != []
  {
    match i
    case Lone(c) => [c]
    case Span(lo, hi) => [lo, DASH, hi]
  }

  function FirstOf(i: Item): byte {
    Spell(i)[0]
  }

  function SpellItems(items: seq<Item>): Text {
    if items == [] then [] else Spell(items[0]) + SpellItems(items[1..])
  }

  /** The whole list, with its brackets. */
  function SpellList(items: seq<Item>, negated: bool): Text {
    [LBRACKET] + (if negated then [HAT] else []) + SpellItems(items) + [RBRACKET]
  }

  /** A range up to the opening bracket. */
  predicate EndsOpen(i: Item) {
    i.Span? && i.hi == LBRACKET
  }

  /** What is written can be read in one way only: a bracket that closes comes first or not at all, and ends no range;
      a hyphen comes first or last, or after a range that ends with an opening bracket; no opening
      bracket comes before a colon. */
  predicate ItemClear(items: seq<Item>, k: nat)
    requires k < |items|
  {
    && (k > 0 ==> FirstOf(items[k]) != RBRACKET)
    && (items[k].Span? ==> items[k].hi != RBRACKET)
    && (FirstOf(items[k]) == DASH ==>
          k == 0 || EndsOpen(items[k - 1]) || (k == |items| - 1 && items[k].Lone?))
    && (items[k] == Lone(LBRACKET) && k < |items| - 1 ==> FirstOf(items[k + 1]) != COLON)
  }

  /** And without a `^` to negate it, it does not begin with one. */
  predicate ListClear(items: seq<Item>, negated: bool) {
    && items != [] && (!negated ==> FirstOf(items[0]) != HAT)
    && forall k :: 0 <= k < |items| ==> ItemClear(items, k)
  }

  predicate Downward(i: Item) {
    i.Span? && i.lo > i.hi
  }

  /** No range goes downwards. */
  predicate Upward(items: seq<Item>) {
    forall k :: 0 <= k < |items| ==> !Downward(items[k])
  }

  // ----- what is read -----

  /** The characters of a list. */
  ghost predicate Chosen(items: seq<Item>, members: set<byte>) {
    forall x: byte :: x in members <==>
      exists k :: 0 <= k < |items| && (items[k] == Lone(x) || (items[k].Span? && items[k].lo <= x <= items[k].hi))
  }

  lemma ChosenMore(items: seq<Item>, k: nat, before: set<byte>, more: set<byte>)
    requires k < |items| && Chosen(items[..k], before)
    requires forall x: byte :: x in more <==>
      x in before || items[k] == Lone(x) || (items[k].Span? && items[k].lo <= x <= items[k].hi)
    ensures Chosen(items[..k + 1], more)
  {
    var init := items[..k + 1];
    forall x: byte
      ensures x in more <==>
        exists j :: 0 <= j < |init| && (init[j] == Lone(x) || (init[j].Span? && init[j].lo <= x <= init[j].hi))
    {
      if x in before {
        var j :| 0 <= j < k && (items[..k][j] == Lone(x) ||
                                (items[..k][j].Span? && items[..k][j].lo <= x <= items[..k][j].hi));
        assert init[j] == items[..k][j];
      }
      if j :| 0 <= j < |init| && (init[j] == Lone(x) || (init[j].Span? && init[j].lo <= x <= init[j].hi)) {
        if j < k {
          assert items[..k][j] == init[j];
        }
      }
      assert init[k] == items[k];
    }
  }

  /** The text from `p` on is that of the items from `k` on. */
  ghost predicate From(sp: Text, items: seq<Item>, k: nat, first: nat, p: nat) {
    && k <= |items| && 1 <= first <= p <= |sp| && sp[p..] == SpellItems(items[k..]) + [RBRACKET]
    && if k == 0 then p == first && (sp[p - 1] == LBRACKET || (p >= 2 && sp[p - 2] == LBRACKET && sp[p - 1] == HAT))
       else first < p && (EndsOpen(items[k - 1]) ==> sp[p - 1] == LBRACKET)
  }

  /** The bytes of the next item, and what comes after it. */
  lemma NextItem(sp: Text, items: seq<Item>, k: nat, first: nat, p: nat)
    requires From(sp, items, k, first, p) && k < |items|
    ensures var n := |Spell(items[k])|;
      && p + n < |sp| && sp[p..p + n] == Spell(items[k])
      && sp[p + n] == (if k + 1 < |items| then FirstOf(items[k + 1]) else RBRACKET)
      && (k + 1 < |items| || p + n + 1 == |sp|)
      && (k + 1 < |items| && items[k + 1].Span? ==> p + n + 1 < |sp| && sp[p + n + 1] == DASH)
      && (k + 2 == |items| && items[k + 1].Lone? ==> p + n + 1 < |sp| && sp[p + n + 1] == RBRACKET)
      && From(sp, items, k + 1, first, p + n)
  {
    var s, n := Spell(items[k]), |Spell(items[k])|;
    assert items[k..][0] == items[k] && items[k..][1..] == items[k + 1..];
    var rest := SpellItems(items[k + 1..]) + [RBRACKET];
    assert sp[p..] == s + rest;
    assert sp[p..p + n] == sp[p..][..n] == s;
    assert sp[p + n..] == sp[p..][n..] == rest;
    if k + 1 < |items| {
      assert items[k + 1..][0] == items[k + 1] && items[k + 1..][1..] == items[k + 2..];
      assert rest == Spell(items[k + 1]) + (SpellItems(items[k + 2..]) + [RBRACKET]);
      assert sp[p + n] == rest[0];
      assert sp[p + n + 1] == rest[1];
    } else {
      assert rest == [RBRACKET];
      assert sp[p + n] == rest[0];
    }
    assert sp[p + n - 1] == s[n - 1];
  }

  /** Items are read one by one. */
  lemma {:induction false} ItemsRead(sp: Text, items: seq<Item>, negated: bool, k: nat, first: nat, p: nat,
                                     acc: set<byte>)
    returns (members: set<byte>)
    requires ListClear(items, negated) && k <= |items| && From(sp, items, k, first, p) && Chosen(items[..k], acc)
    requires Upward(items[..k])
    ensures Upward(items) ==> MembersFrom(sp, first, p, acc) == Members(members, |sp|) && Chosen(items, members)
    ensures !Upward(items) ==> MembersFrom(sp, first, p, acc) == BadMembers(ERANGE)
    decreases |items| - k
  {
    hide From, Chosen;
    if k == |items| {
      AtTheClose(sp, items, first, p);
      assert items[..k] == items;
      members := acc;
    } else {
      NextItem(sp, items, k, first, p);
      UpwardMore(items, k);
      if Downward(items[k]) {
        OneRefused(sp, items, negated, k, first, p, acc);
        members := acc;
      } else {
        var more := OneRead(sp, items, negated, k, first, p, acc);
        members := ItemsRead(sp, items, negated, k + 1, first, p + |Spell(items[k])|, more);
      }
    }
  }

  lemma UpwardMore(items: seq<Item>, k: nat)
    requires k < |items|
    ensures Upward(items[..k + 1]) <==> Upward(items[..k]) && !Downward(items[k])
    ensures Downward(items[k]) ==> !Upward(items)
  {
    assert forall j :: 0 <= j < k ==> items[..k][j] == items[..k + 1][j];
    assert items[..k + 1][k] == items[k];
  }

  lemma AtTheClose(sp: Text, items: seq<Item>, first: nat, p: nat)
    requires From(sp, items, |items|, first, p) && items != []
    ensures p + 1 == |sp| && sp[p] == RBRACKET && p != first
  {
    assert items[|items|..] == [];
    assert sp[p] == sp[p..][0];
  }

  /** The hyphen of an item that begins with one is no sign of a range. */
  lemma NoLoneHyphen(sp: Text, items: seq<Item>, k: nat, first: nat, p: nat)
    requires k < |items| && ItemClear(items, k) && From(sp, items, k, first, p)
    ensures p < |sp| && !LoneHyphenIsRange(sp, p) && sp[p] == FirstOf(items[k])
  {
    NextItem(sp, items, k, first, p);
    assert sp[p] == sp[p..p + |Spell(items[k])|][0];
  }

  lemma OneRead(sp: Text, items: seq<Item>, negated: bool, k: nat, first: nat, p: nat, acc: set<byte>)
    returns (more: set<byte>)
    requires ListClear(items, negated) && k < |items| && From(sp, items, k, first, p) && Chosen(items[..k], acc)
    requires !Downward(items[k])
    ensures p + |Spell(items[k])| <= |sp|
    ensures MembersFrom(sp, first, p, acc) == MembersFrom(sp, first, p + |Spell(items[k])|, more)
    ensures Chosen(items[..k + 1], more)
  {
    hide Chosen;
    NextItem(sp, items, k, first, p);
    NoLoneHyphen(sp, items, k, first, p);
    var s := Spell(items[k]);
    assert forall j :: 0 <= j < |s| ==> sp[p + j] == sp[p..p + |s|][j] == s[j];
    assert ItemClear(items, k) && (k + 1 < |items| ==> ItemClear(items, k + 1));
    match items[k] {
      case Lone(c) =>
        more := acc + {c};
        ChosenMore(items, k, acc, more);
      case Span(lo, hi) =>
        assert sp[p] == lo && sp[p + 1] == DASH && sp[p + 2] == hi;
        more := acc + ByteRange(lo, hi);
        assert forall x: byte :: x in ByteRange(lo, hi) <==> lo <= x <= hi;
        ChosenMore(items, k, acc, more);
    }
  }

  lemma OneRefused(sp: Text, items: seq<Item>, negated: bool, k: nat, first: nat, p: nat, acc: set<byte>)
    requires ListClear(items, negated) && k < |items| && From(sp, items, k, first, p) && Downward(items[k])
    ensures MembersFrom(sp, first, p, acc) == BadMembers(ERANGE)
  {
    NextItem(sp, items, k, first, p);
    NoLoneHyphen(sp, items, k, first, p);
    var s := Spell(items[k]);
    assert forall j :: 0 <= j < 3 ==> sp[p + j] == sp[p..p + 3][j] == s[j];
    assert ItemClear(items, k);
    assert sp[p + 1] == DASH && sp[p + 2] == items[k].hi;
  }

  /** A list written without ambiguity is read as the characters that it has: the single ones, and those of each range
      from its lower to its upper end. If a range goes downwards, it is an error. */
  lemma ListRead(items: seq<Item>, negated: bool) returns (members: set<byte>)
    requires ListClear(items, negated)
    ensures var sp := SpellList(items, negated);
      LexBracket(sp, 0) ==
        if Upward(items) then Lexed(Unit(Bracket(sp, negated, members)), |sp|) else LexError(ERANGE)
    ensures Upward(items) ==>
      forall x: byte :: x in members <==>
        exists k :: 0 <= k < |items| && (items[k] == Lone(x) || (items[k].Span? && items[k].lo <= x <= items[k].hi))
  {
    var sp, first := SpellList(items, negated), if negated then 2 else 1;
    AtFirst(items, negated);
    hide ListClear, SpellList, From;
    assert items[..0] == [];
    members := ItemsRead(sp, items, negated, 0, first, first, {});
    assert sp[0..|sp|] == sp;
  }

  lemma AtFirst(items: seq<Item>, negated: bool)
    requires ListClear(items, negated)
    ensures var sp, first := SpellList(items, negated), if negated then 2 else 1;
      From(sp, items, 0, first, first) && |sp| > 2 && sp[0] == LBRACKET && (sp[1] == HAT <==> negated)
  {
    var sp, first := SpellList(items, negated), if negated then 2 else 1;
    var head, rest := if negated then [LBRACKET, HAT] else [LBRACKET], SpellItems(items) + [RBRACKET];
    assert sp == head + rest;
    assert sp[first..] == rest && items[0..] == items;
    assert From(sp, items, 0, first, first);
    NextItem(sp, items, 0, first, first);
    assert sp[first] == rest[0] == FirstOf(items[0]);
  }
}
