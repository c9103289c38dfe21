/** What the code of a pattern is like, as far as loops are concerned: their bodies are single instructions or
    numbered groups, and jumps are made neatly. */
module LoopCode {
  import opened Bytes
  import opened Bytecode
  import opened CodeMeaning
  import opened CodePlaces
  import opened CodeShape
  import opened CodeTree
  import opened Ere
  import opened LoopForms
  import opened LoopSafety
  import opened Numbering

  // ----- trees and expressions -----

  lemma ExpandLast(init: Nodes, last: Node)
    ensures Expand(Add(init, last)) ==
      if last.Text? then AddChars(Expand(init), last.chars) else Snoc(Expand(init), PieceOf(last))
  {
  }

  lemma GroupPiece(reg: nat, inner: nat, choice: Choice)
    ensures PieceOf(Grouped(reg, inner, choice)) == Once(Group(ExpandChoice(choice)))
    ensures ExpandChoice(choice) ==
      if choice.Sole? then One(Expand(choice.nodes)) else More(ExpandChoice(choice.init), Expand(choice.nodes))
  {
  }

  lemma RepeatedPiece(body: Node, ops: seq<Op>)
    ensures PieceOf(Repeated(body, ops)) == RepAll(PieceOf(body), ops)
  {
  }

  // ----- the bodies of loops -----

  /** Either no loop is over a group, or groups are numbered, and their numbers are remembered. */
  predicate NodeTame(n: Node, plain: bool, before: nat) {
    if plain then PiecePlain(PieceOf(n)) else NodeNumbered(n, before) && before + NodeGroups(n) <= MAX_REGNUM
  }

  predicate NodesTame(ns: Nodes, plain: bool, before: nat) {
    if plain then BranchPlain(Expand(ns)) else NodesNumbered(ns, before) && before + NodesGroups(ns) <= MAX_REGNUM
  }

  predicate ChoiceTame(ch: Choice, plain: bool, before: nat) {
    if plain then PlainLoops(ExpandChoice(ch))
    else ChoiceNumbered(ch, before) && before + ChoiceGroups(ch) <= MAX_REGNUM
  }

  lemma {:induction false} PlainChars(b: Branch, chars: seq<TextChar>)
    ensures BranchPlain(AddChars(b, chars)) <==> BranchPlain(b)
    decreases |chars|
  {
    if chars != [] {
      PlainChars(b, chars[..|chars| - 1]);
    }
  }

  lemma TameNodes(init: Nodes, last: Node, plain: bool, before: nat)
    requires NodesTame(Add(init, last), plain, before) && NodeOk(last)
    ensures NodesTame(init, plain, before) && NodeTame(last, plain, before + NodesGroups(init))
  {
    if plain {
      hide Expand, AddChars;
      ExpandLast(init, last);
      if last.Text? {
        PlainChars(Expand(init), last.chars);
      }
    }
  }

  lemma TameGroup(reg: nat, inner: nat, choice: Choice, plain: bool, before: nat)
    requires NodeTame(Grouped(reg, inner, choice), plain, before)
    ensures ChoiceTame(choice, plain, reg) && (!plain ==> before < reg <= MAX_REGNUM)
  {
    GroupPiece(reg, inner, choice);
  }

  lemma OncePiece(body: Node)
    requires Repeatable(body)
    ensures PieceOf(body).Once? && (PieceOf(body).atom.Group? <==> body.Grouped?)
  {
  }

  lemma TameRepeated(body: Node, ops: seq<Op>, plain: bool, before: nat)
    requires NodeTame(Repeated(body, ops), plain, before) && Repeatable(body)
    ensures NodeTame(body, plain, before) && (plain && ManyOk(ops) ==> !body.Grouped?)
  {
    OncePiece(body);
    RepeatedPiece(body, ops);
    hide PieceOf, ManyOk;
    RunPlain(PieceOf(body).atom, ops);
  }

  lemma TameOr(init: Choice, ns: Nodes, plain: bool, before: nat)
    requires ChoiceTame(Or(init, ns), plain, before)
    ensures ChoiceTame(init, plain, before) && NodesTame(ns, plain, before + ChoiceGroups(init))
  {
  }

  /** A loop is over a single instruction or over a group of its own number, and groups have numbers above
      `before`. */
  ghost predicate FormedAt(code: seq<byte>, starts: set<nat>, x: nat, plain: bool, before: nat)
    requires x < |code|
  {
    && (code[x] == START_MEMORY && !plain ==> x + 1 < |code| && before < code[x + 1])
    && (code[x] == MAYBE_POP_JUMP ==> TightAt(code, x) || (!plain && OwnNumber(code, starts, x)))
  }

  ghost predicate Formed(code: seq<byte>, starts: set<nat>, o: nat, e: nat, plain: bool, before: nat) {
    forall x :: x in starts && o <= x < e && x < |code| ==> FormedAt(code, starts, x, plain, before)
  }

  lemma FormedLower(code: seq<byte>, starts: set<nat>, o: nat, e: nat, plain: bool, before: nat, more: nat)
    requires Formed(code, starts, o, e, plain, more) && before <= more
    ensures Formed(code, starts, o, e, plain, before)
  {
    hide TightAt, OwnNumber;
    forall x | x in starts && o <= x < e && x < |code|
      ensures FormedAt(code, starts, x, plain, before)
    {
      assert FormedAt(code, starts, x, plain, more);
    }
  }

  lemma FormedBoth(code: seq<byte>, starts: set<nat>, o: nat, m: nat, e: nat, plain: bool, before: nat, more: nat)
    requires Formed(code, starts, o, m, plain, before) && Formed(code, starts, m, e, plain, more) && before <= more
    ensures Formed(code, starts, o, e, plain, before)
  {
    hide FormedAt;
    FormedLower(code, starts, m, e, plain, before, more);
  }

  lemma SingleBody(body: Node, code: seq<byte>, o: nat)
    requires Repeatable(body) && !body.Grouped? && NodeOk(body) && At(code, o, NodeCode(body))
    ensures o < |code| && Single(Decode(code, o)) && Decode(code, o).Length() == |NodeCode(body)|
    ensures body.Text? ==> Decode(code, o) == Exact([body.chars[0].c])
    ensures body.Simple? ==> Decode(code, o) == AnyChar
    ensures body.Set? ==> Decode(code, o) == CharSet(body.negated, body.bitmap)
  {
    hide Represents, Decode;
    match body {
      case Text(chars) =>
        DecodeCounted(code, o, EXACTN, TextBytes(chars));
        assert TextBytes(chars) == [chars[0].c];
      case Simple(_) => DecodeSimple(code, o, ANYCHAR);
      case Set(_, negated, members, bitmap) =>
        SetSize(body);
        DecodeCounted(code, o, if negated then CHARSET_NOT else CHARSET, bitmap);
      case Repeated(_, _) =>
    }
  }

  lemma SetSize(n: Node)
    requires n.Set? && NodeOk(n)
    ensures |n.bitmap| <= 32
  {
    hide InBitmap;
  }

  lemma TightBody(body: Node, ops: seq<Op>, code: seq<byte>, starts: set<nat>, o: nat, q: nat, t: nat, e: nat)
    requires RepeatLaid(code, starts, body, ops, o, q, t, e) && ManyOk(ops) && NodeOk(body)
    requires Repeatable(body) && !body.Grouped?
    ensures TightAt(code, t)
  {
    hide Target, Decode, NodeOk, NodeCode, ManyOk, ZeroOk;
    SingleBody(body, code, q + 3);
  }

  lemma GroupBody(reg: nat, choice: Choice, code: seq<byte>, starts: set<nat>, q: nat, t: nat, o1: nat, o2: nat,
                  o3: nat)
    requires GroupLaid(code, starts, reg, choice, q + 3, o1, o2, o3, t) && reg <= MAX_REGNUM
    requires t + 3 <= |code| && Target(code, t) == q && Formed(code, starts, o1, o2, false, reg)
    ensures OwnNumber(code, starts, t)
  {
    hide Target, At, TightAt;
    assert GroupAt(code, t) && GroupOf(code, t) == reg && t - 3 in starts;
    forall x | x in starts && InBody(code, t, x) && code[x] == START_MEMORY
      ensures code[x + 1] != GroupOf(code, t)
    {
      assert o1 <= x < o2;
      assert FormedAt(code, starts, x, false, reg);
    }
  }

  lemma {:induction false} NodesFormed(ns: Nodes, code: seq<byte>, starts: set<nat>, o: nat, plain: bool, before: nat)
    requires NodesOk(ns) && At(code, o, NodesCode(ns)) && Cut(code, starts) && o in starts
    requires NodesTame(ns, plain, before)
    ensures Formed(code, starts, o, o + |NodesCode(ns)|, plain, before)
    decreases ns, 0
  {
    hide Cut, At, NodeCode, NodesTame, NodeTame, FormedAt;
    if ns.Add? {
      AtSplit(code, o, NodesCode(ns.init), NodeCode(ns.last));
      NodesEnd(ns.init, code, starts, o);
      TameNodes(ns.init, ns.last, plain, before);
      var m, more := o + |NodesCode(ns.init)|, before + NodesGroups(ns.init);
      NodesFormed(ns.init, code, starts, o, plain, before);
      NodeFormed(ns.last, code, starts, m, plain, more);
      FormedBoth(code, starts, o, m, m + |NodeCode(ns.last)|, plain, before, more);
    }
  }

  lemma {:induction false} NodeFormed(n: Node, code: seq<byte>, starts: set<nat>, o: nat, plain: bool, before: nat)
    requires NodeOk(n) && At(code, o, NodeCode(n)) && Cut(code, starts) && o in starts && NodeTame(n, plain, before)
    ensures Formed(code, starts, o, o + |NodeCode(n)|, plain, before)
    decreases n, 0
  {
    hide Cut, At, NodeCode, NodeTame, ChoiceOk;
    match n {
      case Grouped(reg, inner, choice) =>
        var o1, o2, o3, e := GroupFormed(reg, inner, choice, code, starts, o, plain, before);
      case Repeated(body, ops) => RepeatFormed(body, ops, code, starts, o, plain, before);
      case _ => UnitPlace(n, code, starts, o);
    }
  }

  lemma {:induction false} GroupFormed(reg: nat, inner: nat, choice: Choice, code: seq<byte>, starts: set<nat>, o: nat,
                                       plain: bool, before: nat)
    returns (o1: nat, o2: nat, o3: nat, e: nat)
    requires ChoiceOk(choice) && At(code, o, NodeCode(Grouped(reg, inner, choice))) && Cut(code, starts) && o in starts
    requires NodeTame(Grouped(reg, inner, choice), plain, before)
    ensures e == o + |NodeCode(Grouped(reg, inner, choice))| && GroupLaid(code, starts, reg, choice, o, o1, o2, o3, e)
    ensures Formed(code, starts, o, e, plain, before) && Formed(code, starts, o1, o2, plain, reg)
    ensures !plain ==> reg <= MAX_REGNUM
    decreases choice, 1
  {
    hide Cut, At, NodeCode, NodeTame, ChoiceOk, ChoiceTame, TightAt, OwnNumber;
    TameGroup(reg, inner, choice, plain, before);
    o1, o2, o3, e := GroupPlaces(reg, inner, choice, code, starts, o);
    ChoiceFormed(choice, code, starts, o1, plain, reg);
    forall x | x in starts && o <= x < e && x < |code|
      ensures FormedAt(code, starts, x, plain, before)
    {
      if o1 <= x < o2 {
        assert FormedAt(code, starts, x, plain, reg);
      } else {
        assert x == o || x == o2 || x == o3;
      }
    }
  }

  lemma {:induction false} RepeatFormed(body: Node, ops: seq<Op>, code: seq<byte>, starts: set<nat>, o: nat,
                                        plain: bool, before: nat)
    requires NodeOk(Repeated(body, ops)) && At(code, o, NodeCode(Repeated(body, ops))) && Cut(code, starts)
    requires o in starts && NodeTame(Repeated(body, ops), plain, before)
    ensures Formed(code, starts, o, o + |NodeCode(Repeated(body, ops))|, plain, before)
    decreases body, 2
  {
    hide Cut, At, NodeCode, NodeTame, NodeOk, ManyOk, ZeroOk;
    RepeatedOk(body, ops);
    TameRepeated(body, ops, plain, before);
    var q, t, e := RepeatPlaces(body, ops, code, starts, o);
    if body.Grouped? {
      GroupOk(body);
      var o1, o2, o3, _ := GroupFormed(body.reg, body.inner, body.choice, code, starts, q + 3, plain, before);
      if ManyOk(ops) {
        GroupBody(body.reg, body.choice, code, starts, q, t, o1, o2, o3);
      }
    } else {
      NodeFormed(body, code, starts, q + 3, plain, before);
      if ManyOk(ops) {
        TightBody(body, ops, code, starts, o, q, t, e);
      }
    }
    RepeatedParts(body, ops, code, starts, o, q, t, e, plain, before);
  }

  lemma RepeatedOk(body: Node, ops: seq<Op>)
    requires NodeOk(Repeated(body, ops))
    ensures ops != [] && NodeOk(body) && Repeatable(body)
  {
  }

  lemma GroupOk(n: Node)
    requires n.Grouped? && NodeOk(n)
    ensures ChoiceOk(n.choice)
  {
  }

  lemma RepeatedParts(body: Node, ops: seq<Op>, code: seq<byte>, starts: set<nat>, o: nat, q: nat, t: nat, e: nat,
                      plain: bool, before: nat)
    requires RepeatLaid(code, starts, body, ops, o, q, t, e) && Formed(code, starts, q + 3, t, plain, before)
    requires ManyOk(ops) ==> TightAt(code, t) || (!plain && OwnNumber(code, starts, t))
    ensures Formed(code, starts, o, e, plain, before)
  {
    hide At, NodeCode, ManyOk, ZeroOk, Target, TightAt, OwnNumber;
    forall x | x in starts && o <= x < e && x < |code|
      ensures FormedAt(code, starts, x, plain, before)
    {
      if q + 3 <= x < t {
        assert FormedAt(code, starts, x, plain, before);
      } else {
        assert x == o || x == q || x == t;
      }
    }
  }

  lemma {:induction false} ChoiceFormed(ch: Choice, code: seq<byte>, starts: set<nat>, o: nat, plain: bool, before: nat)
    requires ChoiceOk(ch) && At(code, o, ChoiceCode(ch)) && Cut(code, starts) && o in starts
    requires ChoiceTame(ch, plain, before)
    ensures Formed(code, starts, o, o + |ChoiceCode(ch)|, plain, before)
    decreases ch, 0
  {
    hide Cut, At, NodesCode, OpenCode, ChoiceTame, NodesTame, FormedAt;
    match ch {
      case Sole(ns) =>
        SoleTame(ns, plain, before);
        NodesFormed(ns, code, starts, o, plain, before);
      case Or(init, ns) =>
        TameOr(init, ns, plain, before);
        var m := OrPlaces(init, ns, code, starts, o);
        var more := before + ChoiceGroups(init);
        OpenFormed(init, |NodesCode(ns)|, code, starts, o, plain, before);
        NodesFormed(ns, code, starts, m, plain, more);
        FormedBoth(code, starts, o, m, m + |NodesCode(ns)|, plain, before, more);
    }
  }

  lemma SoleTame(ns: Nodes, plain: bool, before: nat)
    requires ChoiceTame(Sole(ns), plain, before)
    ensures NodesTame(ns, plain, before)
  {
  }

  lemma {:induction false} OpenFormed(ch: Choice, d: nat, code: seq<byte>, starts: set<nat>, o: nat, plain: bool,
                                      before: nat)
    requires ChoiceOk(ch) && At(code, o, OpenCode(ch, JumpCode(JUMP_PAST_ALT, d))) && d < JUMP_LIMIT
    requires Cut(code, starts) && o in starts && ChoiceTame(ch, plain, before)
    ensures Formed(code, starts, o, o + |OpenCode(ch, JumpCode(JUMP_PAST_ALT, d))|, plain, before)
    decreases ch, 0
  {
    hide Cut, At, NodesCode, OpenAlternative, ChoiceTame, NodesTame, FormedAt;
    match ch {
      case Sole(ns) =>
        SoleTame(ns, plain, before);
        AlternativeFormed(ns, d, code, starts, o, plain, before);
      case Or(init, ns) =>
        TameOr(init, ns, plain, before);
        var m := MoreOpen(init, ns, d, code, starts, o);
        var more := before + ChoiceGroups(init);
        OpenFormed(init, |NodesCode(ns)| + 3, code, starts, o, plain, before);
        AlternativeFormed(ns, d, code, starts, m, plain, more);
        FormedBoth(code, starts, o, m, m + |NodesCode(ns)| + 6, plain, before, more);
    }
  }

  lemma {:induction false} AlternativeFormed(ns: Nodes, d: nat, code: seq<byte>, starts: set<nat>, o: nat, plain: bool,
                                             before: nat)
    requires NodesOk(ns) && At(code, o, OpenAlternative(NodesCode(ns), JumpCode(JUMP_PAST_ALT, d))) && d < JUMP_LIMIT
    requires Cut(code, starts) && o in starts && NodesTame(ns, plain, before)
    ensures Formed(code, starts, o, o + |OpenAlternative(NodesCode(ns), JumpCode(JUMP_PAST_ALT, d))|, plain, before)
    decreases ns, 1
  {
    hide Cut, At, NodesCode, OpenAlternative, NodesTame, TightAt, OwnNumber, Target;
    var h := AlternativePlaces(ns, d, code, starts, o);
    NodesFormed(ns, code, starts, o + 3, plain, before);
    forall x | x in starts && o <= x < h + 3 && x < |code|
      ensures FormedAt(code, starts, x, plain, before)
    {
      if o + 3 <= x < h {
        assert FormedAt(code, starts, x, plain, before);
      } else {
        assert x == o || x == h;
      }
    }
  }

  // ----- where jumps lead -----

  lemma {:induction false} NodesBegin(ns: Nodes, code: seq<byte>, starts: set<nat>, o: nat, before: nat)
    requires NodesOk(ns) && At(code, o, NodesCode(ns)) && Cut(code, starts) && o in starts
    requires NodesTame(ns, false, before) && !Closes(code, starts, o + |NodesCode(ns)|)
    ensures !Closes(code, starts, o)
    decreases ns, 0
  {
    hide Cut, At, NodeCode, NodesTame, NodeTame;
    if ns.Add? {
      AtSplit(code, o, NodesCode(ns.init), NodeCode(ns.last));
      NodesEnd(ns.init, code, starts, o);
      TameNodes(ns.init, ns.last, false, before);
      NodeBegin(ns.last, code, starts, o + |NodesCode(ns.init)|, before + NodesGroups(ns.init));
      NodesBegin(ns.init, code, starts, o, before);
    }
  }

  lemma NodeBegin(n: Node, code: seq<byte>, starts: set<nat>, o: nat, before: nat)
    requires NodeOk(n) && At(code, o, NodeCode(n)) && Cut(code, starts) && o in starts && NodeTame(n, false, before)
    ensures o < |code| && !Closes(code, starts, o)
  {
    hide Cut, At, NodeCode, NodeTame, ChoiceOk, Target;
    match n {
      case Grouped(reg, inner, choice) =>
        TameGroup(reg, inner, choice, false, before);
        var o1, o2, o3, e := GroupPlaces(reg, inner, choice, code, starts, o);
      case Repeated(body, ops) =>
        var q, t, e := RepeatPlaces(body, ops, code, starts, o);
      case _ => UnitPlace(n, code, starts, o);
    }
  }

  /** The jumps between lead where they should. */
  ghost predicate JumpsIn(code: seq<byte>, starts: set<nat>, o: nat, e: nat) {
    forall x :: x in starts && o <= x < e && x < |code| ==> JumpNeat(code, starts, x)
  }

  /** No dummy is pushed just before. */
  predicate NoDummy(code: seq<byte>, starts: set<nat>, y: nat) {
    !DummyBefore(code, starts, y)
  }

  lemma AfterOther(code: seq<byte>, starts: set<nat>, o: nat, e: nat)
    requires Gap(starts, o, e) && o < e && o < |code| && code[o] != PUSH_DUMMY_FAILURE
    ensures NoDummy(code, starts, e)
  {
  }

  lemma NotNeeded(code: seq<byte>, starts: set<nat>, x: nat)
    requires x < |code| && (!TakesNumber(code[x]) || code[x] == MAYBE_POP_JUMP)
    ensures JumpNeat(code, starts, x)
  {
  }

  lemma {:induction false} NodesJumps(ns: Nodes, code: seq<byte>, starts: set<nat>, o: nat, before: nat)
    requires NodesOk(ns) && At(code, o, NodesCode(ns)) && Cut(code, starts) && o in starts
    requires NodesTame(ns, false, before)
    requires NoDummy(code, starts, o) && !Closes(code, starts, o + |NodesCode(ns)|)
    ensures JumpsIn(code, starts, o, o + |NodesCode(ns)|) && NoDummy(code, starts, o + |NodesCode(ns)|)
    decreases ns, 0
  {
    hide Cut, At, NodeCode, NodesTame, NodeTame, NoDummy, JumpNeat;
    if ns.Add? {
      AtSplit(code, o, NodesCode(ns.init), NodeCode(ns.last));
      NodesEnd(ns.init, code, starts, o);
      TameNodes(ns.init, ns.last, false, before);
      var m, more := o + |NodesCode(ns.init)|, before + NodesGroups(ns.init);
      NodeBegin(ns.last, code, starts, m, more);
      NodesJumps(ns.init, code, starts, o, before);
      NodeJumps(ns.last, code, starts, m, more);
    }
  }

  lemma {:induction false} NodeJumps(n: Node, code: seq<byte>, starts: set<nat>, o: nat, before: nat)
    requires NodeOk(n) && At(code, o, NodeCode(n)) && Cut(code, starts) && o in starts && NodeTame(n, false, before)
    requires n.Repeated? ==> !Closes(code, starts, o + |NodeCode(n)|)
    ensures JumpsIn(code, starts, o, o + |NodeCode(n)|) && NoDummy(code, starts, o + |NodeCode(n)|)
    decreases n, 0
  {
    hide Cut, At, NodeCode, NodeTame, ChoiceOk, NoDummy;
    match n {
      case Grouped(reg, inner, choice) => GroupJumps(reg, inner, choice, code, starts, o, before);
      case Repeated(body, ops) => RepeatJumps(body, ops, code, starts, o, before);
      case _ =>
        UnitPlace(n, code, starts, o);
        AfterOther(code, starts, o, o + |NodeCode(n)|);
    }
  }

  lemma {:induction false} GroupJumps(reg: nat, inner: nat, choice: Choice, code: seq<byte>, starts: set<nat>, o: nat,
                                      before: nat)
    requires ChoiceOk(choice) && At(code, o, NodeCode(Grouped(reg, inner, choice))) && Cut(code, starts) && o in starts
    requires NodeTame(Grouped(reg, inner, choice), false, before)
    ensures var e := o + |NodeCode(Grouped(reg, inner, choice))|;
      JumpsIn(code, starts, o, e) && NoDummy(code, starts, e)
    decreases choice, 1
  {
    hide Cut, At, NodeCode, NodeTame, ChoiceOk, ChoiceTame, JumpNeat, NoDummy;
    TameGroup(reg, inner, choice, false, before);
    var o1, o2, o3, e := GroupPlaces(reg, inner, choice, code, starts, o);
    AfterOther(code, starts, o, o1);
    AfterOther(code, starts, o3, e);
    ChoiceJumps(choice, code, starts, o1, reg);
    forall x | x in starts && o <= x < e && x < |code|
      ensures JumpNeat(code, starts, x)
    {
      if !(o1 <= x < o2) {
        assert x == o || x == o2 || x == o3;
        NotNeeded(code, starts, x);
      }
    }
  }

  lemma {:induction false} RepeatJumps(body: Node, ops: seq<Op>, code: seq<byte>, starts: set<nat>, o: nat, before: nat)
    requires NodeOk(Repeated(body, ops)) && At(code, o, NodeCode(Repeated(body, ops))) && Cut(code, starts)
    requires o in starts && NodeTame(Repeated(body, ops), false, before)
    requires !Closes(code, starts, o + |NodeCode(Repeated(body, ops))|)
    ensures var e := o + |NodeCode(Repeated(body, ops))|; JumpsIn(code, starts, o, e) && NoDummy(code, starts, e)
    decreases body, 2
  {
    hide Cut, At, NodeCode, NodeTame, NodeOk, ManyOk, ZeroOk, JumpNeat, NoDummy;
    RepeatedOk(body, ops);
    TameRepeated(body, ops, false, before);
    var q, t, e := RepeatPlaces(body, ops, code, starts, o);
    AfterOther(code, starts, q, q + 3);
    NodeBegin(body, code, starts, q + 3, before);
    NodeJumps(body, code, starts, q + 3, before);
    if ManyOk(ops) {
      AfterOther(code, starts, t, e);
    }
    LoopJumps(code, starts, o, q, t, e);
  }

  lemma LoopJumps(code: seq<byte>, starts: set<nat>, o: nat, q: nat, t: nat, e: nat)
    requires Gap(starts, o, q) && Gap(starts, q, q + 3) && Gap(starts, t, e) && q + 3 <= t <= e <= |code|
    requires code[q] == ON_FAILURE_JUMP && Target(code, q) == e
    requires q > o ==> q == o + 3 && code[o] == DUMMY_FAILURE_JUMP && Target(code, o) == q + 3
    requires e > t ==> code[t] == MAYBE_POP_JUMP
    requires JumpsIn(code, starts, q + 3, t) && NoDummy(code, starts, e) && NoDummy(code, starts, q + 3)
    requires !Closes(code, starts, e) && !Closes(code, starts, q + 3)
    ensures JumpsIn(code, starts, o, e)
  {
    hide Target;
    forall x | x in starts && o <= x < e && x < |code|
      ensures JumpNeat(code, starts, x)
    {
      if !(q + 3 <= x < t) {
        assert x == o || x == q || x == t;
      }
    }
  }

  lemma {:induction false} ChoiceJumps(ch: Choice, code: seq<byte>, starts: set<nat>, o: nat, before: nat)
    requires ChoiceOk(ch) && At(code, o, ChoiceCode(ch)) && Cut(code, starts) && o in starts
    requires ChoiceTame(ch, false, before)
    requires NoDummy(code, starts, o) && !Closes(code, starts, o + |ChoiceCode(ch)|)
    ensures JumpsIn(code, starts, o, o + |ChoiceCode(ch)|) && NoDummy(code, starts, o + |ChoiceCode(ch)|)
    decreases ch, 0
  {
    hide Cut, At, NodesCode, OpenCode, ChoiceTame, NodesTame, JumpNeat, NoDummy;
    match ch {
      case Sole(ns) =>
        SoleTame(ns, false, before);
        NodesJumps(ns, code, starts, o, before);
      case Or(init, ns) =>
        TameOr(init, ns, false, before);
        var m := OrPlaces(init, ns, code, starts, o);
        var more := before + ChoiceGroups(init);
        AfterJump(code, starts, m);
        NodesBegin(ns, code, starts, m, more);
        NodesJumps(ns, code, starts, m, more);
        OpenJumps(init, |NodesCode(ns)|, code, starts, o, before);
    }
  }

  lemma AfterJump(code: seq<byte>, starts: set<nat>, m: nat)
    requires m >= 3 && Gap(starts, m - 3, m)
    ensures NoDummy(code, starts, m)
  {
  }

  /** Up to the last alternative, which is `d` bytes long. */
  lemma {:induction false} OpenJumps(ch: Choice, d: nat, code: seq<byte>, starts: set<nat>, o: nat, before: nat)
    requires ChoiceOk(ch) && At(code, o, OpenCode(ch, JumpCode(JUMP_PAST_ALT, d))) && d < JUMP_LIMIT
    requires Cut(code, starts) && o in starts && ChoiceTame(ch, false, before)
    requires var m := o + |OpenCode(ch, JumpCode(JUMP_PAST_ALT, d))|;
      !Closes(code, starts, m) && !Closes(code, starts, m + d) && NoDummy(code, starts, m + d)
    ensures JumpsIn(code, starts, o, o + |OpenCode(ch, JumpCode(JUMP_PAST_ALT, d))|)
    decreases ch, 0
  {
    hide Cut, At, NodesCode, OpenAlternative, ChoiceTame, NodesTame, JumpNeat, NoDummy;
    match ch {
      case Sole(ns) =>
        SoleTame(ns, false, before);
        AlternativeJumps(ns, d, code, starts, o, before);
      case Or(init, ns) =>
        TameOr(init, ns, false, before);
        var m := MoreOpen(init, ns, d, code, starts, o);
        var h := AlternativePlaces(ns, d, code, starts, m);
        AlternativeJumps(ns, d, code, starts, m, before + ChoiceGroups(init));
        OpenJumps(init, |NodesCode(ns)| + 3, code, starts, o, before);
    }
  }

  lemma {:induction false} AlternativeJumps(ns: Nodes, d: nat, code: seq<byte>, starts: set<nat>, o: nat, before: nat)
    requires NodesOk(ns) && At(code, o, OpenAlternative(NodesCode(ns), JumpCode(JUMP_PAST_ALT, d))) && d < JUMP_LIMIT
    requires Cut(code, starts) && o in starts && NodesTame(ns, false, before)
    requires var m := o + |OpenAlternative(NodesCode(ns), JumpCode(JUMP_PAST_ALT, d))|;
      !Closes(code, starts, m) && !Closes(code, starts, m + d) && NoDummy(code, starts, m + d)
    ensures var m := o + |OpenAlternative(NodesCode(ns), JumpCode(JUMP_PAST_ALT, d))|;
      JumpsIn(code, starts, o, m) && m >= 3 && NoDummy(code, starts, m - 3)
    decreases ns, 1
  {
    hide Cut, At, NodesCode, OpenAlternative, NodesTame, NoDummy;
    var h := AlternativePlaces(ns, d, code, starts, o);
    AfterOther(code, starts, o, o + 3);
    AfterOther(code, starts, h, h + 3);
    NodesJumps(ns, code, starts, o + 3, before);
    EndsJump(code, starts, o, h, d);
  }

  lemma EndsJump(code: seq<byte>, starts: set<nat>, o: nat, h: nat, d: nat)
    requires Gap(starts, o, o + 3) && Gap(starts, h, h + 3) && o + 3 <= h && h + 3 <= |code|
    requires code[o] == ON_FAILURE_JUMP && Target(code, o) == h + 3
    requires code[h] == JUMP_PAST_ALT && Target(code, h) == h + 3 + d
    requires JumpsIn(code, starts, o + 3, h) && NoDummy(code, starts, h + 3) && NoDummy(code, starts, h + 3 + d)
    requires !Closes(code, starts, h + 3) && !Closes(code, starts, h + 3 + d)
    ensures JumpsIn(code, starts, o, h + 3)
  {
    hide Target;
    forall x | x in starts && o <= x < h + 3 && x < |code|
      ensures JumpNeat(code, starts, x)
    {
      if !(o + 3 <= x < h) {
        assert x == o || x == h;
      }
    }
  }

  // ----- whole patterns -----

  /** The groups can be numbered in a byte, or no loop is over one. */
  predicate Numberable(r: Alts) {
    PlainLoops(r) || AltsGroups(r) <= MAX_REGNUM
  }

  lemma TameWhole(ch: Choice)
    requires ChoiceOk(ch) && ChoiceNumbered(ch, 0) && Numberable(ExpandChoice(ch))
    ensures ChoiceTame(ch, PlainLoops(ExpandChoice(ch)), 0)
  {
    ChoiceExpandGroups(ch);
  }

  lemma WholeCode(ch: Choice, starts: set<nat>)
    requires Cut(ChoiceCode(ch), starts)
    ensures At(ChoiceCode(ch), 0, ChoiceCode(ch)) && 0 in starts
    ensures NoDummy(ChoiceCode(ch), starts, 0) && !Closes(ChoiceCode(ch), starts, |ChoiceCode(ch)|)
  {
    EndIsStart(ChoiceCode(ch), 0, |ChoiceCode(ch)|, starts, {});
    hide Shape, ChoiceCode;
  }

  /** If no loop is over a group, all are over single instructions. */
  lemma PlainTight(ch: Choice, starts: set<nat>)
    requires ChoiceOk(ch) && Cut(ChoiceCode(ch), starts) && PlainLoops(ExpandChoice(ch))
    ensures forall t :: Closes(ChoiceCode(ch), starts, t) ==> TightAt(ChoiceCode(ch), t)
    ensures Neat(ChoiceCode(ch), starts)
  {
    hide Shape, ChoiceCode, TightAt, OwnNumber, ChoiceOk, PlainLoops;
    WholeCode(ch, starts);
    ChoiceFormed(ch, ChoiceCode(ch), starts, 0, true, 0);
    forall t | Closes(ChoiceCode(ch), starts, t)
      ensures TightAt(ChoiceCode(ch), t)
    {
      assert FormedAt(ChoiceCode(ch), starts, t, true, 0);
    }
  }

  /** Then the loops of its code are neat. */
  lemma CodeNeat(ch: Choice, starts: set<nat>)
    requires ChoiceOk(ch) && ChoiceNumbered(ch, 0) && Cut(ChoiceCode(ch), starts) && Numberable(ExpandChoice(ch))
    ensures Neat(ChoiceCode(ch), starts)
  {
    hide Shape, ChoiceCode, ChoiceTame, TightAt, OwnNumber, ChoiceOk, ChoiceNumbered, PlainLoops, AltsGroups, JumpNeat;
    if PlainLoops(ExpandChoice(ch)) {
      PlainTight(ch, starts);
    } else {
      var code := ChoiceCode(ch);
      WholeCode(ch, starts);
      TameWhole(ch);
      ChoiceFormed(ch, code, starts, 0, false, 0);
      ChoiceJumps(ch, code, starts, 0, 0);
      forall t | Closes(code, starts, t)
        ensures NeatAt(code, starts, t)
      {
        assert FormedAt(code, starts, t, false, 0);
      }
    }
  }
}
