/** What comes after the loops of a pattern in its code, and that the matcher is right about the loops that are
    safe. */
module LoopTrust {
  import opened Bytes
  import opened Bytecode
  import opened CodeMeaning
  import opened CodePlaces
  import opened CodeShape
  import opened CodeTree
  import opened Ere
  import opened Judgement
  import opened LoopCode
  import opened LoopForms
  import opened LoopSafety
  import opened Numbering
  import opened PopDecision

  // ----- expressions that save nothing -----

  /** Nothing is saved between. */
  ghost predicate Quiet(code: seq<byte>, starts: set<nat>, o: nat, e: nat) {
    forall x :: x in starts && o <= x < e && x < |code| ==> !TakesNumber(code[x]) && code[x] != PUSH_DUMMY_FAILURE
  }

  lemma {:induction false} ForklessChars(b: Branch, chars: seq<TextChar>)
    ensures BranchForkless(AddChars(b, chars)) <==> BranchForkless(b)
    decreases |chars|
  {
    if chars != [] {
      ForklessChars(b, chars[..|chars| - 1]);
    }
  }

  lemma ForklessNodes(init: Nodes, last: Node)
    requires BranchForkless(Expand(Add(init, last))) && NodeOk(last)
    ensures BranchForkless(Expand(init)) && PieceForkless(PieceOf(last))
  {
    hide Expand, AddChars;
    ExpandLast(init, last);
    if last.Text? {
      ForklessChars(Expand(init), last.chars);
    }
  }

  lemma ForklessGroup(reg: nat, inner: nat, choice: Choice)
    requires PieceForkless(PieceOf(Grouped(reg, inner, choice)))
    ensures choice.Sole? && BranchForkless(Expand(choice.nodes))
    ensures ChoiceCode(choice) == NodesCode(choice.nodes) && (ChoiceOk(choice) ==> NodesOk(choice.nodes))
  {
    hide PieceOf, ExpandChoice;
    GroupPiece(reg, inner, choice);
  }

  lemma ForklessRepeated(body: Node, ops: seq<Op>)
    requires ops != []
    ensures !PieceForkless(PieceOf(Repeated(body, ops)))
  {
    RepeatedPiece(body, ops);
  }

  lemma {:induction false} NodesQuiet(ns: Nodes, code: seq<byte>, starts: set<nat>, o: nat)
    requires NodesOk(ns) && At(code, o, NodesCode(ns)) && Cut(code, starts) && o in starts
    requires BranchForkless(Expand(ns))
    ensures Quiet(code, starts, o, o + |NodesCode(ns)|)
    decreases ns
  {
    hide Cut, At, NodeCode, BranchForkless, PieceForkless;
    if ns.Add? {
      AtSplit(code, o, NodesCode(ns.init), NodeCode(ns.last));
      NodesEnd(ns.init, code, starts, o);
      ForklessNodes(ns.init, ns.last);
      NodesQuiet(ns.init, code, starts, o);
      NodeQuiet(ns.last, code, starts, o + |NodesCode(ns.init)|);
    }
  }

  lemma {:induction false} NodeQuiet(n: Node, code: seq<byte>, starts: set<nat>, o: nat)
    requires NodeOk(n) && At(code, o, NodeCode(n)) && Cut(code, starts) && o in starts && PieceForkless(PieceOf(n))
    ensures Quiet(code, starts, o, o + |NodeCode(n)|)
    decreases n
  {
    hide Cut, At, NodeCode, ChoiceOk, PieceOf, PieceForkless;
    match n {
      case Grouped(reg, inner, choice) =>
        ForklessGroup(reg, inner, choice);
        var o1, o2, o3, e := GroupPlaces(reg, inner, choice, code, starts, o);
        NodesQuiet(choice.nodes, code, starts, o1);
      case Repeated(body, ops) => ForklessRepeated(body, ops);
      case _ => UnitPlace(n, code, starts, o);
    }
  }

  // ----- what comes next -----

  predicate Compared(instr: Instr) {
    instr.Exact? || instr.LineEnd? || (instr.CharSet? && !instr.negated)
  }

  /** What an instruction is when `next` comes next. */
  ghost predicate Shows(instr: Instr, next: Ahead) {
    match next
    case Nothing => false
    case Char(c) => if instr.Exact? then instr.bytes != [] && instr.bytes[0] == c else instr.LineEnd? && c == NEWLINE
    case List(members) => instr.CharSet? && !instr.negated && Represents(instr.bitmap, members)
    case Other => !Compared(instr)
  }

  /** What the matcher looks at from `p` on is what comes next in the pattern. */
  ghost predicate Sees(code: seq<byte>, p: nat, next: Ahead) {
    var y := Follow(code, p);
    if next.Nothing? then y >= |code| else y < |code| && Shows(Decode(code, y), next)
  }

  predicate Skips(op: byte) {
    op == START_MEMORY || op == STOP_MEMORY || op == DUMMY_FAILURE_JUMP
  }

  lemma StaysHere(code: seq<byte>, p: nat)
    requires p < |code| && !Skips(code[p])
    ensures Follow(code, p) == p
  {
  }

  lemma UnitSeen(n: Node, code: seq<byte>, o: nat, next: Ahead)
    requires (n.Text? || n.Simple? || n.Set?) && NodeOk(n) && At(code, o, NodeCode(n))
    ensures Sees(code, o, PieceAhead(PieceOf(n), next))
  {
    hide Decode, Represents, Follow;
    match n {
      case Text(chars) => DecodeCounted(code, o, EXACTN, TextBytes(chars));
      case Simple(atom) => DecodeSimple(code, o, SimpleCode(atom)[0]);
      case Set(_, negated, _, bitmap) =>
        SetSize(n);
        DecodeCounted(code, o, if negated then CHARSET_NOT else CHARSET, bitmap);
    }
    StaysHere(code, o);
  }

  lemma SeesOther(code: seq<byte>, p: nat)
    requires p < |code| && (code[p] == ON_FAILURE_JUMP || code[p] == JUMP_PAST_ALT || code[p] == MAYBE_POP_JUMP
                            || code[p] == PUSH_DUMMY_FAILURE)
    ensures Sees(code, p, Other)
  {
    hide Target;
    StaysHere(code, p);
  }

  lemma SeesOn(code: seq<byte>, p: nat, next: Ahead)
    requires p + 2 < |code| && (code[p] == START_MEMORY || code[p] == STOP_MEMORY) && Sees(code, p + 3, next)
    ensures Sees(code, p, next)
  {
    assert Follow(code, p) == Follow(code, p + 3);
    hide Follow, Decode;
  }

  lemma SeesOver(code: seq<byte>, p: nat, next: Ahead)
    requires p + 6 < |code| && code[p] == DUMMY_FAILURE_JUMP && Sees(code, p + 6, next)
    ensures Sees(code, p, next)
  {
    assert Follow(code, p) == Follow(code, p + 6);
    hide Follow, Decode;
  }

  lemma {:induction false} AheadChars(b: Branch, chars: seq<TextChar>, next: Ahead)
    requires chars != []
    ensures BranchAhead(AddChars(b, chars), next) == BranchAhead(b, Char(chars[0].c))
    ensures BranchSafe(AddChars(b, chars), next) <==> BranchSafe(b, Char(chars[0].c))
    decreases |chars|
  {
    var front, last := chars[..|chars| - 1], chars[|chars| - 1];
    var p := Once(Chr(last.c, last.escaped));
    assert AddChars(b, chars) == Snoc(AddChars(b, front), p);
    assert PieceAhead(p, next) == Char(last.c) && PieceSafe(p, next);
    if front == [] {
      assert AddChars(b, front) == b;
    } else {
      AheadChars(b, front, Char(last.c));
    }
  }

  lemma AheadNodes(init: Nodes, last: Node, next: Ahead)
    requires NodeOk(last)
    ensures var seen := PieceAhead(PieceOf(last), next);
      && BranchAhead(Expand(Add(init, last)), next) == BranchAhead(Expand(init), seen)
      && (BranchSafe(Expand(Add(init, last)), next) <==>
        BranchSafe(Expand(init), seen) && PieceSafe(PieceOf(last), next))
  {
    hide Expand, AddChars;
    ExpandLast(init, last);
    if last.Text? {
      AheadChars(Expand(init), last.chars, next);
    }
  }

  /** What follows the alternatives of a group, and what comes next at its beginning. */
  function AfterChoice(ch: Choice, next: Ahead): Ahead {
    if ch.Or? then Other else next
  }

  lemma AheadGroup(reg: nat, inner: nat, choice: Choice, next: Ahead)
    ensures PieceAhead(PieceOf(Grouped(reg, inner, choice)), next) ==
      if choice.Sole? then BranchAhead(Expand(choice.nodes), next) else Other
    ensures PieceSafe(PieceOf(Grouped(reg, inner, choice)), next) <==>
      AltsSafe(ExpandChoice(choice), AfterChoice(choice, next))
  {
    hide PieceOf, ExpandChoice;
    GroupPiece(reg, inner, choice);
    var alts := ExpandChoice(choice);
    assert PieceAhead(Once(Group(alts)), next) == AltsAhead(alts, next);
  }

  lemma AheadRepeated(body: Node, ops: seq<Op>, next: Ahead)
    requires ops != [] && Repeatable(body)
    ensures PieceAhead(PieceOf(Repeated(body, ops)), next) ==
      if ZeroOk(ops) then Other else PieceAhead(PieceOf(body), Other)
    ensures PieceSafe(PieceOf(Repeated(body, ops)), next) <==>
      if ManyOk(ops) then LoopSafe(PieceOf(body).atom, next) && PieceSafe(PieceOf(body), Other)
      else PieceSafe(PieceOf(body), next)
  {
    hide ManyOk, ZeroOk;
    OncePiece(body);
    RepeatedPiece(body, ops);
    hide PieceOf, RepAll;
    RunAhead(PieceOf(body).atom, ops, next);
    RunSafe(PieceOf(body).atom, ops, next);
  }

  lemma {:induction false} NodesSeen(ns: Nodes, code: seq<byte>, starts: set<nat>, o: nat, next: Ahead)
    requires NodesOk(ns) && At(code, o, NodesCode(ns)) && Cut(code, starts) && o in starts
    requires Sees(code, o + |NodesCode(ns)|, next)
    ensures Sees(code, o, BranchAhead(Expand(ns), next))
    decreases ns, 0
  {
    hide Cut, At, NodeCode, Sees, PieceAhead;
    if ns.Add? {
      AtSplit(code, o, NodesCode(ns.init), NodeCode(ns.last));
      NodesEnd(ns.init, code, starts, o);
      AheadNodes(ns.init, ns.last, next);
      NodeSeen(ns.last, code, starts, o + |NodesCode(ns.init)|, next);
      NodesSeen(ns.init, code, starts, o, PieceAhead(PieceOf(ns.last), next));
    }
  }

  lemma {:induction false} NodeSeen(n: Node, code: seq<byte>, starts: set<nat>, o: nat, next: Ahead)
    requires NodeOk(n) && At(code, o, NodeCode(n)) && Cut(code, starts) && o in starts
    requires Sees(code, o + |NodeCode(n)|, next)
    ensures Sees(code, o, PieceAhead(PieceOf(n), next))
    decreases n, 0
  {
    hide Cut, At, NodeCode, ChoiceOk, PieceAhead, PieceOf, Sees, ZeroOk, ManyOk;
    match n {
      case Grouped(reg, inner, choice) => GroupSeen(reg, inner, choice, code, starts, o, next);
      case Repeated(body, ops) =>
        var q, t, e := RepeatPlaces(body, ops, code, starts, o);
        RepeatedOk(body, ops);
        AheadRepeated(body, ops, next);
        SeesOther(code, q);
        if !ZeroOk(ops) {
          RunAllows(ops);
          SeesOther(code, t);
          NodeSeen(body, code, starts, q + 3, Other);
          SeesOver(code, o, PieceAhead(PieceOf(body), Other));
        }
      case _ => UnitSeen(n, code, o, next);
    }
  }

  lemma {:induction false} GroupSeen(reg: nat, inner: nat, choice: Choice, code: seq<byte>, starts: set<nat>, o: nat,
                                     next: Ahead)
    requires ChoiceOk(choice) && At(code, o, NodeCode(Grouped(reg, inner, choice))) && Cut(code, starts) && o in starts
    requires Sees(code, o + |NodeCode(Grouped(reg, inner, choice))|, next)
    ensures Sees(code, o, PieceAhead(PieceOf(Grouped(reg, inner, choice)), next))
    decreases choice, 1
  {
    hide Cut, At, NodeCode, ChoiceOk, PieceAhead, PieceOf, Sees;
    var o1, o2, o3, e := GroupPlaces(reg, inner, choice, code, starts, o);
    AheadGroup(reg, inner, choice, next);
    AfterGroup(choice, reg, code, starts, o, o1, o2, o3, e, next);
    if choice.Sole? {
      SoleParts(choice);
      NodesSeen(choice.nodes, code, starts, o1, next);
    } else {
      SoleParts(choice);
      var m := OrPlaces(choice.init, choice.nodes, code, starts, o1);
      OpenForks(choice.init, |NodesCode(choice.nodes)|, code, starts, o1);
      SeesOther(code, o1);
    }
    if reg <= MAX_REGNUM {
      SeesOn(code, o, PieceAhead(PieceOf(Grouped(reg, inner, choice)), next));
    }
  }

  lemma SoleParts(choice: Choice)
    requires ChoiceOk(choice)
    ensures choice.Sole? ==> NodesOk(choice.nodes) && ChoiceCode(choice) == NodesCode(choice.nodes)
    ensures choice.Or? ==> ChoiceOk(choice.init) && NodesOk(choice.nodes) && choice == Or(choice.init, choice.nodes)
  {
  }

  /** Past the alternatives of a group is what pushes a dummy, or its end and what follows it. */
  lemma AfterGroup(choice: Choice, reg: nat, code: seq<byte>, starts: set<nat>, o: nat, o1: nat, o2: nat, o3: nat,
                   e: nat, next: Ahead)
    requires GroupLaid(code, starts, reg, choice, o, o1, o2, o3, e) && Sees(code, e, next)
    ensures Sees(code, o2, AfterChoice(choice, next))
  {
    hide Sees, At;
    if choice.Or? {
      SeesOther(code, o2);
    } else if reg <= MAX_REGNUM {
      SeesOn(code, o3, next);
    }
  }

  lemma {:induction false} OpenForks(ch: Choice, d: nat, code: seq<byte>, starts: set<nat>, o: nat)
    requires ChoiceOk(ch) && At(code, o, OpenCode(ch, JumpCode(JUMP_PAST_ALT, d))) && d < JUMP_LIMIT
    requires Cut(code, starts) && o in starts
    ensures o < |code| && code[o] == ON_FAILURE_JUMP
    decreases ch
  {
    hide Cut, At, NodesCode, OpenAlternative, Target;
    match ch {
      case Sole(ns) =>
        var _ := AlternativePlaces(ns, d, code, starts, o);
      case Or(init, ns) =>
        var _ := MoreOpen(init, ns, d, code, starts, o);
        OpenForks(init, |NodesCode(ns)| + 3, code, starts, o);
    }
  }

  // ----- what the matcher decides rightly -----

  /** The closing jumps between are decided rightly. */
  ghost predicate TrustedIn(code: seq<byte>, starts: set<nat>, o: nat, e: nat) {
    forall x :: x in starts && o <= x < e && Closes(code, starts, x) ==> Trusted(code, starts, x)
  }

  lemma NotClosing(code: seq<byte>, starts: set<nat>, x: nat)
    requires x < |code| && code[x] != MAYBE_POP_JUMP
    ensures !Closes(code, starts, x)
  {
  }

  /** A map of full length has one of the last eight characters. */
  lemma FullMap(bitmap: seq<byte>, members: set<byte>)
    requires Represents(bitmap, members) && Trimmed(bitmap) && |bitmap| == 32
    ensures exists m: byte :: m in members && 248 <= m
  {
    var k := SomeBit(bitmap[31], 8);
    assert (248 + k) / 8 == 31 && (248 + k) % 8 == k;
    assert InBitmap(bitmap, 248 + k) && 248 + k in members;
  }

  lemma {:induction false} SomeBit(b: nat, n: nat) returns (k: nat)
    requires 0 < b < Pow2(n)
    ensures k < n && Bit(b, k)
    decreases n
  {
    if b % 2 == 1 {
      k := 0;
    } else {
      var j := SomeBit(b / 2, n - 1);
      k := j + 1;
    }
  }

  lemma TightTrusted(body: Node, code: seq<byte>, starts: set<nat>, t: nat, next: Ahead)
    requires Cut(code, starts) && Closes(code, starts, t) && TightAt(code, t) && Sees(code, t + 3, next)
    requires NodeOk(body) && Repeatable(body) && !body.Grouped? && At(code, Target(code, t) + 3, NodeCode(body))
    requires LoopSafe(PieceOf(body).atom, next)
    ensures Trusted(code, starts, t)
  {
    hide Decode, Represents, Target, Shape, Follow, At, Judged, InBitmap, NodeCode;
    var b := Target(code, t) + 3;
    SingleBody(body, code, b);
    FairExactly(code, starts, t);
    var p2 := Follow(code, t + 3);
    if p2 < |code| && Comparable(Body(code, t), Decode(code, p2)) {
      NotMistaken(body, Body(code, t), Decode(code, p2), next);
    }
  }

  lemma NotMistaken(body: Node, instr: Instr, follow: Instr, next: Ahead)
    requires NodeOk(body) && Repeatable(body) && !body.Grouped? && LoopSafe(PieceOf(body).atom, next)
    requires body.Text? ==> instr == Exact([body.chars[0].c])
    requires body.Simple? ==> instr == AnyChar
    requires body.Set? ==> instr == CharSet(body.negated, body.bitmap)
    requires Comparable(instr, follow) && Shows(follow, next)
    ensures !Mistaken(instr, follow)
  {
    if body.Text? {
      assert PieceOf(body).atom.c == body.chars[0].c;
    } else if body.Set? && |body.bitmap| == 32 {
      FullMap(body.bitmap, body.members);
    }
  }

  lemma GroupTrusted(reg: nat, choice: Choice, code: seq<byte>, starts: set<nat>, q: nat, t: nat, o1: nat, o2: nat,
                     o3: nat, next: Ahead)
    requires GroupLaid(code, starts, reg, choice, q + 3, o1, o2, o3, t) && reg <= MAX_REGNUM
    requires t + 3 <= |code| && Target(code, t) == q && ChoiceOk(choice) && Cut(code, starts)
    requires Sees(code, t + 3, next) && LoopSafe(Group(ExpandChoice(choice)), next)
    ensures Trusted(code, starts, t)
  {
    hide Target, At, TightAt, Follow, Decode, Cut, ChoiceOk;
    assert GroupAt(code, t) && GroupOf(code, t) == reg;
    NotBoth(code, t);
    if next.Nothing? {
      SoleParts(choice);
      if choice.Or? {
        assert DummyEnd(code, starts, t);
      } else {
        ForklessChoice(choice);
        NodesQuiet(choice.nodes, code, starts, o1);
        assert Straight(code, starts, t);
      }
    }
  }

  lemma ForklessChoice(choice: Choice)
    requires choice.Sole? && LoopSafe(Group(ExpandChoice(choice)), Nothing)
    ensures BranchForkless(Expand(choice.nodes))
  {
  }

  lemma {:induction false} NodesTrusted(ns: Nodes, code: seq<byte>, starts: set<nat>, o: nat, plain: bool, before: nat,
                                        next: Ahead)
    requires NodesOk(ns) && At(code, o, NodesCode(ns)) && Cut(code, starts) && o in starts
    requires NodesTame(ns, plain, before) && BranchSafe(Expand(ns), next) && Sees(code, o + |NodesCode(ns)|, next)
    ensures TrustedIn(code, starts, o, o + |NodesCode(ns)|)
    decreases ns, 0
  {
    hide Cut, At, NodeCode, NodesTame, NodeTame, Trusted, BranchSafe, PieceSafe, Sees, PieceAhead, Closes;
    if ns.Add? {
      AtSplit(code, o, NodesCode(ns.init), NodeCode(ns.last));
      NodesEnd(ns.init, code, starts, o);
      TameNodes(ns.init, ns.last, plain, before);
      AheadNodes(ns.init, ns.last, next);
      var m := o + |NodesCode(ns.init)|;
      NodeSeen(ns.last, code, starts, m, next);
      NodesTrusted(ns.init, code, starts, o, plain, before, PieceAhead(PieceOf(ns.last), next));
      NodeTrusted(ns.last, code, starts, m, plain, before + NodesGroups(ns.init), next);
    }
  }

  lemma {:induction false} NodeTrusted(n: Node, code: seq<byte>, starts: set<nat>, o: nat, plain: bool, before: nat,
                                       next: Ahead)
    requires NodeOk(n) && At(code, o, NodeCode(n)) && Cut(code, starts) && o in starts && NodeTame(n, plain, before)
    requires PieceSafe(PieceOf(n), next) && Sees(code, o + |NodeCode(n)|, next)
    ensures TrustedIn(code, starts, o, o + |NodeCode(n)|)
    decreases n, 0
  {
    hide Cut, At, NodeCode, NodeTame, ChoiceOk, Trusted, PieceSafe, PieceOf, Sees;
    match n {
      case Grouped(reg, inner, choice) =>
        var o1, o2, o3, e := GroupTrustedIn(reg, inner, choice, code, starts, o, plain, before, next);
      case Repeated(body, ops) => RepeatTrusted(body, ops, code, starts, o, plain, before, next);
      case _ => UnitPlace(n, code, starts, o);
    }
  }

  lemma {:induction false} GroupTrustedIn(reg: nat, inner: nat, choice: Choice, code: seq<byte>, starts: set<nat>,
                                          o: nat, plain: bool, before: nat, next: Ahead)
    returns (o1: nat, o2: nat, o3: nat, e: nat)
    requires ChoiceOk(choice) && At(code, o, NodeCode(Grouped(reg, inner, choice))) && Cut(code, starts) && o in starts
    requires NodeTame(Grouped(reg, inner, choice), plain, before)
    requires PieceSafe(PieceOf(Grouped(reg, inner, choice)), next)
    requires Sees(code, o + |NodeCode(Grouped(reg, inner, choice))|, next)
    ensures e == o + |NodeCode(Grouped(reg, inner, choice))| && GroupLaid(code, starts, reg, choice, o, o1, o2, o3, e)
    ensures TrustedIn(code, starts, o, e) && (!plain ==> reg <= MAX_REGNUM)
    decreases choice, 1
  {
    hide Cut, At, NodeCode, NodeTame, ChoiceOk, ChoiceTame, Trusted, PieceSafe, PieceOf, Sees, AltsSafe, Closes;
    TameGroup(reg, inner, choice, plain, before);
    AheadGroup(reg, inner, choice, next);
    o1, o2, o3, e := GroupPlaces(reg, inner, choice, code, starts, o);
    AfterGroup(choice, reg, code, starts, o, o1, o2, o3, e, next);
    ChoiceTrusted(choice, code, starts, o1, plain, reg, AfterChoice(choice, next));
    forall x | x in starts && o <= x < e && Closes(code, starts, x)
      ensures Trusted(code, starts, x)
    {
      if !(o1 <= x < o2) {
        assert x == o || x == o2 || x == o3;
        NotClosing(code, starts, x);
      }
    }
  }

  lemma {:induction false} RepeatTrusted(body: Node, ops: seq<Op>, code: seq<byte>, starts: set<nat>, o: nat,
                                         plain: bool, before: nat, next: Ahead)
    requires NodeOk(Repeated(body, ops)) && At(code, o, NodeCode(Repeated(body, ops))) && Cut(code, starts)
    requires o in starts && NodeTame(Repeated(body, ops), plain, before)
    requires PieceSafe(PieceOf(Repeated(body, ops)), next)
    requires Sees(code, o + |NodeCode(Repeated(body, ops))|, next)
    ensures TrustedIn(code, starts, o, o + |NodeCode(Repeated(body, ops))|)
    decreases body, 2
  {
    hide Cut, At, NodeCode, NodeTame, NodeOk, ManyOk, ZeroOk, Trusted, PieceSafe, PieceOf, Sees, LoopSafe;
    RepeatedOk(body, ops);
    TameRepeated(body, ops, plain, before);
    AheadRepeated(body, ops, next);
    var q, t, e := RepeatPlaces(body, ops, code, starts, o);
    var after := if ManyOk(ops) then Other else next;
    if ManyOk(ops) {
      SeesOther(code, t);
    }
    if body.Grouped? {
      GroupOk(body);
      var o1, o2, o3, _ :=
        GroupTrustedIn(body.reg, body.inner, body.choice, code, starts, q + 3, plain, before, after);
      if ManyOk(ops) {
        GroupPiece(body.reg, body.inner, body.choice);
        GroupTrusted(body.reg, body.choice, code, starts, q, t, o1, o2, o3, next);
      }
    } else {
      NodeTrusted(body, code, starts, q + 3, plain, before, after);
      if ManyOk(ops) {
        TightBody(body, ops, code, starts, o, q, t, e);
        TightTrusted(body, code, starts, t, next);
      }
    }
    forall x | x in starts && o <= x < e && Closes(code, starts, x)
      ensures Trusted(code, starts, x)
    {
      if !(q + 3 <= x < t) {
        assert x == o || x == q || x == t;
      }
    }
  }

  lemma {:induction false} ChoiceTrusted(ch: Choice, code: seq<byte>, starts: set<nat>, o: nat, plain: bool,
                                         before: nat, next: Ahead)
    requires ChoiceOk(ch) && At(code, o, ChoiceCode(ch)) && Cut(code, starts) && o in starts
    requires ChoiceTame(ch, plain, before) && AltsSafe(ExpandChoice(ch), next) && Sees(code, o + |ChoiceCode(ch)|, next)
    ensures TrustedIn(code, starts, o, o + |ChoiceCode(ch)|)
    decreases ch, 0
  {
    hide Cut, At, NodesCode, OpenCode, ChoiceTame, NodesTame, Trusted, Sees, Closes, BranchSafe;
    match ch {
      case Sole(ns) =>
        SoleTame(ns, plain, before);
        NodesTrusted(ns, code, starts, o, plain, before, next);
      case Or(init, ns) =>
        TameOr(init, ns, plain, before);
        var m := OrPlaces(init, ns, code, starts, o);
        OpenTrusted(init, |NodesCode(ns)|, code, starts, o, plain, before);
        NodesTrusted(ns, code, starts, m, plain, before + ChoiceGroups(init), next);
    }
  }

  lemma {:induction false} OpenTrusted(ch: Choice, d: nat, code: seq<byte>, starts: set<nat>, o: nat, plain: bool,
                                       before: nat)
    requires ChoiceOk(ch) && At(code, o, OpenCode(ch, JumpCode(JUMP_PAST_ALT, d))) && d < JUMP_LIMIT
    requires Cut(code, starts) && o in starts && ChoiceTame(ch, plain, before) && AltsSafe(ExpandChoice(ch), Other)
    ensures TrustedIn(code, starts, o, o + |OpenCode(ch, JumpCode(JUMP_PAST_ALT, d))|)
    decreases ch, 0
  {
    hide Cut, At, NodesCode, OpenAlternative, ChoiceTame, NodesTame, Trusted, Closes, BranchSafe;
    match ch {
      case Sole(ns) =>
        SoleTame(ns, plain, before);
        AlternativeTrusted(ns, d, code, starts, o, plain, before);
      case Or(init, ns) =>
        TameOr(init, ns, plain, before);
        var m := MoreOpen(init, ns, d, code, starts, o);
        OpenTrusted(init, |NodesCode(ns)| + 3, code, starts, o, plain, before);
        AlternativeTrusted(ns, d, code, starts, m, plain, before + ChoiceGroups(init));
    }
  }

  lemma {:induction false} AlternativeTrusted(ns: Nodes, d: nat, code: seq<byte>, starts: set<nat>, o: nat, plain: bool,
                                              before: nat)
    requires NodesOk(ns) && At(code, o, OpenAlternative(NodesCode(ns), JumpCode(JUMP_PAST_ALT, d))) && d < JUMP_LIMIT
    requires Cut(code, starts) && o in starts && NodesTame(ns, plain, before) && BranchSafe(Expand(ns), Other)
    ensures TrustedIn(code, starts, o, o + |OpenAlternative(NodesCode(ns), JumpCode(JUMP_PAST_ALT, d))|)
    decreases ns, 1
  {
    hide Cut, At, NodesCode, OpenAlternative, NodesTame, Trusted, Target, Closes, Sees;
    var h := AlternativePlaces(ns, d, code, starts, o);
    SeesOther(code, h);
    NodesTrusted(ns, code, starts, o + 3, plain, before, Other);
    forall x | x in starts && o <= x < h + 3 && Closes(code, starts, x)
      ensures Trusted(code, starts, x)
    {
      if !(o + 3 <= x < h) {
        assert x == o || x == h;
        NotClosing(code, starts, x);
      }
    }
  }

  lemma AtTheEnd(code: seq<byte>)
    ensures Sees(code, |code|, Nothing)
  {
  }

  /** And if the loops are safe, the matcher is right about all of them. */
  lemma CodeTrusted(ch: Choice, starts: set<nat>)
    requires ChoiceOk(ch) && ChoiceNumbered(ch, 0) && Cut(ChoiceCode(ch), starts)
    requires Numberable(ExpandChoice(ch)) && SafeLoops(ExpandChoice(ch))
    ensures forall t :: Closes(ChoiceCode(ch), starts, t) ==> Trusted(ChoiceCode(ch), starts, t)
  {
    hide Shape, ChoiceCode, ChoiceTame, Trusted, ChoiceOk, ChoiceNumbered, Sees, AltsSafe, PlainLoops, AltsGroups;
    WholeCode(ch, starts);
    assert Sees(ChoiceCode(ch), |ChoiceCode(ch)|, Nothing) by { AtTheEnd(ChoiceCode(ch)); }
    TameWhole(ch);
    ChoiceTrusted(ch, ChoiceCode(ch), starts, 0, PlainLoops(ExpandChoice(ch)), 0, Nothing);
  }
}
