/** For which patterns the making of the first-byte map looks at the byte after the code. */
module PastTheEnd {
  import opened Bytecode
  import opened Bytes
  import opened CodeMeaning
  import opened CodePlaces
  import opened CodeShape
  import opened CodeTree
  import opened CompilerState
  import opened Ere
  import opened Fastmap
  import opened LoopCode
  import opened LoopDepth
  import opened Numbering

  // ----- what can match nothing -----

  predicate PiecePassable(p: Piece) {
    match p
    case Once(Group(alts)) => AltsPassable(alts)
    case Once(a) => a.Bol? || a.Eol?
    case Rep(q, op) => op != Plus || PiecePassable(q)
  }

  predicate BranchPassable(b: Branch) {
    match b
    case Empty => true
    case Snoc(init, last) => BranchPassable(init) && PiecePassable(last)
  }

  /** Some alternative can be passed without consuming anything, anchors permitting. */
  predicate AltsPassable(r: Alts) {
    match r
    case One(b) => BranchPassable(b)
    case More(others, b) => AltsPassable(others) || BranchPassable(b)
  }

  /** The last alternative is empty, and one before it can be passed. */
  predicate OpenEnded(r: Alts) {
    r.More? && r.branch == Empty && AltsPassable(r.others)
  }

  /** These are the expressions that match the empty text. */
  lemma {:induction false} AltsMatchNothing(r: Alts, k: nat)
    ensures AltsMatch(r, [], 0, k) <==> k == 0 && AltsPassable(r)
    decreases r, 2
  {
    match r {
      case One(b) => BranchMatchesNothing(b, k);
      case More(others, b) =>
        AltsMatchNothing(others, k);
        BranchMatchesNothing(b, k);
    }
  }

  lemma {:induction false} BranchMatchesNothing(b: Branch, k: nat)
    ensures BranchMatches(b, [], 0, k) <==> k == 0 && BranchPassable(b)
    decreases b, 1
  {
    if b.Snoc? {
      BranchMatchesNothing(b.init, 0);
      PieceMatchesNothing(b.last, k);
      if m: nat :| BranchMatches(b.init, [], 0, m) && PieceMatches(b.last, [], m, k) {
        BranchMatchesNothing(b.init, m);
      }
    }
  }

  lemma {:induction false} PieceMatchesNothing(p: Piece, k: nat)
    ensures PieceMatches(p, [], 0, k) <==> k == 0 && PiecePassable(p)
    decreases p, 0
  {
    match p {
      case Once(Group(alts)) => AltsMatchNothing(alts, k);
      case Once(_) =>
      case Rep(q, Opt) => PieceMatchesNothing(q, k);
      case Rep(q, _) =>
        PieceMatchesNothing(q, 0);
        assert Repeats(q, [], 0, 0, 0);
        if PiecePassable(q) {
          assert Repeats(q, [], 0, 0, 1);
        }
        if n: nat :| Repeats(q, [], 0, k, n) {
          RepeatsNothing(q, k, n);
        }
        forall n: nat | n >= 1 && Repeats(q, [], 0, k, n)
          ensures k == 0 && PiecePassable(q)
        {
          RepeatsNothing(q, k, n);
        }
    }
  }

  lemma {:induction false} RepeatsNothing(q: Piece, k: nat, n: nat)
    requires Repeats(q, [], 0, k, n)
    ensures k == 0 && (n > 0 ==> PiecePassable(q))
    decreases q, 1, n
  {
    if n > 0 {
      var m: nat :| PieceMatches(q, [], 0, m) && Repeats(q, [], m, k, n - 1);
      PieceMatchesNothing(q, m);
      RepeatsNothing(q, k, n - 1);
    }
  }

  // ----- silent steps are those on the empty text -----

  lemma SilentAccepts(code: seq<byte>, pc: nat, to': nat)
    requires Silent(code, pc, to') && AccFrom(code, [], to', 0, 0)
    ensures AccFrom(code, [], pc, 0, 0)
  {
    var n: nat :| Acc(code, [], to', 0, 0, n);
    assert Acc(code, [], pc, 0, 0, n + 1);
  }

  lemma {:induction false} ReachedAccepts(code: seq<byte>, pc: nat, n: nat)
    requires Reached(code, pc, n) && AccFrom(code, [], pc, 0, 0)
    ensures Accepts(code, [], 0, 0)
    decreases n
  {
    hide AccFrom, Silent;
    if n > 0 {
      var x: nat :| Reached(code, x, n - 1) && Silent(code, x, pc);
      SilentAccepts(code, x, pc);
      ReachedAccepts(code, x, n - 1);
    }
  }

  lemma EndReachable(code: seq<byte>)
    ensures Reachable(code, |code|) <==> Accepts(code, [], 0, 0)
  {
    hide Accepts;
    if Accepts(code, [], 0, 0) {
      AcceptedStarts(code, [], 0, 0);
    }
    if Reachable(code, |code|) {
      var n: nat :| Reached(code, |code|, n);
      assert Acc(code, [], |code|, 0, 0, 0);
      ReachedAccepts(code, |code|, n);
    }
  }

  // ----- code that goes on differently from some place on -----

  lemma {:induction false} ReachedStart(code: seq<byte>, starts: set<nat>, pc: nat, n: nat)
    requires Shape(code, 0, |code|, starts, {}) && Reached(code, pc, n)
    ensures pc in starts
    decreases n
  {
    hide Shape, Silent, Leads;
    EndIsStart(code, 0, |code|, starts, {});
    if n > 0 {
      var x: nat :| Reached(code, x, n - 1) && Silent(code, x, pc);
      ReachedStart(code, starts, x, n - 1);
      SilentLeads(code, x, pc);
      LeadsInside(code, x, pc);
      LeadsTo(code, 0, |code|, starts, {}, x, pc);
    }
  }

  /** Nothing leads back to `x` or to before it. */
  ghost predicate Onward(code: seq<byte>, starts: set<nat>, x: nat) {
    forall z: nat, y: nat :: z in starts && x <= z && Silent(code, z, y) ==> x < y
  }

  lemma {:induction false} SamePaths(code: seq<byte>, starts: set<nat>, code': seq<byte>, x: nat, y: nat, n: nat)
    requires Shape(code, 0, |code|, starts, {}) && x in starts && x <= |code'| && code[..x] == code'[..x]
    requires Onward(code, starts, x) && Reached(code, y, n) && y <= x
    ensures Reached(code', y, n)
    decreases n
  {
    hide Shape, Silent, Decode;
    if n > 0 {
      var z: nat :| Reached(code, z, n - 1) && Silent(code, z, y);
      ReachedStart(code, starts, z, n - 1);
      assert z < x;
      SamePaths(code, starts, code', x, z, n - 1);
      EndIsStart(code, 0, |code|, starts, {});
      InstructionOk(code, starts, z);
      SameInstr(code, code', x, z);
      SameSilent(code, code', z, y);
      assert Reached(code', z, n - 1) && Silent(code', z, y);
    }
  }

  lemma SameInstr(code: seq<byte>, code': seq<byte>, x: nat, z: nat)
    requires z < x <= |code| && x <= |code'| && code[..x] == code'[..x]
    requires Decode(code, z) != Bad && z + Decode(code, z).Length() <= x
    ensures Decode(code', z) == Decode(code, z)
  {
    var e := z + Decode(code, z).Length();
    assert forall k :: z <= k < e ==> code[k] == code[..x][k] == code'[..x][k] == code'[k];
    assert code[z..e] == code'[z..e];
    if Decode(code, z).Exact? || Decode(code, z).CharSet? {
      assert code[z + 2..e] == code'[z + 2..e];
    }
  }

  lemma SameSilent(code: seq<byte>, code': seq<byte>, z: nat, y: nat)
    requires z < |code| && z < |code'| && Decode(code', z) == Decode(code, z)
    ensures Silent(code', z, y) <==> Silent(code, z, y)
  {
    hide Decode;
  }

  // ----- the last exit of several alternatives -----

  const DOT: Nodes := Add(NoNode, Simple(Dot))

  lemma Pieces(front: seq<byte>, jump: seq<byte>, last: seq<byte>)
    ensures var code := front + jump + last;
      && code[..|front|] == front && At(code, |front|, jump) && At(code, |front| + |jump|, last)
  {
    var code := front + jump + last;
    assert code == front + (jump + last);
    ItselfWhole(code);
    AtSplit(code, 0, front, jump + last);
    AtSplit(code, |front|, jump, last);
  }

  lemma ItselfWhole(code: seq<byte>)
    ensures At(code, 0, code)
  {
  }

  lemma LastAlternative(init: Choice, ns: Nodes)
    ensures ChoiceCode(Or(init, ns)) ==
      OpenCode(init, []) + JumpCode(JUMP_PAST_ALT, |NodesCode(ns)|) + NodesCode(ns)
  {
    hide OpenCode, NodesCode;
    OpenCodeEnds(init, JumpCode(JUMP_PAST_ALT, |NodesCode(ns)|));
  }

  /** The jump over the last alternative, and that alternative. */
  lemma LastExit(init: Choice, ns: Nodes)
    requires |NodesCode(ns)| < JUMP_LIMIT
    ensures var x, code, n := |OpenCode(init, [])|, ChoiceCode(Or(init, ns)), |NodesCode(ns)|;
      && |code| == x + 3 + n && code[..x] == OpenCode(init, []) && At(code, x + 3, NodesCode(ns))
      && code[x] == JUMP_PAST_ALT && Target(code, x) == x + 3 + n && Decode(code, x) == Jump(x + 3 + n)
  {
    LastAlternative(init, ns);
    hide ChoiceCode, OpenCode, NodesCode, Decode, JumpCode, At, Target;
    var jump := JumpCode(JUMP_PAST_ALT, |NodesCode(ns)|);
    Pieces(OpenCode(init, []), jump, NodesCode(ns));
    DecodeJump(ChoiceCode(Or(init, ns)), |OpenCode(init, [])|, JUMP_PAST_ALT, |NodesCode(ns)|);
  }

  lemma ShortNodes()
    ensures NodesCode(NoNode) == [] && NodesCode(DOT) == [ANYCHAR]
  {
  }

  /** With a last alternative that is empty, and with one that is not. */
  lemma TwoCodes(init: Choice)
    requires ChoiceOk(init) && |ChoiceCode(Or(init, NoNode))| + 1 < JUMP_LIMIT
    ensures var x, code, code' := |OpenCode(init, [])|, ChoiceCode(Or(init, NoNode)), ChoiceCode(Or(init, DOT));
      && |code| == x + 3 && |code'| == x + 4 && code[..x] == code'[..x]
      && Decode(code, x) == Jump(x + 3) && Decode(code', x) == Jump(x + 4) && Decode(code', x + 3) == AnyChar
      && EmptyJump(code, x)
  {
    hide ChoiceCode, OpenCode, NodesCode, Decode, At, Target;
    ShortNodes();
    LastExit(init, NoNode);
    LastExit(init, DOT);
    DecodeSimple(ChoiceCode(Or(init, DOT)), |OpenCode(init, [])| + 3, ANYCHAR);
  }

  lemma OnwardFrom(code: seq<byte>, starts: set<nat>, x: nat)
    requires x < |code| && Decode(code, x) == Jump(|code|)
    requires |code| == x + 3 || (|code| == x + 4 && Decode(code, x + 3) == AnyChar)
    requires Shape(code, 0, |code|, starts, {}) && x in starts
    ensures forall z: nat, y: nat :: z in starts && x <= z && Silent(code, z, y) ==> z == x && y == |code|
  {
    hide Shape, Decode;
    InstructionOk(code, starts, x);
    EndIsStart(code, 0, |code|, starts, {});
  }

  /** The jump after the alternatives before the last. */
  lemma ExitStart(init: Choice, ns: Nodes, starts: set<nat>)
    requires ChoiceOk(init) && NodesOk(ns) && Cut(ChoiceCode(Or(init, ns)), starts)
    ensures |OpenCode(init, [])| in starts
  {
    hide Cut, ChoiceCode, OpenCode, At;
    var code := ChoiceCode(Or(init, ns));
    WholeCode(Or(init, ns), starts);
    var m := OrPlaces(init, ns, code, starts, 0);
    OpenCodeEnds(init, JumpCode(JUMP_PAST_ALT, |NodesCode(ns)|));
  }

  /** It is reached just when one of them can be passed. */
  lemma ExitReachable(init: Choice)
    requires ChoiceOk(init) && |ChoiceCode(Or(init, NoNode))| + 1 < JUMP_LIMIT
    ensures Reachable(ChoiceCode(Or(init, NoNode)), |OpenCode(init, [])|) <==> AltsPassable(ExpandChoice(init))
  {
    hide Shape, Decode, ChoiceCode, OpenCode, Silent, Accepts, Onward, AltsMatch, EmptyJump, ChoiceOk;
    var x, code, code' := |OpenCode(init, [])|, ChoiceCode(Or(init, NoNode)), ChoiceCode(Or(init, DOT));
    TwoCodes(init);
    AlternativesOk(init);
    var starts := CodeShaped(Or(init, NoNode));
    var starts' := CodeShaped(Or(init, DOT));
    ExitStart(init, NoNode, starts);
    ExitStart(init, DOT, starts');
    OnwardBoth(code, starts, x);
    OnwardBoth(code', starts', x);
    DotMeaning(init);
    EndReachable(code');
    if Reachable(code, x) {
      var n: nat :| Reached(code, x, n);
      SamePaths(code, starts, code', x, x, n);
      assert Reachable(code', x);
      ReachableStep(code', x, x + 4) by { JumpSilent(code', x, x + 4); }
    }
    if Reachable(code', x + 4) {
      var n: nat :| Reached(code', x + 4, n);
      var m := ThroughExit(code, starts, code', starts', x, n);
    }
  }

  lemma AlternativesOk(init: Choice)
    requires ChoiceOk(init)
    ensures ChoiceOk(Or(init, NoNode)) && ChoiceOk(Or(init, DOT)) && NodesOk(DOT) && NodesOk(NoNode)
  {
    assert NodeOk(Simple(Dot)) && NodesOk(NoNode);
  }

  lemma JumpSilent(code: seq<byte>, x: nat, to': nat)
    requires x < |code| && Decode(code, x) == Jump(to')
    ensures Silent(code, x, to')
  {
    hide Decode;
  }

  lemma OnwardBoth(code: seq<byte>, starts: set<nat>, x: nat)
    requires x < |code| && Decode(code, x) == Jump(|code|)
    requires |code| == x + 3 || (|code| == x + 4 && Decode(code, x + 3) == AnyChar)
    requires Shape(code, 0, |code|, starts, {}) && x in starts
    ensures Onward(code, starts, x)
  {
    hide Shape, Decode, Silent;
    OnwardFrom(code, starts, x);
  }

  lemma DotMeaning(init: Choice)
    requires ChoiceOk(Or(init, DOT)) && |ChoiceCode(Or(init, DOT))| < JUMP_LIMIT
    ensures Accepts(ChoiceCode(Or(init, DOT)), [], 0, 0) <==> AltsPassable(ExpandChoice(init))
  {
    hide Accepts, ChoiceCode, ChoiceOk, AltsMatch;
    var r := ExpandChoice(Or(init, DOT));
    CodeAcceptsMeaning(Or(init, DOT), [], 0, 0);
    AltsMatchNothing(r, 0);
    assert r == More(ExpandChoice(init), Expand(DOT));
    assert Expand(DOT) == Snoc(Empty, Once(Dot)) by { ExpandLast(NoNode, Simple(Dot)); }
    assert !PiecePassable(Once(Dot));
  }

  /** Whatever reaches the end of the longer code goes through the jump. */
  lemma ThroughExit(code: seq<byte>, starts: set<nat>, code': seq<byte>, starts': set<nat>, x: nat, n: nat)
    returns (m: nat)
    requires Shape(code, 0, |code|, starts, {}) && Shape(code', 0, |code'|, starts', {})
    requires |code| == x + 3 && |code'| == x + 4 && code[..x] == code'[..x]
    requires x in starts && x in starts' && Onward(code', starts', x)
    requires Decode(code', x) == Jump(x + 4) && Decode(code', x + 3) == AnyChar && Reached(code', x + 4, n)
    ensures Reached(code, x, m)
  {
    hide Shape, Decode, Silent, Onward;
    var z: nat :| Reached(code', z, n - 1) && Silent(code', z, x + 4);
    ReachedStart(code', starts', z, n - 1);
    OnwardFrom(code', starts', x);
    m := n - 1;
    if z < x {
      SamePaths(code', starts', code, x, z, n - 1);
      ReachedStart(code, starts, z, n - 1);
      EndIsStart(code, 0, |code|, starts, {});
      InstructionOk(code, starts, z);
      SameInstr(code, code', x, z);
      SameSilent(code, code', z, x + 4);
      SilentLeads(code, z, x + 4);
      LeadsTo(code, 0, |code|, starts, {}, z, x + 4);
      assert false;
    }
    SamePaths(code', starts', code, x, x, n - 1);
  }

  // ----- no other jump ends the code -----

  /** An instruction that ends the code and is no jump to the end. */
  lemma LastGap(code: seq<byte>, starts: set<nat>, o: nat, x: nat)
    requires Cut(code, starts) && Gap(starts, o, |code|) && o < |code|
    requires IsJump(code[o]) ==> o + 3 <= |code| && Target(code, o) < |code|
    requires x in starts
    ensures !EmptyJump(code, x)
  {
    hide Shape, Decode, Target;
    if EmptyJump(code, x) {
      InstructionOk(code, starts, x);
      OpcodeDecodes(code, x);
    }
  }

  lemma {:induction false} NodeLast(n: Node, code: seq<byte>, starts: set<nat>, o: nat, before: nat, x: nat)
    requires NodeOk(n) && At(code, o, NodeCode(n)) && Cut(code, starts) && o in starts && NodeTame(n, false, before)
    requires o + |NodeCode(n)| == |code| && x in starts
    ensures !EmptyJump(code, x)
    decreases n
  {
    hide Cut, At, NodeCode, NodeTame, ChoiceOk, EmptyJump, Target, ManyOk, ZeroOk;
    match n {
      case Grouped(reg, inner, choice) =>
        TameGroup(reg, inner, choice, false, before);
        var o1, o2, o3, e := GroupPlaces(reg, inner, choice, code, starts, o);
        LastGap(code, starts, o3, x);
      case Repeated(body, ops) =>
        RepeatedOk(body, ops);
        TameRepeated(body, ops, false, before);
        var q, t, e := RepeatPlaces(body, ops, code, starts, o);
        if ManyOk(ops) {
          LastGap(code, starts, t, x);
        } else {
          NodeLast(body, code, starts, q + 3, before, x);
        }
      case _ =>
        UnitPlace(n, code, starts, o);
        LastGap(code, starts, o, x);
    }
  }

  lemma NodesLast(ns: Nodes, code: seq<byte>, starts: set<nat>, o: nat, before: nat, x: nat)
    requires ns.Add? && NodesOk(ns) && At(code, o, NodesCode(ns)) && Cut(code, starts) && o in starts
    requires NodesTame(ns, false, before) && o + |NodesCode(ns)| == |code| && x in starts
    ensures !EmptyJump(code, x)
  {
    hide Cut, At, NodeCode, NodesTame, NodeTame, EmptyJump;
    AtSplit(code, o, NodesCode(ns.init), NodeCode(ns.last));
    NodesEnd(ns.init, code, starts, o);
    TameNodes(ns.init, ns.last, false, before);
    NodeLast(ns.last, code, starts, o + |NodesCode(ns.init)|, before + NodesGroups(ns.init), x);
  }

  lemma OnlyAfterNothing(tree: Choice, starts: set<nat>, x: nat)
    requires ChoiceOk(tree) && ChoiceTame(tree, false, 0) && Cut(ChoiceCode(tree), starts)
    requires x in starts && EmptyJump(ChoiceCode(tree), x)
    ensures tree.Or? && tree.nodes == NoNode
  {
    hide Cut, At, NodesTame, EmptyJump, OpenCode, NodesCode;
    var code := ChoiceCode(tree);
    WholeCode(tree, starts);
    match tree {
      case Sole(ns) =>
        SoleTame(ns, false, 0);
        if ns.Add? {
          NodesLast(ns, code, starts, 0, 0, x);
        } else {
          NoRoom(x);
        }
      case Or(init, ns) =>
        TameOr(init, ns, false, 0);
        var m := OrPlaces(init, ns, code, starts, 0);
        if ns.Add? {
          NodesLast(ns, code, starts, m, ChoiceGroups(init), x);
        }
    }
  }

  lemma NoRoom(x: nat)
    ensures !EmptyJump(ChoiceCode(Sole(NoNode)), x)
  {
  }

  // ----- patterns -----

  lemma NoNodeExpands(ns: Nodes)
    requires NodesOk(ns)
    ensures Expand(ns) == Empty <==> ns == NoNode
  {
    hide Represents, RepAll;
    if ns.Add? {
      assert ns.last.Text? ==> ns.last.chars != [];
      ExpandLast(ns.init, ns.last);
    }
  }

  /** The byte after the code is looked at if and only if the last alternative of the pattern is empty and one
      before it can be passed without consuming anything. */
  lemma LooksPastExactly(tree: Choice)
    requires ChoiceOk(tree) && ChoiceNumbered(tree, 0) && AltsGroups(ExpandChoice(tree)) <= MAX_REGNUM
    requires |ChoiceCode(tree)| + 1 < JUMP_LIMIT
    ensures LooksPast(ChoiceCode(tree)) <==> OpenEnded(ExpandChoice(tree))
  {
    hide ChoiceCode, EmptyJump, Reachable, OpenCode, AltsPassable, Shape, ChoiceNumbered, AltsGroups;
    var code := ChoiceCode(tree);
    TameTree(tree);
    EndsEmpty(tree);
    if tree.Or? && tree.nodes == NoNode {
      TwoCodes(tree.init);
      ExitReachable(tree.init);
    }
    if LooksPast(code) {
      var x: nat :| EmptyJump(code, x) && Reachable(code, x);
      var starts := CodeShaped(tree);
      ReachableStart(code, starts, x);
      OnlyAfterNothing(tree, starts, x);
      JumpPlaceIs(code, x, |OpenCode(tree.init, [])|);
    }
  }

  lemma TameTree(tree: Choice)
    requires ChoiceOk(tree) && ChoiceNumbered(tree, 0) && AltsGroups(ExpandChoice(tree)) <= MAX_REGNUM
    ensures ChoiceTame(tree, false, 0)
  {
    ChoiceExpandGroups(tree);
  }

  lemma EndsEmpty(tree: Choice)
    requires ChoiceOk(tree)
    ensures OpenEnded(ExpandChoice(tree)) <==>
      tree.Or? && tree.nodes == NoNode && AltsPassable(ExpandChoice(tree.init))
    ensures tree.Or? ==> ChoiceOk(tree.init) && tree == Or(tree.init, tree.nodes)
  {
    NoNodeExpands(tree.nodes);
  }

  lemma ReachableStart(code: seq<byte>, starts: set<nat>, x: nat)
    requires Shape(code, 0, |code|, starts, {}) && Reachable(code, x)
    ensures x in starts
  {
    hide Shape;
    var n: nat :| Reached(code, x, n);
    ReachedStart(code, starts, x, n);
  }

  lemma JumpPlaceIs(code: seq<byte>, x: nat, y: nat)
    requires EmptyJump(code, x) && |code| == y + 3
    ensures x == y
  {
  }
}
