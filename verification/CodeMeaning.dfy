/** What the code of a tree accepts is what the expression it translates matches. */
module CodeMeaning {
  import opened Bytes
  import opened Ere
  import opened Bytecode
  import opened CodeTree

  /** Jump displacements in code below this length all fit their two bytes. */
  const JUMP_LIMIT := 32768

  predicate TextMatches(chars: seq<TextChar>, text: seq<byte>, i: nat, k: nat) {
    k == i + |chars| && forall x :: 0 <= x < |chars| ==> i + x < |text| && text[i + x] == chars[x].c
  }

  ghost predicate NodeMatches(n: Node, text: seq<byte>, i: nat, k: nat) {
    if n.Text? then TextMatches(n.chars, text, i, k) else PieceMatches(PieceOf(n), text, i, k)
  }

  ghost predicate ThenText(b: Branch, chars: seq<TextChar>, text: seq<byte>, i: nat, k: nat) {
    k >= |chars| && BranchMatches(b, text, i, k - |chars|) && TextMatches(chars, text, k - |chars|, k)
  }

  lemma {:induction false} CharsMatch(b: Branch, chars: seq<TextChar>, text: seq<byte>, i: nat, k: nat)
    ensures BranchMatches(AddChars(b, chars), text, i, k) <==> ThenText(b, chars, text, i, k)
    decreases |chars|
  {
    if chars != [] {
      var front, last := chars[..|chars| - 1], chars[|chars| - 1];
      var piece := Once(Chr(last.c, last.escaped));
      assert AddChars(b, chars) == Snoc(AddChars(b, front), piece);
      forall x: nat {
        CharsMatch(b, front, text, i, x);
      }
      if BranchMatches(AddChars(b, chars), text, i, k) {
        assert BranchMatches(Snoc(AddChars(b, front), piece), text, i, k);
        var x: nat :| BranchMatches(AddChars(b, front), text, i, x) && PieceMatches(piece, text, x, k);
        assert AtomMatches(piece.atom, text, x, k);
      }
      if ThenText(b, chars, text, i, k) {
        var x: nat := k - 1;
        assert AtomMatches(piece.atom, text, x, k) by {
          assert text[x] == chars[|chars| - 1].c;
        }
        assert PieceMatches(piece, text, x, k);
        assert forall y :: 0 <= y < |front| ==> front[y] == chars[y];
        assert ThenText(b, front, text, i, x);
      }
    }
  }

  /** A node put after a branch is matched after it. */
  lemma ExpandNodeMatches(b: Branch, n: Node, text: seq<byte>, i: nat, k: nat)
    ensures BranchMatches(ExpandNode(b, n), text, i, k)
       <==> exists m: nat :: BranchMatches(b, text, i, m) && NodeMatches(n, text, m, k)
  {
    if n.Text? {
      CharsMatch(b, n.chars, text, i, k);
      if m: nat :| BranchMatches(b, text, i, m) && NodeMatches(n, text, m, k) {
        assert ThenText(b, n.chars, text, i, k);
      }
    } else {
      var p := PieceOf(n);
      assert ExpandNode(b, n) == Snoc(b, p);
      assert forall m: nat :: NodeMatches(n, text, m, k) <==> PieceMatches(p, text, m, k);
      assert BranchMatches(Snoc(b, p), text, i, k)
        <==> exists m: nat :: BranchMatches(b, text, i, m) && PieceMatches(p, text, m, k);
    }
  }

  // ----- one instruction -----

  lemma AtJump(code: seq<byte>, text: seq<byte>, o: nat, op: byte, d: int, i: nat, j: nat, n: nat)
    requires At(code, o, JumpCode(op, d)) && IsJump(op) && -32768 <= d < 32768
    ensures Acc(code, text, o, i, j, n) <==> n > 0 && Acc(code, text, o + 3 + d, i, j, n - 1)
  {
    DecodeJump(code, o, op, d);
  }

  lemma AtFork(code: seq<byte>, text: seq<byte>, o: nat, d: int, i: nat, j: nat, n: nat)
    requires At(code, o, JumpCode(ON_FAILURE_JUMP, d)) && -32768 <= d < 32768
    ensures Acc(code, text, o, i, j, n)
       <==> n > 0 && (Acc(code, text, o + 3, i, j, n - 1) || Acc(code, text, o + 3 + d, i, j, n - 1))
  {
    DecodeJump(code, o, ON_FAILURE_JUMP, d);
    hide Decode, At, JumpCode, Target;
    assert Acc(code, text, o, i, j, n) <==> n > 0 && ForkAcc(code, text, o, o + 3 + d, i, j, n - 1);
  }

  ghost predicate ForkAcc(code: seq<byte>, text: seq<byte>, o: nat, to': int, i: nat, j: nat, n: int) {
    n >= 0 && (Acc(code, text, o + 3, i, j, n) || Acc(code, text, to', i, j, n))
  }

  lemma AtMemory(code: seq<byte>, text: seq<byte>, o: nat, op: byte, reg: nat, inner: nat, i: nat, j: nat, n: nat)
    requires op == START_MEMORY || op == STOP_MEMORY
    requires At(code, o, MemoryCode(op, reg, inner))
    ensures reg <= MAX_REGNUM ==>
      (Acc(code, text, o, i, j, n) <==> n > 0 && Acc(code, text, o + 3, i, j, n - 1))
  {
    if reg <= MAX_REGNUM {
      DecodeMemory(code, o, op, reg, inner % 256);
    }
  }

  lemma AtPushDummy(code: seq<byte>, text: seq<byte>, o: nat, i: nat, j: nat, n: nat)
    requires At(code, o, [PUSH_DUMMY_FAILURE])
    ensures Acc(code, text, o, i, j, n) <==> n > 0 && Acc(code, text, o + 1, i, j, n - 1)
  {
    DecodeSimple(code, o, PUSH_DUMMY_FAILURE);
  }

  lemma AtText(code: seq<byte>, text: seq<byte>, o: nat, chars: seq<TextChar>, i: nat, j: nat, n: nat)
    requires 1 <= |chars| <= 255 && At(code, o, NodeCode(Text(chars)))
    ensures Acc(code, text, o, i, j, n) <==>
      (n > 0 && TextMatches(chars, text, i, i + |chars|) && Acc(code, text, o + 2 + |chars|, i + |chars|, j, n - 1))
  {
    var s := TextBytes(chars);
    DecodeCounted(code, o, EXACTN, s);
    if i + |s| <= |text| && text[i..i + |s|] == s {
      forall x | 0 <= x < |chars| ensures text[i + x] == chars[x].c {
        assert text[i..i + |s|][x] == s[x];
      }
    }
    if TextMatches(chars, text, i, i + |chars|) {
      var last := chars[|chars| - 1];
      assert i + |chars| <= |text|;
      assert text[i..i + |s|] == s;
    }
  }

  /** `.`, a bracket expression or an anchor. */
  predicate IsUnit(n: Node) {
    n.Simple? || n.Set?
  }

  lemma UnitMatches(n: Node, text: seq<byte>, i: nat, k: nat)
    requires IsUnit(n)
    ensures NodeMatches(n, text, i, k) <==> AtomMatches(PieceOf(n).atom, text, i, k)
  {
  }

  function UnitWidth(n: Node): nat {
    if n.Simple? && n.atom != Dot then 0 else 1
  }

  ghost predicate AtUnitSpec(code: seq<byte>, text: seq<byte>, o: nat, n: Node, i: nat, j: nat, steps: nat)
    requires IsUnit(n)
  {
    var k := i + UnitWidth(n);
    Acc(code, text, o, i, j, steps) <==>
      (steps > 0 && AtomMatches(PieceOf(n).atom, text, i, k) && Acc(code, text, o + |NodeCode(n)|, k, j, steps - 1))
  }

  lemma AtSimple(code: seq<byte>, text: seq<byte>, o: nat, n: Node, i: nat, j: nat, steps: nat)
    requires n.Simple? && NodeOk(n) && At(code, o, NodeCode(n))
    ensures AtUnitSpec(code, text, o, n, i, j, steps)
  {
    DecodeSimple(code, o, SimpleCode(n.atom)[0]);
  }

  lemma AtSet(code: seq<byte>, text: seq<byte>, o: nat, n: Node, i: nat, j: nat, steps: nat)
    requires n.Set? && NodeOk(n) && At(code, o, NodeCode(n))
    ensures AtUnitSpec(code, text, o, n, i, j, steps)
  {
    DecodeCounted(code, o, if n.negated then CHARSET_NOT else CHARSET, n.bitmap);
  }

  lemma AtUnit(code: seq<byte>, text: seq<byte>, o: nat, n: Node, i: nat, j: nat, steps: nat)
    requires IsUnit(n) && NodeOk(n) && At(code, o, NodeCode(n))
    ensures AtUnitSpec(code, text, o, n, i, j, steps)
    ensures forall x: nat :: AtomMatches(PieceOf(n).atom, text, i, x) ==> x == i + UnitWidth(n)
  {
    hide Acc, At;
    if n.Simple? {
      AtSimple(code, text, o, n, i, j, steps);
    } else {
      AtSet(code, text, o, n, i, j, steps);
    }
  }

  // ----- soundness: what a run through the code of a tree has matched -----

  lemma {:induction false} NodesSound(ns: Nodes, code: seq<byte>, text: seq<byte>, o: nat, i: nat, j: nat, n: nat)
    returns (k: nat, m: nat)
    requires NodesOk(ns) && At(code, o, NodesCode(ns)) && |code| < JUMP_LIMIT
    requires Acc(code, text, o, i, j, n)
    ensures BranchMatches(Expand(ns), text, i, k)
    ensures m <= n && Acc(code, text, o + |NodesCode(ns)|, k, j, m)
    decreases n, ns, 0
  {
    hide Acc, At;
    match ns
    case NoNode => k, m := i, n;
    case Add(init, last) =>
      AtSplit(code, o, NodesCode(init), NodeCode(last));
      var x, y := NodesSound(init, code, text, o, i, j, n);
      k, m := NodeSound(last, code, text, o + |NodesCode(init)|, x, j, y);
      ExpandNodeMatches(Expand(init), last, text, i, k);
  }

  lemma {:induction false} NodeSound(n: Node, code: seq<byte>, text: seq<byte>, o: nat, i: nat, j: nat, steps: nat)
    returns (k: nat, m: nat)
    requires NodeOk(n) && At(code, o, NodeCode(n)) && |code| < JUMP_LIMIT
    requires Acc(code, text, o, i, j, steps)
    ensures NodeMatches(n, text, i, k)
    ensures m <= steps && Acc(code, text, o + |NodeCode(n)|, k, j, m)
    decreases steps, n, 0
  {
    hide Acc, At;
    match n
    case Text(chars) =>
      AtText(code, text, o, chars, i, j, steps);
      k, m := i + |chars|, steps - 1;
    case Grouped(reg, inner, choice) =>
      k, m := GroupSound(reg, inner, choice, code, text, o, i, j, steps);
    case Repeated(body, ops) =>
      k, m := RepeatSound(body, ops, code, text, o, i, j, steps);
    case _ =>
      AtUnit(code, text, o, n, i, j, steps);
      k, m := i + UnitWidth(n), steps - 1;
      UnitMatches(n, text, i, k);
  }

  lemma {:induction false} GroupSound(reg: nat, inner: nat, choice: Choice, code: seq<byte>, text: seq<byte>,
                                      o: nat, i: nat, j: nat, n: nat) returns (k: nat, m: nat)
    requires ChoiceOk(choice) && At(code, o, NodeCode(Grouped(reg, inner, choice))) && |code| < JUMP_LIMIT
    requires Acc(code, text, o, i, j, n)
    ensures PieceMatches(PieceOf(Grouped(reg, inner, choice)), text, i, k)
    ensures m <= n && Acc(code, text, o + |NodeCode(Grouped(reg, inner, choice))|, k, j, m)
    decreases n, choice, 1
  {
    hide Acc, At;
    var start, stop := MemoryCode(START_MEMORY, reg, inner), MemoryCode(STOP_MEMORY, reg, inner);
    var body, dummy := ChoiceCode(choice), if choice.Or? then [PUSH_DUMMY_FAILURE] else [];
    AtSplit(code, o, start, body + (dummy + stop));
    AtSplit(code, o + |start|, body, dummy + stop);
    AtSplit(code, o + |start| + |body|, dummy, stop);
    AtMemory(code, text, o, START_MEMORY, reg, inner, i, j, n);
    var n1 := if reg <= MAX_REGNUM then n - 1 else n;
    k, m := ChoiceSound(choice, code, text, o + |start|, i, j, n1);
    if choice.Or? {
      AtPushDummy(code, text, o + |start| + |body|, k, j, m);
      m := m - 1;
    }
    AtMemory(code, text, o + |start| + |body| + |dummy|, STOP_MEMORY, reg, inner, k, j, m);
    if reg <= MAX_REGNUM {
      m := m - 1;
    }
    assert AtomMatches(Group(ExpandChoice(choice)), text, i, k);
  }

  lemma {:induction false} ChoiceSound(ch: Choice, code: seq<byte>, text: seq<byte>, o: nat, i: nat, j: nat, n: nat)
    returns (k: nat, m: nat)
    requires ChoiceOk(ch) && At(code, o, ChoiceCode(ch)) && |code| < JUMP_LIMIT
    requires Acc(code, text, o, i, j, n)
    ensures AltsMatch(ExpandChoice(ch), text, i, k)
    ensures m <= n && Acc(code, text, o + |ChoiceCode(ch)|, k, j, m)
    decreases n, ch, 0
  {
    hide Acc, At, BranchMatches, NodesOk, NodesCode;
    match ch
    case Sole(ns) =>
      k, m := NodesSound(ns, code, text, o, i, j, n);
    case Or(init, ns) =>
      var d := |NodesCode(ns)|;
      var front := OpenCode(init, JumpCode(JUMP_PAST_ALT, d));
      AtSplit(code, o, front, NodesCode(ns));
      var taken;
      taken, k, m := OpenSound(init, d, code, text, o, i, j, n);
      if !taken {
        k, m := NodesSound(ns, code, text, o + |front|, i, j, m);
      }
  }

  /** Either one of the finished alternatives was matched and the run is where the last jump leads,
      or all were refused and the run is at the next alternative. */
  lemma {:induction false} OpenSound(ch: Choice, d: nat, code: seq<byte>, text: seq<byte>, o: nat, i: nat, j: nat,
                                     n: nat)
    returns (taken: bool, k: nat, m: nat)
    requires ChoiceOk(ch) && |code| < JUMP_LIMIT
    requires var front := OpenCode(ch, JumpCode(JUMP_PAST_ALT, d));
      At(code, o, front) && o + |front| + d <= |code|
    requires Acc(code, text, o, i, j, n)
    ensures var e := o + |OpenCode(ch, JumpCode(JUMP_PAST_ALT, d))|;
      if taken then m < n && AltsMatch(ExpandChoice(ch), text, i, k) && Acc(code, text, e + d, k, j, m)
      else m < n && k == i && Acc(code, text, e, i, j, m)
    decreases n, ch, 0
  {
    hide Acc, At, BranchMatches, NodesOk, NodesCode;
    var hole := JumpCode(JUMP_PAST_ALT, d);
    match ch
    case Sole(ns) =>
      taken, k, m := AlternativeSound(ns, d, code, text, o, i, j, n);
    case Or(init, ns) =>
      var d' := |NodesCode(ns)| + 3;
      var front := OpenCode(init, JumpCode(JUMP_PAST_ALT, d'));
      AtSplit(code, o, front, OpenAlternative(NodesCode(ns), hole));
      taken, k, m := OpenSound(init, d', code, text, o, i, j, n);
      if taken {
        AlternativeParts(code, o + |front|, NodesCode(ns), hole);
        AtJump(code, text, o + |front| + d', JUMP_PAST_ALT, d, k, j, m);
        m := m - 1;
      } else {
        taken, k, m := AlternativeSound(ns, d, code, text, o + |front|, i, j, m);
      }
  }

  lemma AlternativeParts(code: seq<byte>, o: nat, body: seq<byte>, hole: seq<byte>)
    requires At(code, o, OpenAlternative(body, hole))
    ensures At(code, o, JumpCode(ON_FAILURE_JUMP, |body| + 3))
    ensures At(code, o + 3, body) && At(code, o + 3 + |body|, hole)
  {
    AtSplit(code, o, JumpCode(ON_FAILURE_JUMP, |body| + 3), body + hole);
    AtSplit(code, o + 3, body, hole);
  }

  lemma {:induction false} AlternativeSound(ns: Nodes, d: nat, code: seq<byte>, text: seq<byte>,
                                            o: nat, i: nat, j: nat, n: nat) returns (taken: bool, k: nat, m: nat)
    requires NodesOk(ns) && |code| < JUMP_LIMIT
    requires At(code, o, OpenAlternative(NodesCode(ns), JumpCode(JUMP_PAST_ALT, d)))
    requires o + |NodesCode(ns)| + 6 + d <= |code|
    requires Acc(code, text, o, i, j, n)
    ensures var e := o + |NodesCode(ns)| + 6;
      if taken then m < n && BranchMatches(Expand(ns), text, i, k) && Acc(code, text, e + d, k, j, m)
      else m < n && k == i && Acc(code, text, e, i, j, m)
    decreases n, ns, 1
  {
    hide Acc, At;
    var body := NodesCode(ns);
    AlternativeParts(code, o, body, JumpCode(JUMP_PAST_ALT, d));
    AtFork(code, text, o, |body| + 3, i, j, n);
    if Acc(code, text, o + 3, i, j, n - 1) {
      k, m := NodesSound(ns, code, text, o + 3, i, j, n - 1);
      AtJump(code, text, o + 3 + |body|, JUMP_PAST_ALT, d, k, j, m);
      taken, m := true, m - 1;
    } else {
      taken, k, m := false, i, n - 1;
    }
  }

  lemma RepeatParts(code: seq<byte>, o: nat, body: seq<byte>, zero: bool, many: bool)
    requires At(code, o, RepeatCode(body, zero, many))
    ensures !many ==>
      && At(code, o, JumpCode(ON_FAILURE_JUMP, |body|)) && At(code, o + 3, body)
      && |RepeatCode(body, zero, many)| == 3 + |body|
    ensures var q := if zero then o else o + 3;
      many ==>
        && (!zero ==> At(code, o, JumpCode(DUMMY_FAILURE_JUMP, 3)))
        && At(code, q, JumpCode(ON_FAILURE_JUMP, |body| + 3)) && At(code, q + 3, body)
        && At(code, q + 3 + |body|, JumpCode(MAYBE_POP_JUMP, -|body| - 6))
        && o + |RepeatCode(body, zero, many)| == q + 6 + |body|
  {
    if many {
      var back := JumpCode(MAYBE_POP_JUMP, -|body| - 6);
      var head := JumpCode(ON_FAILURE_JUMP, |body| + 3);
      var skip := if zero then [] else JumpCode(DUMMY_FAILURE_JUMP, 3);
      AtSplit(code, o, skip, head + (body + back));
      AtSplit(code, o + |skip|, head, body + back);
      AtSplit(code, o + |skip| + 3, body, back);
    } else {
      AtSplit(code, o, JumpCode(ON_FAILURE_JUMP, |body|), body);
    }
  }

  lemma RepeatMeans(body: Node, ops: seq<Op>, text: seq<byte>, i: nat, k: nat)
    requires ops != []
    ensures PieceMatches(PieceOf(Repeated(body, ops)), text, i, k)
       <==> CollapsedMatches(PieceOf(body), ZeroOk(ops), ManyOk(ops), text, i, k)
  {
    RunCollapses(PieceOf(body), ops, text, i, k);
  }

  lemma {:induction false} RepeatSound(body: Node, ops: seq<Op>, code: seq<byte>, text: seq<byte>,
                                       o: nat, i: nat, j: nat, n: nat) returns (k: nat, m: nat)
    requires NodeOk(Repeated(body, ops)) && At(code, o, NodeCode(Repeated(body, ops))) && |code| < JUMP_LIMIT
    requires Acc(code, text, o, i, j, n)
    ensures PieceMatches(PieceOf(Repeated(body, ops)), text, i, k)
    ensures m <= n && Acc(code, text, o + |NodeCode(Repeated(body, ops))|, k, j, m)
    decreases n, body, 3
  {
    hide Acc, At, PieceMatches, Repeats, PieceOf, ZeroOk, ManyOk, RepeatCode, Represents;
    var zero, many := ZeroOk(ops), ManyOk(ops);
    var frag := NodeCode(body);
    var count: nat;
    RepeatParts(code, o, frag, zero, many);
    RunAllows(ops);
    if !many {
      k, m, count := OptionalSound(body, code, text, o, i, j, n);
    } else if zero {
      k, m, count := LoopSound(body, code, text, o, i, j, n, 0);
    } else {
      AtJump(code, text, o, DUMMY_FAILURE_JUMP, 3, i, j, n);
      k, m, count := LoopSound(body, code, text, o + 3, i, j, n - 1, 3);
    }
    assert CollapsedMatches(PieceOf(body), zero, many, text, i, k);
    RepeatMeans(body, ops, text, i, k);
  }

  lemma {:induction false} OptionalSound(body: Node, code: seq<byte>, text: seq<byte>, o: nat, i: nat, j: nat, n: nat)
    returns (k: nat, m: nat, count: nat)
    requires NodeOk(body) && Repeatable(body) && |code| < JUMP_LIMIT
    requires At(code, o, JumpCode(ON_FAILURE_JUMP, |NodeCode(body)|)) && At(code, o + 3, NodeCode(body))
    requires Acc(code, text, o, i, j, n)
    ensures Repeats(PieceOf(body), text, i, k, count) && count <= 1
    ensures m <= n && Acc(code, text, o + 3 + |NodeCode(body)|, k, j, m)
    decreases n, body, 2
  {
    hide Acc, At, PieceMatches;
    AtFork(code, text, o, |NodeCode(body)|, i, j, n);
    if Acc(code, text, o + 3, i, j, n - 1) {
      k, m := NodeSound(body, code, text, o + 3, i, j, n - 1);
      BodyMatches(body, text, i, k);
      OneRepeat(PieceOf(body), text, i, k);
      count := 1;
    } else {
      k, m, count := i, n - 1, 0;
    }
  }

  lemma BodyMatches(body: Node, text: seq<byte>, i: nat, k: nat)
    requires Repeatable(body)
    ensures NodeMatches(body, text, i, k) <==> PieceMatches(PieceOf(body), text, i, k)
  {
    if body.Text? {
      var a := PieceOf(body).atom;
      assert PieceMatches(PieceOf(body), text, i, k) <==> AtomMatches(a, text, i, k);
      assert AtomMatches(a, text, i, k) <==> i < |text| && text[i] == body.chars[0].c && k == i + 1;
    }
  }

  /** From the loop's fork at `q` (enter = 0) or from its body (enter = 3). */
  lemma {:induction false} LoopSound(body: Node, code: seq<byte>, text: seq<byte>, q: nat, i: nat, j: nat, n: nat,
                                     enter: nat)
    returns (k: nat, m: nat, count: nat)
    requires NodeOk(body) && Repeatable(body) && |code| < JUMP_LIMIT && enter in {0, 3}
    requires At(code, q, JumpCode(ON_FAILURE_JUMP, |NodeCode(body)| + 3)) && At(code, q + 3, NodeCode(body))
    requires At(code, q + 3 + |NodeCode(body)|, JumpCode(MAYBE_POP_JUMP, -|NodeCode(body)| - 6))
    requires Acc(code, text, q + enter, i, j, n)
    ensures Repeats(PieceOf(body), text, i, k, count) && (enter == 3 ==> count >= 1)
    ensures m <= n && Acc(code, text, q + 6 + |NodeCode(body)|, k, j, m)
    decreases n, body, 1
  {
    hide Acc, At;
    var frag := NodeCode(body);
    var left := n;
    if enter == 0 {
      AtFork(code, text, q, |frag| + 3, i, j, n);
      left := n - 1;
    }
    if enter == 0 && Acc(code, text, q + 6 + |frag|, i, j, left) {
      k, m, count := i, left, 0;
    } else {
      var x, y := NodeSound(body, code, text, q + 3, i, j, left);
      BodyMatches(body, text, i, x);
      AtJump(code, text, q + 3 + |frag|, MAYBE_POP_JUMP, -|frag| - 6, x, j, y);
      k, m, count := LoopSound(body, code, text, q, x, j, y - 1, 0);
      count := count + 1;
    }
  }

  // ----- completeness: whatever the expression matches, some run goes through -----

  lemma {:induction false} NodesComplete(ns: Nodes, code: seq<byte>, text: seq<byte>, o: nat, i: nat, k: nat, j: nat,
                                         m: nat)
    returns (n: nat)
    requires NodesOk(ns) && At(code, o, NodesCode(ns)) && |code| < JUMP_LIMIT
    requires BranchMatches(Expand(ns), text, i, k)
    requires Acc(code, text, o + |NodesCode(ns)|, k, j, m)
    ensures Acc(code, text, o, i, j, n)
    decreases ns, 0
  {
    hide Acc, At;
    match ns
    case NoNode => n := m;
    case Add(init, last) =>
      AtSplit(code, o, NodesCode(init), NodeCode(last));
      ExpandNodeMatches(Expand(init), last, text, i, k);
      var x: nat :| BranchMatches(Expand(init), text, i, x) && NodeMatches(last, text, x, k);
      n := NodeComplete(last, code, text, o + |NodesCode(init)|, x, k, j, m);
      n := NodesComplete(init, code, text, o, i, x, j, n);
  }

  lemma {:induction false} NodeComplete(n: Node, code: seq<byte>, text: seq<byte>, o: nat, i: nat, k: nat, j: nat,
                                        m: nat)
    returns (steps: nat)
    requires NodeOk(n) && At(code, o, NodeCode(n)) && |code| < JUMP_LIMIT
    requires NodeMatches(n, text, i, k) && Acc(code, text, o + |NodeCode(n)|, k, j, m)
    ensures Acc(code, text, o, i, j, steps)
    decreases n, 0
  {
    hide Acc, At;
    match n
    case Text(chars) =>
      steps := m + 1;
      AtText(code, text, o, chars, i, j, steps);
    case Grouped(reg, inner, choice) =>
      steps := GroupComplete(reg, inner, choice, code, text, o, i, k, j, m);
    case Repeated(body, ops) =>
      steps := RepeatComplete(body, ops, code, text, o, i, k, j, m);
    case _ =>
      steps := m + 1;
      UnitMatches(n, text, i, k);
      AtUnit(code, text, o, n, i, j, steps);
  }

  lemma {:induction false} GroupComplete(reg: nat, inner: nat, choice: Choice, code: seq<byte>, text: seq<byte>,
                                         o: nat, i: nat, k: nat, j: nat, m: nat) returns (n: nat)
    requires ChoiceOk(choice) && At(code, o, NodeCode(Grouped(reg, inner, choice))) && |code| < JUMP_LIMIT
    requires PieceMatches(PieceOf(Grouped(reg, inner, choice)), text, i, k)
    requires Acc(code, text, o + |NodeCode(Grouped(reg, inner, choice))|, k, j, m)
    ensures Acc(code, text, o, i, j, n)
    decreases choice, 1
  {
    hide Acc, At;
    var start, stop := MemoryCode(START_MEMORY, reg, inner), MemoryCode(STOP_MEMORY, reg, inner);
    var body, dummy := ChoiceCode(choice), if choice.Or? then [PUSH_DUMMY_FAILURE] else [];
    AtSplit(code, o, start, body + (dummy + stop));
    AtSplit(code, o + |start|, body, dummy + stop);
    AtSplit(code, o + |start| + |body|, dummy, stop);
    n := if reg <= MAX_REGNUM then m + 1 else m;
    AtMemory(code, text, o + |start| + |body| + |dummy|, STOP_MEMORY, reg, inner, k, j, n);
    if choice.Or? {
      n := n + 1;
      AtPushDummy(code, text, o + |start| + |body|, k, j, n);
    }
    assert AtomMatches(Group(ExpandChoice(choice)), text, i, k);
    n := ChoiceComplete(choice, code, text, o + |start|, i, k, j, n);
    n := if reg <= MAX_REGNUM then n + 1 else n;
    AtMemory(code, text, o, START_MEMORY, reg, inner, i, j, n);
  }

  lemma {:induction false} ChoiceComplete(ch: Choice, code: seq<byte>, text: seq<byte>, o: nat, i: nat, k: nat,
                                          j: nat, m: nat)
    returns (n: nat)
    requires ChoiceOk(ch) && At(code, o, ChoiceCode(ch)) && |code| < JUMP_LIMIT
    requires AltsMatch(ExpandChoice(ch), text, i, k) && Acc(code, text, o + |ChoiceCode(ch)|, k, j, m)
    ensures Acc(code, text, o, i, j, n)
    decreases ch, 0
  {
    hide Acc, At, BranchMatches, NodesOk, NodesCode;
    match ch
    case Sole(ns) => n := NodesComplete(ns, code, text, o, i, k, j, m);
    case Or(init, ns) =>
      var d := |NodesCode(ns)|;
      var front := OpenCode(init, JumpCode(JUMP_PAST_ALT, d));
      AtSplit(code, o, front, NodesCode(ns));
      if AltsMatch(ExpandChoice(init), text, i, k) {
        n := OpenComplete(init, d, code, text, o, true, i, k, j, m);
      } else {
        n := NodesComplete(ns, code, text, o + |front|, i, k, j, m);
        n := OpenComplete(init, d, code, text, o, false, i, i, j, n);
      }
  }

  /** The two ways out of finished alternatives, as in OpenSound. */
  lemma {:induction false} OpenComplete(ch: Choice, d: nat, code: seq<byte>, text: seq<byte>, o: nat,
                                        taken: bool, i: nat, k: nat, j: nat, m: nat) returns (n: nat)
    requires ChoiceOk(ch) && |code| < JUMP_LIMIT
    requires var front := OpenCode(ch, JumpCode(JUMP_PAST_ALT, d));
      && At(code, o, front) && o + |front| + d <= |code|
      && if taken then AltsMatch(ExpandChoice(ch), text, i, k) && Acc(code, text, o + |front| + d, k, j, m)
         else k == i && Acc(code, text, o + |front|, i, j, m)
    ensures Acc(code, text, o, i, j, n)
    decreases ch, 0
  {
    hide Acc, At, BranchMatches, NodesOk, NodesCode;
    var hole := JumpCode(JUMP_PAST_ALT, d);
    match ch
    case Sole(ns) =>
      n := AlternativeComplete(ns, d, code, text, o, taken, i, k, j, m);
    case Or(init, ns) =>
      var d' := |NodesCode(ns)| + 3;
      var front := OpenCode(init, JumpCode(JUMP_PAST_ALT, d'));
      AtSplit(code, o, front, OpenAlternative(NodesCode(ns), hole));
      if taken && AltsMatch(ExpandChoice(init), text, i, k) {
        AlternativeParts(code, o + |front|, NodesCode(ns), hole);
        AtJump(code, text, o + |front| + d', JUMP_PAST_ALT, d, k, j, m + 1);
        n := OpenComplete(init, d', code, text, o, true, i, k, j, m + 1);
      } else {
        n := AlternativeComplete(ns, d, code, text, o + |front|, taken, i, k, j, m);
        n := OpenComplete(init, d', code, text, o, false, i, i, j, n);
      }
  }

  lemma {:induction false} AlternativeComplete(ns: Nodes, d: nat, code: seq<byte>, text: seq<byte>, o: nat,
                                               taken: bool, i: nat, k: nat, j: nat, m: nat) returns (n: nat)
    requires NodesOk(ns) && |code| < JUMP_LIMIT
    requires At(code, o, OpenAlternative(NodesCode(ns), JumpCode(JUMP_PAST_ALT, d)))
    requires var e := o + |NodesCode(ns)| + 6;
      && e + d <= |code|
      && if taken then BranchMatches(Expand(ns), text, i, k) && Acc(code, text, e + d, k, j, m)
         else k == i && Acc(code, text, e, i, j, m)
    ensures Acc(code, text, o, i, j, n)
    decreases ns, 1
  {
    hide Acc, At;
    var body := NodesCode(ns);
    AlternativeParts(code, o, body, JumpCode(JUMP_PAST_ALT, d));
    n := m;
    if taken {
      AtJump(code, text, o + 3 + |body|, JUMP_PAST_ALT, d, k, j, m + 1);
      n := NodesComplete(ns, code, text, o + 3, i, k, j, m + 1);
    }
    n := n + 1;
    AtFork(code, text, o, |body| + 3, i, j, n);
  }

  lemma {:induction false} RepeatComplete(body: Node, ops: seq<Op>, code: seq<byte>, text: seq<byte>,
                                          o: nat, i: nat, k: nat, j: nat, m: nat) returns (n: nat)
    requires NodeOk(Repeated(body, ops)) && At(code, o, NodeCode(Repeated(body, ops))) && |code| < JUMP_LIMIT
    requires PieceMatches(PieceOf(Repeated(body, ops)), text, i, k)
    requires Acc(code, text, o + |NodeCode(Repeated(body, ops))|, k, j, m)
    ensures Acc(code, text, o, i, j, n)
    decreases body, 3
  {
    hide Acc, At, PieceMatches, Repeats, PieceOf, ZeroOk, ManyOk, RepeatCode, Represents;
    var zero, many := ZeroOk(ops), ManyOk(ops);
    var frag := NodeCode(body);
    RepeatParts(code, o, frag, zero, many);
    RunAllows(ops);
    RepeatMeans(body, ops, text, i, k);
    var count: nat :| (count == 0 ==> zero) && (count > 1 ==> many) && Repeats(PieceOf(body), text, i, k, count);
    if !many {
      n := OptionalComplete(body, code, text, o, i, k, j, m, count);
    } else if zero {
      n := LoopComplete(body, code, text, o, i, k, j, m, count, 0);
    } else {
      n := LoopComplete(body, code, text, o + 3, i, k, j, m, count, 3);
      n := n + 1;
      AtJump(code, text, o, DUMMY_FAILURE_JUMP, 3, i, j, n);
    }
  }

  lemma {:induction false} OptionalComplete(body: Node, code: seq<byte>, text: seq<byte>,
                                            o: nat, i: nat, k: nat, j: nat, m: nat, count: nat) returns (n: nat)
    requires NodeOk(body) && Repeatable(body) && |code| < JUMP_LIMIT
    requires At(code, o, JumpCode(ON_FAILURE_JUMP, |NodeCode(body)|)) && At(code, o + 3, NodeCode(body))
    requires Repeats(PieceOf(body), text, i, k, count) && count <= 1
    requires Acc(code, text, o + 3 + |NodeCode(body)|, k, j, m)
    ensures Acc(code, text, o, i, j, n)
    decreases body, 2
  {
    hide Acc, At, PieceMatches;
    n := m;
    if count == 1 {
      OneRepeat(PieceOf(body), text, i, k);
      BodyMatches(body, text, i, k);
      n := NodeComplete(body, code, text, o + 3, i, k, j, m);
    }
    n := n + 1;
    AtFork(code, text, o, |NodeCode(body)|, i, j, n);
  }

  lemma {:induction false} LoopComplete(body: Node, code: seq<byte>, text: seq<byte>,
                                        q: nat, i: nat, k: nat, j: nat, m: nat, count: nat, enter: nat) returns (n: nat)
    requires NodeOk(body) && Repeatable(body) && |code| < JUMP_LIMIT && enter in {0, 3}
    requires At(code, q, JumpCode(ON_FAILURE_JUMP, |NodeCode(body)| + 3)) && At(code, q + 3, NodeCode(body))
    requires At(code, q + 3 + |NodeCode(body)|, JumpCode(MAYBE_POP_JUMP, -|NodeCode(body)| - 6))
    requires Repeats(PieceOf(body), text, i, k, count) && (enter == 3 ==> count >= 1)
    requires Acc(code, text, q + 6 + |NodeCode(body)|, k, j, m)
    ensures Acc(code, text, q + enter, i, j, n)
    decreases body, 1, count
  {
    hide Acc, At, PieceMatches;
    var frag := NodeCode(body);
    n := m;
    if count > 0 {
      var x: nat :| PieceMatches(PieceOf(body), text, i, x) && Repeats(PieceOf(body), text, x, k, count - 1);
      n := LoopComplete(body, code, text, q, x, k, j, m, count - 1, 0);
      n := n + 1;
      AtJump(code, text, q + 3 + |frag|, MAYBE_POP_JUMP, -|frag| - 6, x, j, n);
      BodyMatches(body, text, i, x);
      n := NodeComplete(body, code, text, q + 3, i, x, j, n);
    }
    if enter == 0 {
      n := n + 1;
      AtFork(code, text, q, |frag| + 3, i, j, n);
    }
  }

  // ----- the two directions together -----

  /** Code shorter than 32768 bytes accepts exactly what the expression matches. */
  lemma CodeAcceptsMeaning(ch: Choice, text: seq<byte>, i: nat, j: nat)
    requires ChoiceOk(ch) && |ChoiceCode(ch)| < JUMP_LIMIT
    ensures Accepts(ChoiceCode(ch), text, i, j) <==> AltsMatch(ExpandChoice(ch), text, i, j)
  {
    hide AltsMatch;
    var code := ChoiceCode(ch);
    assert At(code, 0, code);
    if Accepts(code, text, i, j) {
      var n: nat :| Acc(code, text, 0, i, j, n);
      var k, m := ChoiceSound(ch, code, text, 0, i, j, n);
      assert k == j;
    }
    if AltsMatch(ExpandChoice(ch), text, i, j) {
      assert Acc(code, text, |code|, j, j, 0);
      var n := ChoiceComplete(ch, code, text, 0, i, j, j, 0);
    }
  }
}
