/** Where the parts of a tree of nodes are in its code, and that each part begins an instruction. */
module CodePlaces {
  import opened Bytes
  import opened Bytecode
  import opened CodeMeaning
  import opened CodeShape
  import opened CodeTree
  import opened Ere
  import opened LoopDepth

  ghost predicate Cut(code: seq<byte>, starts: set<nat>) {
    Shape(code, 0, |code|, starts, {}) && |code| < JUMP_LIMIT
  }

  /** One instruction, or nothing at all. */
  ghost predicate Gap(starts: set<nat>, o: nat, e: nat) {
    o in starts && e in starts && o <= e && forall x :: x in starts ==> x <= o || e <= x
  }

  lemma OneGap(code: seq<byte>, starts: set<nat>, o: nat)
    requires Cut(code, starts) && o in starts && o < |code|
    ensures Gap(starts, o, o + Decode(code, o).Length())
  {
    hide Shape, Decode;
    InstructionOk(code, starts, o);
  }

  lemma JumpPlace(code: seq<byte>, starts: set<nat>, o: nat, op: byte, d: int)
    requires Cut(code, starts) && o in starts && TakesNumber(op)
    requires At(code, o, JumpCode(op, d)) && -32768 <= d < 32768
    ensures o + 3 <= |code| && code[o] == op && Target(code, o) == o + 3 + d && Gap(starts, o, o + 3)
  {
    hide Cut;
    DecodeJump(code, o, op, d);
    OneGap(code, starts, o);
  }

  lemma UnitPlace(n: Node, code: seq<byte>, starts: set<nat>, o: nat)
    requires (n.Text? || n.Simple? || n.Set?) && NodeOk(n) && At(code, o, NodeCode(n)) && Cut(code, starts)
    requires o in starts
    ensures o < |code| && code[o] in {EXACTN, ANYCHAR, CHARSET, CHARSET_NOT, BEGLINE, ENDLINE}
    ensures |NodeCode(n)| > 0 && Gap(starts, o, o + |NodeCode(n)|)
  {
    hide Cut, Represents;
    UnitDecodes(n, code, o);
    AtByte(code, o, NodeCode(n), 0);
    OneGap(code, starts, o);
  }

  /** `e` is where the code that starts at `o` ends. */
  ghost predicate MemoryLaid(code: seq<byte>, starts: set<nat>, op: byte, reg: nat, o: nat, e: nat) {
    Gap(starts, o, e) &&
    if reg <= MAX_REGNUM then e == o + 3 <= |code| && code[o] == op && code[o + 1] == reg else e == o
  }

  lemma MemoryPlace(code: seq<byte>, starts: set<nat>, op: byte, reg: nat, inner: nat, o: nat)
    requires Cut(code, starts) && o in starts && At(code, o, MemoryCode(op, reg, inner))
    requires op == START_MEMORY || op == STOP_MEMORY
    ensures MemoryLaid(code, starts, op, reg, o, o + |MemoryCode(op, reg, inner)|)
  {
    hide Cut;
    if reg <= MAX_REGNUM {
      DecodeMemory(code, o, op, reg, inner % 256);
      AtByte(code, o, MemoryCode(op, reg, inner), 1);
      OneGap(code, starts, o);
    }
  }

  ghost predicate DummyLaid(code: seq<byte>, starts: set<nat>, dummy: bool, o: nat, e: nat) {
    Gap(starts, o, e) && if dummy then e == o + 1 <= |code| && code[o] == PUSH_DUMMY_FAILURE else e == o
  }

  ghost predicate GroupLaid(code: seq<byte>, starts: set<nat>, reg: nat, choice: Choice, o: nat, o1: nat, o2: nat,
                            o3: nat, e: nat) {
    && MemoryLaid(code, starts, START_MEMORY, reg, o, o1)
    && At(code, o1, ChoiceCode(choice)) && o2 == o1 + |ChoiceCode(choice)|
    && DummyLaid(code, starts, choice.Or?, o2, o3)
    && MemoryLaid(code, starts, STOP_MEMORY, reg, o3, e)
  }

  lemma {:induction false} GroupPlaces(reg: nat, inner: nat, choice: Choice, code: seq<byte>, starts: set<nat>, o: nat)
    returns (o1: nat, o2: nat, o3: nat, e: nat)
    requires ChoiceOk(choice) && At(code, o, NodeCode(Grouped(reg, inner, choice))) && Cut(code, starts) && o in starts
    ensures e == o + |NodeCode(Grouped(reg, inner, choice))| && GroupLaid(code, starts, reg, choice, o, o1, o2, o3, e)
    decreases choice, 3
  {
    hide Cut, ChoiceOk;
    var start, stop := MemoryCode(START_MEMORY, reg, inner), MemoryCode(STOP_MEMORY, reg, inner);
    var body, dummy := ChoiceCode(choice), if choice.Or? then [PUSH_DUMMY_FAILURE] else [];
    AtSplit(code, o, start, body + (dummy + stop));
    AtSplit(code, o + |start|, body, dummy + stop);
    AtSplit(code, o + |start| + |body|, dummy, stop);
    o1, o2 := o + |start|, o + |start| + |body|;
    o3 := o2 + |dummy|;
    e := o3 + |stop|;
    hide At, ChoiceCode, MemoryCode;
    MemoryPlace(code, starts, START_MEMORY, reg, inner, o);
    ChoiceEnd(choice, code, starts, o1);
    if choice.Or? {
      DecodeSimple(code, o2, PUSH_DUMMY_FAILURE);
      OneGap(code, starts, o2);
    }
    MemoryPlace(code, starts, STOP_MEMORY, reg, inner, o3);
  }

  ghost predicate RepeatLaid(code: seq<byte>, starts: set<nat>, body: Node, ops: seq<Op>, o: nat, q: nat, t: nat,
                             e: nat) {
    && Gap(starts, o, q) && Gap(starts, q, q + 3) && q + 3 <= |code| && code[q] == ON_FAILURE_JUMP
    && Target(code, q) == e
    && At(code, q + 3, NodeCode(body)) && t == q + 3 + |NodeCode(body)| && Gap(starts, t, e) && e <= |code|
    && (if ManyOk(ops) then e == t + 3 && code[t] == MAYBE_POP_JUMP && Target(code, t) == q else e == t)
    && (if ManyOk(ops) && !ZeroOk(ops) then q == o + 3 && code[o] == DUMMY_FAILURE_JUMP && Target(code, o) == o + 6
        else q == o)
  }

  /** A repetition, with the fork at `q`, ends at `e`. */
  predicate RepeatAt(code: seq<byte>, o: nat, frag: seq<byte>, zero: bool, many: bool, e: nat) {
    var q := if many && !zero then o + 3 else o;
    var t := q + 3 + |frag|;
    && (q > o ==> At(code, o, JumpCode(DUMMY_FAILURE_JUMP, 3)))
    && At(code, q, JumpCode(ON_FAILURE_JUMP, if many then |frag| + 3 else |frag|)) && At(code, q + 3, frag)
    && (many ==> At(code, t, JumpCode(MAYBE_POP_JUMP, -|frag| - 6)))
    && e == if many then t + 3 else t
  }

  lemma RepeatBytes(code: seq<byte>, o: nat, frag: seq<byte>, zero: bool, many: bool)
    requires At(code, o, RepeatCode(frag, zero, many))
    ensures RepeatAt(code, o, frag, zero, many, o + |RepeatCode(frag, zero, many)|)
  {
    hide At, RepeatCode, JumpCode;
    RepeatParts(code, o, frag, zero, many);
  }

  lemma RepeatedAt(body: Node, ops: seq<Op>, code: seq<byte>, o: nat)
    requires NodeOk(Repeated(body, ops)) && At(code, o, NodeCode(Repeated(body, ops)))
    ensures NodeOk(body)
    ensures RepeatAt(code, o, NodeCode(body), ZeroOk(ops), ManyOk(ops), o + |NodeCode(Repeated(body, ops))|)
  {
    hide At, ZeroOk, ManyOk, RepeatAt, RepeatCode, NodeCode;
    RepeatedCode(body, ops);
    RepeatBytes(code, o, NodeCode(body), ZeroOk(ops), ManyOk(ops));
  }

  lemma {:induction false} RepeatPlaces(body: Node, ops: seq<Op>, code: seq<byte>, starts: set<nat>, o: nat)
    returns (q: nat, t: nat, e: nat)
    requires NodeOk(Repeated(body, ops)) && At(code, o, NodeCode(Repeated(body, ops)))
    requires Cut(code, starts) && o in starts
    ensures e == o + |NodeCode(Repeated(body, ops))| && RepeatLaid(code, starts, body, ops, o, q, t, e)
    decreases body, 3
  {
    hide Cut, At, ZeroOk, ManyOk, NodeOk, NodeCode, Target;
    var many, frag := ManyOk(ops), NodeCode(body);
    RepeatedAt(body, ops, code, o);
    q := if many && !ZeroOk(ops) then o + 3 else o;
    t := q + 3 + |frag|;
    e := if many then t + 3 else t;
    FitsIn(code, q + 3, frag);
    InLimit(code, starts);
    if q > o {
      JumpPlace(code, starts, o, DUMMY_FAILURE_JUMP, 3);
    }
    JumpPlace(code, starts, q, ON_FAILURE_JUMP, if many then |frag| + 3 else |frag|);
    NodeEnd(body, code, starts, q + 3);
    if many {
      JumpPlace(code, starts, t, MAYBE_POP_JUMP, -|frag| - 6);
    }
  }

  lemma FitsIn(code: seq<byte>, o: nat, frag: seq<byte>)
    requires At(code, o, frag)
    ensures o + |frag| <= |code|
  {
  }

  ghost predicate AlternativeLaid(code: seq<byte>, starts: set<nat>, ns: Nodes, d: nat, o: nat, h: nat) {
    && Gap(starts, o, o + 3) && o + 3 <= |code| && code[o] == ON_FAILURE_JUMP && Target(code, o) == h + 3
    && At(code, o + 3, NodesCode(ns)) && h == o + 3 + |NodesCode(ns)|
    && Gap(starts, h, h + 3) && h + 3 <= |code| && code[h] == JUMP_PAST_ALT && Target(code, h) == h + 3 + d
  }

  lemma {:induction false} AlternativePlaces(ns: Nodes, d: nat, code: seq<byte>, starts: set<nat>, o: nat)
    returns (h: nat)
    requires NodesOk(ns) && At(code, o, OpenAlternative(NodesCode(ns), JumpCode(JUMP_PAST_ALT, d))) && d < JUMP_LIMIT
    requires Cut(code, starts) && o in starts
    ensures h + 3 == o + |OpenAlternative(NodesCode(ns), JumpCode(JUMP_PAST_ALT, d))|
    ensures AlternativeLaid(code, starts, ns, d, o, h)
    decreases ns, 1
  {
    hide Cut, At;
    var body := NodesCode(ns);
    h := o + 3 + |body|;
    AlternativeParts(code, o, body, JumpCode(JUMP_PAST_ALT, d));
    FitsIn(code, o + 3, body);
    InLimit(code, starts);
    JumpPlace(code, starts, o, ON_FAILURE_JUMP, |body| + 3);
    NodesEnd(ns, code, starts, o + 3);
    JumpPlace(code, starts, h, JUMP_PAST_ALT, d);
  }

  lemma {:induction false} NodesEnd(ns: Nodes, code: seq<byte>, starts: set<nat>, o: nat)
    requires NodesOk(ns) && At(code, o, NodesCode(ns)) && Cut(code, starts) && o in starts
    ensures o + |NodesCode(ns)| in starts && o + |NodesCode(ns)| <= |code|
    decreases ns, 0
  {
    hide Cut, At, NodeCode;
    FitsIn(code, o, NodesCode(ns));
    if ns.Add? {
      AtSplit(code, o, NodesCode(ns.init), NodeCode(ns.last));
      NodesEnd(ns.init, code, starts, o);
      NodeEnd(ns.last, code, starts, o + |NodesCode(ns.init)|);
    }
  }

  lemma {:induction false} NodeEnd(n: Node, code: seq<byte>, starts: set<nat>, o: nat)
    requires NodeOk(n) && At(code, o, NodeCode(n)) && Cut(code, starts) && o in starts
    ensures o + |NodeCode(n)| in starts && o + |NodeCode(n)| <= |code|
    decreases n, 0
  {
    hide Cut, At, NodeCode;
    FitsIn(code, o, NodeCode(n));
    match n {
      case Grouped(reg, inner, choice) =>
        var _, _, _, _ := GroupPlaces(reg, inner, choice, code, starts, o);
      case Repeated(body, ops) =>
        var _, _, _ := RepeatPlaces(body, ops, code, starts, o);
      case _ => UnitPlace(n, code, starts, o);
    }
  }

  lemma {:induction false} ChoiceEnd(ch: Choice, code: seq<byte>, starts: set<nat>, o: nat)
    requires ChoiceOk(ch) && At(code, o, ChoiceCode(ch)) && Cut(code, starts) && o in starts
    ensures o + |ChoiceCode(ch)| in starts && o + |ChoiceCode(ch)| <= |code|
    decreases ch, 2
  {
    hide Cut, At, NodesCode, OpenCode;
    match ch {
      case Sole(ns) => NodesEnd(ns, code, starts, o);
      case Or(init, ns) =>
        var m := OrPlaces(init, ns, code, starts, o);
        NodesEnd(ns, code, starts, m);
    }
  }

  /** Where the last of several alternatives begins. */
  lemma {:induction false} OrPlaces(init: Choice, ns: Nodes, code: seq<byte>, starts: set<nat>, o: nat) returns (m: nat)
    requires ChoiceOk(init) && NodesOk(ns) && At(code, o, ChoiceCode(Or(init, ns))) && Cut(code, starts) && o in starts
    ensures At(code, o, OpenCode(init, JumpCode(JUMP_PAST_ALT, |NodesCode(ns)|))) && |NodesCode(ns)| < JUMP_LIMIT
    ensures m == o + |OpenCode(init, JumpCode(JUMP_PAST_ALT, |NodesCode(ns)|))| && m >= 3 && Gap(starts, m - 3, m)
    ensures At(code, m, NodesCode(ns)) && m + |NodesCode(ns)| == o + |ChoiceCode(Or(init, ns))| <= |code|
    decreases init, 2
  {
    hide Cut, At, NodesCode, OpenCode;
    var front := OpenCode(init, JumpCode(JUMP_PAST_ALT, |NodesCode(ns)|));
    AtSplit(code, o, front, NodesCode(ns));
    m := o + |front|;
    FitsIn(code, m, NodesCode(ns));
    InLimit(code, starts);
    OpenEnd(init, |NodesCode(ns)|, code, starts, o);
  }

  lemma InLimit(code: seq<byte>, starts: set<nat>)
    requires Cut(code, starts)
    ensures |code| < JUMP_LIMIT
  {
  }

  lemma {:induction false} OpenEnd(ch: Choice, d: nat, code: seq<byte>, starts: set<nat>, o: nat)
    requires ChoiceOk(ch) && At(code, o, OpenCode(ch, JumpCode(JUMP_PAST_ALT, d))) && d < JUMP_LIMIT
    requires Cut(code, starts) && o in starts
    ensures var m := o + |OpenCode(ch, JumpCode(JUMP_PAST_ALT, d))|; m >= 3 && Gap(starts, m - 3, m)
    decreases ch, 1
  {
    hide Cut, At, NodesCode, OpenAlternative;
    match ch {
      case Sole(ns) =>
        var _ := AlternativePlaces(ns, d, code, starts, o);
      case Or(init, ns) =>
        var m := MoreOpen(init, ns, d, code, starts, o);
        var _ := AlternativePlaces(ns, d, code, starts, m);
    }
  }

  /** Where the last of several finished alternatives begins. */
  lemma {:induction false} MoreOpen(init: Choice, ns: Nodes, d: nat, code: seq<byte>, starts: set<nat>, o: nat)
    returns (m: nat)
    requires ChoiceOk(init) && NodesOk(ns) && At(code, o, OpenCode(Or(init, ns), JumpCode(JUMP_PAST_ALT, d)))
    requires d < JUMP_LIMIT && Cut(code, starts) && o in starts
    ensures At(code, o, OpenCode(init, JumpCode(JUMP_PAST_ALT, |NodesCode(ns)| + 3)))
    ensures |NodesCode(ns)| + 3 < JUMP_LIMIT
    ensures m == o + |OpenCode(init, JumpCode(JUMP_PAST_ALT, |NodesCode(ns)| + 3))| && m >= 3 && Gap(starts, m - 3, m)
    ensures At(code, m, OpenAlternative(NodesCode(ns), JumpCode(JUMP_PAST_ALT, d)))
    ensures m + |NodesCode(ns)| + 6 == o + |OpenCode(Or(init, ns), JumpCode(JUMP_PAST_ALT, d))| <= |code|
    decreases init, 2
  {
    hide Cut, At, NodesCode;
    var hole := JumpCode(JUMP_PAST_ALT, d);
    var front := OpenCode(init, JumpCode(JUMP_PAST_ALT, |NodesCode(ns)| + 3));
    AtSplit(code, o, front, OpenAlternative(NodesCode(ns), hole));
    m := o + |front|;
    FitsIn(code, m, OpenAlternative(NodesCode(ns), hole));
    InLimit(code, starts);
    OpenEnd(init, |NodesCode(ns)| + 3, code, starts, o);
  }
}
