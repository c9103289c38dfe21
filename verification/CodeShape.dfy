/** Where the instructions of compiled code begin, where they can go, and that the body of a loop
    is entered only at its start. */
module CodeShape {
  import opened Bytes
  import opened Bytecode
  import opened CodeTree
  import opened CodeMeaning
  import Ere

  /** One step that consumes nothing, anchors being passed freely. */
  predicate Silent(code: seq<byte>, pc: int, to: int) {
    0 <= pc < |code| &&
    match Decode(code, pc)
    case Memory => to == pc + 3
    case LineStart => to == pc + 1
    case LineEnd => to == pc + 1
    case PushDummy => to == pc + 1
    case Jump(t) => to == t
    case Fork(t) => to == pc + 3 || to == t
    case _ => false
  }

  /** `pc` can be followed by `to`. */
  predicate Leads(code: seq<byte>, pc: int, to: int) {
    0 <= pc < |code| &&
    match Decode(code, pc)
    case Jump(t) => to == t
    case Fork(t) => to == pc + 3 || to == t
    case Bad => false
    case instr => to == pc + instr.Length()
  }

  lemma SilentLeads(code: seq<byte>, pc: int, to: int)
    requires Silent(code, pc, to)
    ensures Leads(code, pc, to)
  {
  }

  /** Opcode by opcode: what the compiler guarantees beyond a decodable instruction. */
  predicate OpcodeOk(code: seq<byte>, pc: nat)
    requires pc < |code| && Decode(code, pc) != Bad
  {
    var op := code[pc];
    && op != JUMP && op != POP_FAILURE_JUMP
    && (op == CHARSET || op == CHARSET_NOT ==> code[pc + 1] <= 32)
    && (TakesNumber(op) ==>
          var t := Target(code, pc);
          && 0 <= t <= |code|
          && (op == MAYBE_POP_JUMP ==> t + 3 <= pc && code[t] == ON_FAILURE_JUMP && Target(code, t) == pc + 3)
          && (op != MAYBE_POP_JUMP ==> pc + 3 <= t)
          && (op == DUMMY_FAILURE_JUMP ==> t == pc + 6 <= |code| && code[pc + 3] == ON_FAILURE_JUMP)
          && (op == JUMP_PAST_ALT && t == pc + 3 ==> t == |code| || code[t] == PUSH_DUMMY_FAILURE))
  }

  /** `pc` starts an instruction that ends before the next start in `starts`, and leads into
      `starts` or `exits`. */
  ghost predicate StartOk(code: seq<byte>, pc: nat, starts: set<nat>, exits: set<nat>)
    requires pc < |code|
  {
    var instr := Decode(code, pc);
    && instr != Bad && pc + instr.Length() in starts
    && (forall x :: x in starts ==> x <= pc || pc + instr.Length() <= x)
    && OpcodeOk(code, pc)
    && (forall to: nat :: Leads(code, pc, to) ==> to in starts || to in exits)
  }

  /** `y` is in the body of the loop whose closing jump is at `t`. */
  predicate InLoop(code: seq<byte>, t: nat, y: int): (r: bool)
    ensures r ==> t + 3 <= |code|
  {
    t + 3 <= |code| && code[t] == MAYBE_POP_JUMP && Target(code, t) + 3 <= y <= t
  }

  ghost predicate Avoids(code: seq<byte>, starts: set<nat>, e: nat, y: int) {
    forall t :: t in starts && t < e ==> !InLoop(code, t, y)
  }

  /** `x` leads from outside the body of a loop into it. */
  predicate LoopEntry(code: seq<byte>, t: nat, x: nat, y: nat) {
    Leads(code, x, y) && InLoop(code, t, y) && !InLoop(code, t, x)
  }

  /** The entry is at the start of the body, from the loop's fork or from a jump over the fork. */
  predicate EntryOk(code: seq<byte>, t: nat, x: nat, y: nat) {
    && t + 3 <= |code| && x < |code| && y == Target(code, t) + 3
    && (x == Target(code, t) || code[x] == DUMMY_FAILURE_JUMP)
  }

  ghost predicate LoopsClosed(code: seq<byte>, starts: set<nat>, e: nat) {
    forall t, x, y: nat :: t in starts && t < e && x in starts && x < e && LoopEntry(code, t, x, y) ==>
      EntryOk(code, t, x, y)
  }

  /** code[o..e] is cut into instructions at `starts`. */
  ghost predicate Shape(code: seq<byte>, o: nat, e: nat, starts: set<nat>, exits: set<nat>) {
    && o <= e <= |code| && o in starts && e in starts
    && (forall x :: x in starts ==> o <= x <= e)
    && (forall x {:trigger StartOk(code, x, starts, exits)} :: x in starts && x < e ==> StartOk(code, x, starts, exits))
    && (forall t, y :: t in starts && t < e && InLoop(code, t, y) ==> o + 3 <= y)
    && LoopsClosed(code, starts, e)
  }

  lemma ShapeEmpty(code: seq<byte>, o: nat)
    requires o <= |code|
    ensures Shape(code, o, o, {o}, {})
  {
  }

  /** A single instruction other than a jump back. */
  lemma ShapeOne(code: seq<byte>, o: nat, exits: set<nat>)
    requires o < |code| && Decode(code, o) != Bad && OpcodeOk(code, o) && code[o] != MAYBE_POP_JUMP
    requires forall to: nat :: Leads(code, o, to) ==> to == o + Decode(code, o).Length() || to in exits
    ensures Shape(code, o, o + Decode(code, o).Length(), {o, o + Decode(code, o).Length()}, exits)
  {
  }

  lemma AvoidsOutside(code: seq<byte>, o: nat, e: nat, starts: set<nat>, exits: set<nat>, y: int)
    requires Shape(code, o, e, starts, exits) && (y >= e || y < o + 3)
    ensures Avoids(code, starts, e, y)
  {
    hide StartOk, LoopsClosed;
  }

  lemma StartJoin(code: seq<byte>, o: nat, m: nat, e: nat, s1: set<nat>, x1: set<nat>, s2: set<nat>, x2: set<nat>,
                  x: nat)
    requires Shape(code, o, m, s1, x1) && Shape(code, m, e, s2, x2) && x in s1 + s2 && x < e
    ensures StartOk(code, x, s1 + s2, x1 + x2)
  {
    hide Decode, Leads, OpcodeOk, LoopsClosed, InLoop;
    if x in s1 && x < m {
      assert StartOk(code, x, s1, x1);
    } else {
      assert StartOk(code, x, s2, x2);
    }
  }

  /** Two neighbouring pieces of code, when neither leads inside a loop of the other. */
  lemma ShapeJoin(code: seq<byte>, o: nat, m: nat, e: nat, s1: set<nat>, x1: set<nat>, s2: set<nat>, x2: set<nat>)
    requires Shape(code, o, m, s1, x1) && Shape(code, m, e, s2, x2)
    requires forall y :: y in x1 ==> Avoids(code, s2, e, y)
    requires forall y :: y in x2 ==> Avoids(code, s1, m, y)
    ensures Shape(code, o, e, s1 + s2, x1 + x2)
  {
    hide Leads, StartOk, InLoop, LoopsClosed;
    var starts, exits := s1 + s2, x1 + x2;
    forall x | x in starts && x < e
      ensures StartOk(code, x, starts, exits)
    {
      StartJoin(code, o, m, e, s1, x1, s2, x2, x);
    }
    LoopsJoin(code, o, m, e, s1, x1, s2, x2);
  }

  lemma LoopsJoin(code: seq<byte>, o: nat, m: nat, e: nat, s1: set<nat>, x1: set<nat>, s2: set<nat>, x2: set<nat>)
    requires Shape(code, o, m, s1, x1) && Shape(code, m, e, s2, x2)
    requires forall y :: y in x1 ==> Avoids(code, s2, e, y)
    requires forall y :: y in x2 ==> Avoids(code, s1, m, y)
    ensures LoopsClosed(code, s1 + s2, e)
  {
    hide Leads, StartOk, InLoop, EntryOk;
    var starts := s1 + s2;
    forall t, x, y: nat | t in starts && t < e && x in starts && x < e && LoopEntry(code, t, x, y)
      ensures EntryOk(code, t, x, y)
    {
      if x < m {
        LeadsTo(code, o, m, s1, x1, x, y);
        if t >= m && y in s1 {
          AvoidsOutside(code, m, e, s2, x2, y);
        }
      } else {
        LeadsTo(code, m, e, s2, x2, x, y);
        if t < m && y in s2 {
          AvoidsOutside(code, o, m, s1, x1, y);
        }
      }
    }
  }

  lemma LeadsTo(code: seq<byte>, o: nat, e: nat, starts: set<nat>, exits: set<nat>, x: nat, y: nat)
    requires Shape(code, o, e, starts, exits) && x in starts && x < e && Leads(code, x, y)
    ensures y in starts || y in exits
  {
    hide Leads, Decode, OpcodeOk;
    assert StartOk(code, x, starts, exits);
  }

  /** Exits that are starts after all are no exits. */
  lemma ShapeInternal(code: seq<byte>, o: nat, e: nat, starts: set<nat>, exits: set<nat>)
    requires Shape(code, o, e, starts, exits) && exits <= starts
    ensures Shape(code, o, e, starts, {})
  {
    forall x | x in starts && x < e
      ensures StartOk(code, x, starts, {})
    {
      assert StartOk(code, x, starts, exits);
    }
  }

  // ----- the code of a tree has this shape -----

  /** Join for pieces that keep to themselves. */
  lemma ShapeAppend(code: seq<byte>, o: nat, m: nat, e: nat, s1: set<nat>, s2: set<nat>)
    requires Shape(code, o, m, s1, {}) && Shape(code, m, e, s2, {})
    ensures Shape(code, o, e, s1 + s2, {})
  {
    hide Shape;
    ShapeJoin(code, o, m, e, s1, {}, s2, {});
    var none: set<nat> := {};
    assert none + none == none;
  }

  lemma {:induction false} NodesShape(ns: Nodes, code: seq<byte>, o: nat) returns (starts: set<nat>)
    requires NodesOk(ns) && At(code, o, NodesCode(ns)) && |code| < JUMP_LIMIT
    ensures Shape(code, o, o + |NodesCode(ns)|, starts, {})
    decreases ns, 0
  {
    hide Shape, At;
    match ns
    case NoNode =>
      ShapeEmpty(code, o);
      starts := {o};
    case Add(init, last) =>
      AtSplit(code, o, NodesCode(init), NodeCode(last));
      var m := o + |NodesCode(init)|;
      var s1 := NodesShape(init, code, o);
      var s2 := NodeShape(last, code, m);
      ShapeAppend(code, o, m, m + |NodeCode(last)|, s1, s2);
      starts := s1 + s2;
  }

  lemma {:induction false} NodeShape(n: Node, code: seq<byte>, o: nat) returns (starts: set<nat>)
    requires NodeOk(n) && At(code, o, NodeCode(n)) && |code| < JUMP_LIMIT
    ensures Shape(code, o, o + |NodeCode(n)|, starts, {})
    decreases n, 0
  {
    hide Shape, At;
    match n
    case Grouped(reg, inner, choice) =>
      starts := GroupShape(reg, inner, choice, code, o);
    case Repeated(body, ops) =>
      starts := RepeatShape(body, ops, code, o);
    case _ =>
      UnitShape(n, code, o);
      starts := {o, o + |NodeCode(n)|};
  }

  lemma UnitShape(n: Node, code: seq<byte>, o: nat)
    requires (n.Text? || n.Simple? || n.Set?) && NodeOk(n) && At(code, o, NodeCode(n))
    ensures Shape(code, o, o + |NodeCode(n)|, {o, o + |NodeCode(n)|}, {})
  {
    hide Shape;
    UnitDecodes(n, code, o);
    UnitLeads(code, o);
    hide Decode, Leads, NodeCode, OpcodeOk;
    ShapeOne(code, o, {});
  }

  lemma UnitDecodes(n: Node, code: seq<byte>, o: nat)
    requires (n.Text? || n.Simple? || n.Set?) && NodeOk(n) && At(code, o, NodeCode(n))
    ensures o < |code| && Decode(code, o) != Bad && Decode(code, o).Length() == |NodeCode(n)|
    ensures !Decode(code, o).Jump? && !Decode(code, o).Fork?
    ensures OpcodeOk(code, o) && code[o] != MAYBE_POP_JUMP
  {
    hide Decode, OpcodeOk, Represents;
    match n {
      case Text(chars) =>
        DecodeCounted(code, o, EXACTN, TextBytes(chars));
        PlainOpcode(code, o);
      case Simple(atom) =>
        DecodeSimple(code, o, SimpleCode(atom)[0]);
        PlainOpcode(code, o);
      case Set(_, _, _, _) => SetDecodes(n, code, o);
    }
  }

  lemma SetDecodes(n: Node, code: seq<byte>, o: nat)
    requires n.Set? && NodeOk(n) && At(code, o, NodeCode(n))
    ensures o < |code| && Decode(code, o) == CharSet(n.negated, n.bitmap) && Decode(code, o).Length() == |NodeCode(n)|
    ensures OpcodeOk(code, o) && code[o] in {CHARSET, CHARSET_NOT}
  {
    hide Decode, OpcodeOk, InBitmap;
    DecodeCounted(code, o, if n.negated then CHARSET_NOT else CHARSET, n.bitmap);
    AtByte(code, o, NodeCode(n), 1);
    PlainOpcode(code, o);
  }

  lemma PlainOpcode(code: seq<byte>, o: nat)
    requires o < |code| && Decode(code, o) != Bad
    requires code[o] in {EXACTN, ANYCHAR, BEGLINE, ENDLINE} || (code[o] in {CHARSET, CHARSET_NOT} && code[o + 1] <= 32)
    ensures OpcodeOk(code, o)
  {
    hide Decode, Target;
  }

  lemma UnitLeads(code: seq<byte>, o: nat)
    requires o < |code| && Decode(code, o) != Bad && !Decode(code, o).Jump? && !Decode(code, o).Fork?
    ensures forall to: nat :: Leads(code, o, to) ==> to == o + Decode(code, o).Length()
  {
    hide Decode;
  }

  lemma MemoryShape(code: seq<byte>, o: nat, op: byte, reg: nat, inner: nat) returns (starts: set<nat>)
    requires At(code, o, MemoryCode(op, reg, inner)) && (op == START_MEMORY || op == STOP_MEMORY)
    ensures Shape(code, o, o + |MemoryCode(op, reg, inner)|, starts, {})
  {
    hide Shape;
    if reg <= MAX_REGNUM {
      DecodeMemory(code, o, op, reg, inner % 256);
      ShapeOne(code, o, {});
      starts := {o, o + 3};
    } else {
      ShapeEmpty(code, o);
      starts := {o};
    }
  }

  lemma DummyShape(code: seq<byte>, o: nat, dummy: seq<byte>) returns (starts: set<nat>)
    requires At(code, o, dummy) && (dummy == [] || dummy == [PUSH_DUMMY_FAILURE])
    ensures Shape(code, o, o + |dummy|, starts, {})
  {
    hide Shape;
    if dummy == [] {
      ShapeEmpty(code, o);
      starts := {o};
    } else {
      DecodeSimple(code, o, PUSH_DUMMY_FAILURE);
      ShapeOne(code, o, {});
      starts := {o, o + 1};
    }
  }

  lemma {:induction false} GroupShape(reg: nat, inner: nat, choice: Choice, code: seq<byte>, o: nat)
    returns (starts: set<nat>)
    requires ChoiceOk(choice) && At(code, o, NodeCode(Grouped(reg, inner, choice))) && |code| < JUMP_LIMIT
    ensures Shape(code, o, o + |NodeCode(Grouped(reg, inner, choice))|, starts, {})
    decreases choice, 1
  {
    hide Shape, ChoiceOk;
    var start, stop := MemoryCode(START_MEMORY, reg, inner), MemoryCode(STOP_MEMORY, reg, inner);
    var body, dummy := ChoiceCode(choice), if choice.Or? then [PUSH_DUMMY_FAILURE] else [];
    AtSplit(code, o, start, body + (dummy + stop));
    AtSplit(code, o + |start|, body, dummy + stop);
    AtSplit(code, o + |start| + |body|, dummy, stop);
    hide At;
    var o1, o2 := o + |start|, o + |start| + |body|;
    var o3 := o2 + |dummy|;
    if choice.Or? {
      AtByte(code, o2, dummy, 0);
    }
    var s1 := MemoryShape(code, o, START_MEMORY, reg, inner);
    var s2 := ChoiceShape(choice, code, o1);
    var s3 := DummyShape(code, o2, dummy);
    var s4 := MemoryShape(code, o3, STOP_MEMORY, reg, inner);
    ShapeAppend(code, o, o1, o2, s1, s2);
    ShapeAppend(code, o, o2, o3, s1 + s2, s3);
    ShapeAppend(code, o, o3, o3 + |stop|, s1 + s2 + s3, s4);
    starts := s1 + s2 + s3 + s4;
  }

  lemma {:induction false} ChoiceShape(ch: Choice, code: seq<byte>, o: nat) returns (starts: set<nat>)
    requires ChoiceOk(ch) && At(code, o, ChoiceCode(ch)) && |code| < JUMP_LIMIT
    requires ch.Or? ==> var e := o + |ChoiceCode(ch)|; e == |code| || code[e] == PUSH_DUMMY_FAILURE
    ensures Shape(code, o, o + |ChoiceCode(ch)|, starts, {})
    decreases ch, 0
  {
    hide Shape, At;
    match ch
    case Sole(ns) => starts := NodesShape(ns, code, o);
    case Or(init, ns) =>
      var d := |NodesCode(ns)|;
      var front := OpenCode(init, JumpCode(JUMP_PAST_ALT, d));
      AtSplit(code, o, front, NodesCode(ns));
      var m := o + |front|;
      var s1 := OpenShape(init, d, code, o);
      var s2 := NodesShape(ns, code, m);
      AvoidsOutside(code, m, m + d, s2, {}, m + d);
      ShapeJoin(code, o, m, m + d, s1, {m + d}, s2, {});
      EndIsStart(code, m, m + d, s2, {});
      ShapeInternal(code, o, m + d, s1 + s2, {m + d} + {});
      starts := s1 + s2;
  }

  lemma EndIsStart(code: seq<byte>, o: nat, e: nat, starts: set<nat>, exits: set<nat>)
    requires Shape(code, o, e, starts, exits)
    ensures o in starts && e in starts && o <= e <= |code|
    ensures forall x :: x in starts ==> o <= x <= e
  {
  }

  lemma {:induction false} OpenShape(ch: Choice, d: nat, code: seq<byte>, o: nat) returns (starts: set<nat>)
    requires ChoiceOk(ch) && |code| < JUMP_LIMIT
    requires var front := OpenCode(ch, JumpCode(JUMP_PAST_ALT, d));
      At(code, o, front) && o + |front| + d <= |code|
      && (d == 0 ==> o + |front| == |code| || code[o + |front|] == PUSH_DUMMY_FAILURE)
    ensures var e := o + |OpenCode(ch, JumpCode(JUMP_PAST_ALT, d))|;
      Shape(code, o, e, starts, {e + d})
    decreases ch, 0
  {
    hide Shape, At;
    var hole := JumpCode(JUMP_PAST_ALT, d);
    match ch
    case Sole(ns) =>
      starts := AlternativeShape(ns, d, code, o);
    case Or(init, ns) =>
      var d' := |NodesCode(ns)| + 3;
      var front := OpenCode(init, JumpCode(JUMP_PAST_ALT, d'));
      AtSplit(code, o, front, OpenAlternative(NodesCode(ns), hole));
      var m := o + |front|;
      var e := m + |NodesCode(ns)| + 6;
      var s1 := OpenShape(init, d', code, o);
      var s2 := AlternativeShape(ns, d, code, m);
      AvoidsOutside(code, o, m, s1, {m + d'}, e + d);
      ShapeJoin(code, o, m, e, s1, {m + d'}, s2, {e + d});
      starts := s1 + s2;
      ShapeDrop(code, o, e, starts, m + d', e + d);
  }

  /** One exit fewer, when it is a start. */
  lemma ShapeDrop(code: seq<byte>, o: nat, e: nat, starts: set<nat>, x: nat, y: nat)
    requires Shape(code, o, e, starts, {x} + {y}) && x in starts
    ensures Shape(code, o, e, starts, {y})
  {
    hide Decode, Leads, OpcodeOk, LoopsClosed, InLoop;
    forall p | p in starts && p < e
      ensures StartOk(code, p, starts, {y})
    {
      assert StartOk(code, p, starts, {x} + {y});
    }
  }

  lemma {:induction false} AlternativeShape(ns: Nodes, d: nat, code: seq<byte>, o: nat) returns (starts: set<nat>)
    requires NodesOk(ns) && |code| < JUMP_LIMIT
    requires var e := o + |NodesCode(ns)| + 6;
      && At(code, o, OpenAlternative(NodesCode(ns), JumpCode(JUMP_PAST_ALT, d))) && e + d <= |code|
      && (d == 0 ==> e == |code| || code[e] == PUSH_DUMMY_FAILURE)
    ensures var e := o + |NodesCode(ns)| + 6;
      Shape(code, o, e, starts, {e + d}) && e - 3 in starts && Avoids(code, starts, e, e - 3)
    decreases ns, 1
  {
    hide Shape, At, Avoids;
    var body := NodesCode(ns);
    var h := o + 3 + |body|;
    AlternativeParts(code, o, body, JumpCode(JUMP_PAST_ALT, d));
    JumpShape(code, o, ON_FAILURE_JUMP, |body| + 3);
    JumpShape(code, h, JUMP_PAST_ALT, d);
    var s := NodesShape(ns, code, o + 3);
    starts := JoinAlternative(code, o, h, d, s);
  }

  /** A forward fork or jump past an alternative. */
  lemma JumpShape(code: seq<byte>, o: nat, op: byte, d: nat)
    requires op == ON_FAILURE_JUMP || op == JUMP_PAST_ALT
    requires At(code, o, JumpCode(op, d)) && d < JUMP_LIMIT && o + 3 + d <= |code|
    requires op == JUMP_PAST_ALT && d == 0 ==> o + 3 == |code| || code[o + 3] == PUSH_DUMMY_FAILURE
    ensures Shape(code, o, o + 3, {o, o + 3}, {o + 3 + d}) && code[o] != MAYBE_POP_JUMP
  {
    DecodeJump(code, o, op, d);
    hide Shape;
    ShapeOne(code, o, {o + 3 + d});
  }

  lemma JoinAlternative(code: seq<byte>, o: nat, h: nat, d: nat, s: set<nat>) returns (starts: set<nat>)
    requires Shape(code, o, o + 3, {o, o + 3}, {h + 3}) && Shape(code, o + 3, h, s, {})
    requires Shape(code, h, h + 3, {h, h + 3}, {h + 3 + d}) && code[o] != MAYBE_POP_JUMP && code[h] != MAYBE_POP_JUMP
    ensures Shape(code, o, h + 3, starts, {h + 3 + d}) && h in starts && Avoids(code, starts, h + 3, h)
  {
    hide Shape, Avoids;
    AvoidsOutside(code, o + 3, h, s, {}, h + 3 + d);
    ShapeJoin(code, o + 3, h, h + 3, s, {}, {h, h + 3}, {h + 3 + d});
    var tail := s + {h, h + 3};
    AvoidsOutside(code, o + 3, h + 3, tail, {} + {h + 3 + d}, h + 3);
    AvoidsOutside(code, o, o + 3, {o, o + 3}, {h + 3}, h + 3 + d);
    ShapeJoin(code, o, o + 3, h + 3, {o, o + 3}, {h + 3}, tail, {} + {h + 3 + d});
    starts := {o, o + 3} + tail;
    assert {h + 3} + ({} + {h + 3 + d}) == {h + 3} + {h + 3 + d};
    ShapeDrop(code, o, h + 3, starts, h + 3, h + 3 + d);
    AvoidsOutside(code, o + 3, h, s, {}, h);
    EndIsStart(code, o + 3, h, s, {});
    EndIsStart(code, h, h + 3, {h, h + 3}, {h + 3 + d});
    AvoidsMore(code, o, h, s);
  }

  lemma AvoidsMore(code: seq<byte>, o: nat, h: nat, s: set<nat>)
    requires Avoids(code, s, h, h) && o < |code| && h < |code| && code[o] != MAYBE_POP_JUMP && code[h] != MAYBE_POP_JUMP
    requires o + 3 in s && h in s && forall x :: x in s ==> x <= h
    ensures Avoids(code, {o, o + 3} + (s + {h, h + 3}), h + 3, h)
  {
  }

  lemma {:induction false} RepeatShape(body: Node, ops: seq<Ere.Op>, code: seq<byte>, o: nat) returns (starts: set<nat>)
    requires NodeOk(Repeated(body, ops)) && At(code, o, NodeCode(Repeated(body, ops))) && |code| < JUMP_LIMIT
    ensures Shape(code, o, o + |NodeCode(Repeated(body, ops))|, starts, {})
    decreases body, 2
  {
    hide Shape, At, Ere.ZeroOk, Ere.ManyOk, RepeatCode, Represents;
    var zero, many := Ere.ZeroOk(ops), Ere.ManyOk(ops);
    var frag := NodeCode(body);
    RepeatParts(code, o, frag, zero, many);
    if !many {
      starts := OptionalShape(body, code, o);
    } else if zero {
      starts := LoopShape(body, code, o);
    } else {
      starts := LoopShape(body, code, o + 3);
      SkipShape(code, o, o + 9 + |frag|, starts);
      starts := {o, o + 3} + starts;
    }
  }

  /** A jump over the fork at the start of a loop. */
  lemma SkipShape(code: seq<byte>, o: nat, e: nat, starts: set<nat>)
    requires Shape(code, o + 3, e, starts, {}) && o + 6 in starts
    requires At(code, o, JumpCode(DUMMY_FAILURE_JUMP, 3)) && o + 6 <= e && code[o + 3] == ON_FAILURE_JUMP
    ensures Shape(code, o, e, {o, o + 3} + starts, {})
  {
    hide Leads, StartOk, InLoop, EntryOk;
    var all := {o, o + 3} + starts;
    EndIsStart(code, o + 3, e, starts, {});
    SkipStart(code, o, e, starts);
    forall x | x in starts && x < e
      ensures StartOk(code, x, all, {})
    {
      SkipOther(code, o, e, starts, x);
    }
    forall t, x, y: nat | t in all && t < e && x in all && x < e && LoopEntry(code, t, x, y)
      ensures EntryOk(code, t, x, y)
    {
      SkipEntry(code, o, e, starts, t, x, y);
    }
    NotALoop(code, o);
  }

  lemma NotALoop(code: seq<byte>, o: nat)
    requires o < |code| && code[o] != MAYBE_POP_JUMP
    ensures forall y: int :: !InLoop(code, o, y)
  {
  }

  lemma SkipStart(code: seq<byte>, o: nat, e: nat, starts: set<nat>)
    requires At(code, o, JumpCode(DUMMY_FAILURE_JUMP, 3)) && o + 6 <= e <= |code| && code[o + 3] == ON_FAILURE_JUMP
    requires o + 6 in starts && o + 3 in starts && forall x :: x in starts ==> o + 3 <= x
    ensures code[o] == DUMMY_FAILURE_JUMP && StartOk(code, o, {o, o + 3} + starts, {})
    ensures forall y :: Leads(code, o, y) ==> y == o + 6
  {
    DecodeJump(code, o, DUMMY_FAILURE_JUMP, 3);
    hide Decode, Target;
  }

  lemma SkipOther(code: seq<byte>, o: nat, e: nat, starts: set<nat>, x: nat)
    requires Shape(code, o + 3, e, starts, {}) && x in starts && x < e
    ensures StartOk(code, x, {o, o + 3} + starts, {})
  {
    hide Decode, Leads, OpcodeOk, LoopsClosed, InLoop;
    assert StartOk(code, x, starts, {});
  }

  lemma SkipEntry(code: seq<byte>, o: nat, e: nat, starts: set<nat>, t: nat, x: nat, y: nat)
    requires Shape(code, o + 3, e, starts, {}) && o < |code| && code[o] == DUMMY_FAILURE_JUMP
    requires t in {o} + starts && t < e && x in {o} + starts && x < e && LoopEntry(code, t, x, y)
    requires forall z :: Leads(code, o, z) ==> z == o + 6
    ensures EntryOk(code, t, x, y)
  {
    hide Leads, StartOk;
    if x == o {
      assert InLoop(code, t, Target(code, t) + 3);
    }
  }

  lemma {:induction false} OptionalShape(body: Node, code: seq<byte>, o: nat) returns (starts: set<nat>)
    requires NodeOk(body) && |code| < JUMP_LIMIT
    requires At(code, o, JumpCode(ON_FAILURE_JUMP, |NodeCode(body)|)) && At(code, o + 3, NodeCode(body))
    ensures Shape(code, o, o + 3 + |NodeCode(body)|, starts, {})
    decreases body, 1
  {
    hide Shape;
    var e := o + 3 + |NodeCode(body)|;
    DecodeJump(code, o, ON_FAILURE_JUMP, |NodeCode(body)|);
    hide At;
    ShapeOne(code, o, {e});
    var s := NodeShape(body, code, o + 3);
    AvoidsOutside(code, o + 3, e, s, {}, e);
    ShapeJoin(code, o, o + 3, e, {o, o + 3}, {e}, s, {});
    EndIsStart(code, o + 3, e, s, {});
    starts := {o, o + 3} + s;
    ShapeInternal(code, o, e, starts, {e} + {});
  }

  lemma {:induction false} LoopShape(body: Node, code: seq<byte>, q: nat) returns (starts: set<nat>)
    requires NodeOk(body) && |code| < JUMP_LIMIT
    requires At(code, q, JumpCode(ON_FAILURE_JUMP, |NodeCode(body)| + 3)) && At(code, q + 3, NodeCode(body))
    requires At(code, q + 3 + |NodeCode(body)|, JumpCode(MAYBE_POP_JUMP, -|NodeCode(body)| - 6))
    ensures Shape(code, q, q + 6 + |NodeCode(body)|, starts, {})
    ensures q + 3 in starts && code[q] == ON_FAILURE_JUMP
    decreases body, 1
  {
    hide Shape;
    var t := q + 3 + |NodeCode(body)|;
    DecodeJump(code, q, ON_FAILURE_JUMP, |NodeCode(body)| + 3);
    DecodeJump(code, t, MAYBE_POP_JUMP, -|NodeCode(body)| - 6);
    hide At;
    var s := NodeShape(body, code, q + 3);
    CloseLoop(code, q, t, s);
    starts := {q} + s + {t + 3};
  }

  /** A body between a fork past the loop and a jump back to the fork. */
  lemma CloseLoop(code: seq<byte>, q: nat, t: nat, s: set<nat>)
    requires LoopParts(code, q, t, s)
    ensures Shape(code, q, t + 3, {q} + s + {t + 3}, {})
    ensures q + 3 in {q} + s + {t + 3}
  {
    hide Decode, Leads, OpcodeOk, InLoop, StartOk;
    var starts := {q} + s + {t + 3};
    EndIsStart(code, q + 3, t, s, {});
    forall x | x in starts && x < t + 3
      ensures StartOk(code, x, starts, {})
    {
      CloseLoopStart(code, q, t, s, x);
    }
    forall t', x, y: nat | t' in starts && t' < t + 3 && x in starts && x < t + 3 && LoopEntry(code, t', x, y)
      ensures EntryOk(code, t', x, y)
    {
      CloseLoopEntry(code, q, t, s, t', x, y);
    }
    forall t', y | t' in starts && t' < t + 3 && InLoop(code, t', y)
      ensures q + 3 <= y
    {
      CloseLoopBounds(code, q, t, s, t', y);
    }
  }

  ghost predicate LoopParts(code: seq<byte>, q: nat, t: nat, s: set<nat>) {
    && Shape(code, q + 3, t, s, {}) && t + 3 <= |code|
    && code[q] == ON_FAILURE_JUMP && Decode(code, q) == Fork(t + 3) && Target(code, q) == t + 3
    && code[t] == MAYBE_POP_JUMP && Decode(code, t) == Jump(q) && Target(code, t) == q
  }

  lemma CloseLoopStart(code: seq<byte>, q: nat, t: nat, s: set<nat>, x: nat)
    requires LoopParts(code, q, t, s) && x in {q} + s && x < t + 3
    ensures StartOk(code, x, {q} + s + {t + 3}, {})
  {
    hide LoopsClosed, InLoop, Decode, Target;
    EndIsStart(code, q + 3, t, s, {});
    if x == q || x == t {
      hide Shape;
    } else {
      hide Leads, OpcodeOk;
      assert StartOk(code, x, s, {});
    }
  }

  lemma CloseLoopBounds(code: seq<byte>, q: nat, t: nat, s: set<nat>, t': nat, y: int)
    requires LoopParts(code, q, t, s) && t' in {q} + s && t' < t + 3 && InLoop(code, t', y)
    ensures q + 3 <= y
  {
    hide Decode, Leads, OpcodeOk, StartOk, LoopsClosed;
  }

  lemma CloseLoopEntry(code: seq<byte>, q: nat, t: nat, s: set<nat>, t': nat, x: nat, y: nat)
    requires LoopParts(code, q, t, s) && t' in {q} + s && t' < t + 3 && x in {q} + s && x < t + 3
    requires LoopEntry(code, t', x, y)
    ensures EntryOk(code, t', x, y)
  {
    hide Decode, OpcodeOk, StartOk, Target;
    EndIsStart(code, q + 3, t, s, {});
    if q + 3 <= x < t {
      hide Leads;
      LeadsTo(code, q + 3, t, s, {}, x, y);
    } else {
      assert x == q ==> y == q + 3 || y == t + 3;
      assert x == t ==> y == q;
      hide Leads;
      AvoidsLow(code, q + 3, t, s, y);
    }
  }

  lemma AvoidsLow(code: seq<byte>, o: nat, e: nat, starts: set<nat>, y: int)
    requires Shape(code, o, e, starts, {}) && (y >= e || y <= o)
    ensures Avoids(code, starts, e, y)
  {
    AvoidsOutside(code, o, e, starts, {}, y);
  }

  /** The whole code of a pattern. */
  lemma CodeShaped(ch: Choice) returns (starts: set<nat>)
    requires ChoiceOk(ch) && |ChoiceCode(ch)| < JUMP_LIMIT
    ensures Shape(ChoiceCode(ch), 0, |ChoiceCode(ch)|, starts, {})
  {
    hide Shape;
    assert At(ChoiceCode(ch), 0, ChoiceCode(ch));
    starts := ChoiceShape(ch, ChoiceCode(ch), 0);
  }
}
