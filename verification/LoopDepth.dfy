/** How many loops surround a place in compiled code, and how a step changes that. */
module LoopDepth {
  import opened Bytes
  import opened Bytecode
  import opened CodeShape

  ghost function Loops(code: seq<byte>, starts: set<nat>, pc: nat): set<nat> {
    set t | t in starts && InLoop(code, t, pc)
  }

  ghost function Depth(code: seq<byte>, starts: set<nat>, pc: nat): nat {
    |Loops(code, starts, pc)|
  }

  lemma SubsetSize(a: set<nat>, b: set<nat>)
    requires a <= b
    ensures |a| <= |b|
  {
    if a != {} {
      var x :| x in a;
      SubsetSize(a - {x}, b - {x});
    }
  }

  /** What the compiler guarantees about the instruction at a start. */
  lemma InstructionOk(code: seq<byte>, starts: set<nat>, x: nat)
    requires Shape(code, 0, |code|, starts, {}) && x in starts && x < |code|
    ensures Decode(code, x) != Bad && OpcodeOk(code, x)
    ensures x + Decode(code, x).Length() in starts && x + Decode(code, x).Length() <= |code|
    ensures forall y :: y in starts ==> y <= x || x + Decode(code, x).Length() <= y
  {
    hide LoopsClosed, InLoop, Leads, Decode, OpcodeOk;
    assert StartOk(code, x, starts, {});
  }

  lemma OpcodeDecodes(code: seq<byte>, x: nat)
    requires x < |code| && Decode(code, x) != Bad
    ensures TakesNumber(code[x]) ==> x + 3 <= |code|
    ensures IsJump(code[x]) <==> Decode(code, x).Jump?
    ensures code[x] == ON_FAILURE_JUMP <==> Decode(code, x).Fork?
    ensures IsJump(code[x]) ==> Decode(code, x) == Jump(Target(code, x))
    ensures code[x] == ON_FAILURE_JUMP ==> Decode(code, x) == Fork(Target(code, x))
  {
    hide Target;
  }

  /** A step enters no loop but at its start, and then from the loop's fork or a jump over it. */
  lemma StepLoops(code: seq<byte>, starts: set<nat>, x: nat, y: nat)
    requires Shape(code, 0, |code|, starts, {}) && x in starts && Leads(code, x, y)
    ensures Depth(code, starts, y) <= Depth(code, starts, x) + 1
    ensures code[x] != ON_FAILURE_JUMP && code[x] != DUMMY_FAILURE_JUMP ==>
      Loops(code, starts, y) <= Loops(code, starts, x) && Depth(code, starts, y) <= Depth(code, starts, x)
  {
    hide Leads, InLoop, StartOk;
    var a, b := Loops(code, starts, x), Loops(code, starts, y);
    assert x < |code| by { LeadsInside(code, x, y); }
    forall t | t in b && t !in a
      ensures EntryOk(code, t, x, y)
    {
      EndIsStart(code, 0, |code|, starts, {});
      InLoopBounds(code, t, y);
      assert LoopEntry(code, t, x, y);
    }
    if b <= a {
      SubsetSize(b, a);
    } else {
      var t :| t in b && t !in a;
      InLoopBounds(code, t, y);
      InstructionOk(code, starts, t);
      forall t' | t' in b
        ensures t' in a + {t}
      {
        if t' !in a {
          InLoopBounds(code, t', y);
          SameLoop(code, starts, t, t');
        }
      }
      SubsetSize(b, a + {t});
    }
  }

  lemma LeadsInside(code: seq<byte>, x: nat, y: nat)
    requires Leads(code, x, y)
    ensures x < |code|
  {
  }

  lemma InLoopBounds(code: seq<byte>, t: nat, y: nat)
    requires InLoop(code, t, y)
    ensures t < |code| && code[t] == MAYBE_POP_JUMP && y <= t
  {
  }

  /** A loop is known by its fork. */
  lemma SameLoop(code: seq<byte>, starts: set<nat>, t: nat, t': nat)
    requires Shape(code, 0, |code|, starts, {}) && t in starts && t' in starts
    requires t + 3 <= |code| && t' + 3 <= |code| && code[t] == MAYBE_POP_JUMP && code[t'] == MAYBE_POP_JUMP
    requires Target(code, t) == Target(code, t')
    ensures t == t'
  {
    hide Shape, Decode, Target;
    InstructionOk(code, starts, t);
    InstructionOk(code, starts, t');
  }

  /** The jump that closes a loop leads out of the loop's body. */
  lemma BackLoops(code: seq<byte>, starts: set<nat>, t: nat)
    requires Shape(code, 0, |code|, starts, {}) && t in starts && t < |code| && code[t] == MAYBE_POP_JUMP
    ensures t + 3 <= |code| && 0 <= Target(code, t) && Target(code, t) in starts
    ensures Depth(code, starts, Target(code, t)) + 1 <= Depth(code, starts, t)
  {
    hide Shape, Leads;
    InstructionOk(code, starts, t);
    OpcodeDecodes(code, t);
    hide Decode;
    var q := Target(code, t);
    JumpLeads(code, t);
    LeadsTo(code, 0, |code|, starts, {}, t, q);
    StepLoops(code, starts, t, q);
    assert InLoop(code, t, t) && !InLoop(code, t, q);
    SubsetSize(Loops(code, starts, q) + {t}, Loops(code, starts, t));
  }

  lemma JumpLeads(code: seq<byte>, x: nat)
    requires x < |code| && Decode(code, x) != Bad && TakesNumber(code[x])
    ensures x + 3 <= |code| && Leads(code, x, Target(code, x))
    ensures code[x] == ON_FAILURE_JUMP ==> Leads(code, x, x + 3)
  {
    hide Target;
  }

  /** The jump of a fork enters no loop. */
  lemma ForkLoops(code: seq<byte>, starts: set<nat>, x: nat)
    requires Shape(code, 0, |code|, starts, {}) && x in starts && x < |code| && code[x] == ON_FAILURE_JUMP
    ensures x + 3 <= |code| && 0 <= Target(code, x) <= |code| && Target(code, x) in starts
    ensures Depth(code, starts, Target(code, x)) <= Depth(code, starts, x)
  {
    hide Leads, StartOk, InLoop;
    InstructionOk(code, starts, x);
    JumpLeads(code, x);
    var y: nat := Target(code, x);
    LeadsTo(code, 0, |code|, starts, {}, x, y);
    hide Decode, Target;
    EndIsStart(code, 0, |code|, starts, {});
    forall t | t in Loops(code, starts, y)
      ensures t in Loops(code, starts, x)
    {
      InLoopBounds(code, t, y);
      if !InLoop(code, t, x) {
        assert LoopEntry(code, t, x, y);
        InstructionOk(code, starts, t);
      }
    }
    SubsetSize(Loops(code, starts, y), Loops(code, starts, x));
  }

  /** Nothing surrounds the first instruction. */
  lemma StartLoops(code: seq<byte>, starts: set<nat>)
    requires Shape(code, 0, |code|, starts, {})
    ensures Depth(code, starts, 0) == 0
  {
    hide LoopsClosed, StartOk;
    forall t | t in starts
      ensures !InLoop(code, t, 0)
    {
    }
    assert Loops(code, starts, 0) == {};
  }

  // ----- code whose loops have been rewritten -----

  /** Some closing jumps of loops have become jumps of the two kinds that do not decide. */
  ghost predicate Variant(code: seq<byte>, now: seq<byte>, starts: set<nat>) {
    && |now| == |code|
    && forall k :: 0 <= k < |now| && now[k] != code[k] ==>
         k in starts && code[k] == MAYBE_POP_JUMP && (now[k] == JUMP || now[k] == POP_FAILURE_JUMP)
  }

  /** That changes opcodes only, and never what an instruction leads to. */
  lemma VariantDecode(code: seq<byte>, now: seq<byte>, starts: set<nat>, x: nat)
    requires Shape(code, 0, |code|, starts, {}) && Variant(code, now, starts) && x in starts && x < |code|
    ensures Decode(now, x) == Decode(code, x) && Decode(now, x) != Bad && |now| == |code|
    ensures x + Decode(now, x).Length() <= |now| && x + Decode(now, x).Length() in starts
    ensures now[x] == code[x] || (code[x] == MAYBE_POP_JUMP && (now[x] == JUMP || now[x] == POP_FAILURE_JUMP))
    ensures forall k :: x < k < x + Decode(now, x).Length() ==> now[k] == code[k]
  {
    hide Shape;
    InstructionOk(code, starts, x);
    var end := x + Decode(code, x).Length();
    assert forall k :: x < k < end ==> now[k] == code[k];
    if now[x] == code[x] {
      assert now[x..end] == code[x..end];
      if Decode(code, x).Exact? || Decode(code, x).CharSet? {
        assert now[x + 2..end] == code[x + 2..end];
      }
    }
  }

  lemma VariantJump(code: seq<byte>, now: seq<byte>, starts: set<nat>, x: nat)
    requires Shape(code, 0, |code|, starts, {}) && Variant(code, now, starts) && x in starts && x < |code|
    ensures |now| == |code| && (TakesNumber(now[x]) <==> TakesNumber(code[x])) && (IsJump(now[x]) <==> IsJump(code[x]))
    ensures TakesNumber(code[x]) ==>
      && x + 3 <= |code| && Target(now, x) == Target(code, x)
      && 0 <= Target(code, x) <= |code| && Target(code, x) in starts
  {
    hide Shape;
    VariantDecode(code, now, starts, x);
    InstructionOk(code, starts, x);
    OpcodeDecodes(code, x);
    OpcodeDecodes(now, x);
    if TakesNumber(code[x]) {
      JumpLeads(code, x);
      LeadsTo(code, 0, |code|, starts, {}, x, Target(code, x));
    }
  }
}
