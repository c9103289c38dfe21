/** The backtracking matcher: it walks the compiled pattern over a text, saves alternatives on a
    stack, and rewrites the closing jumps of loops in the pattern as it meets them. */
module Matcher {
  import opened Answering
  import opened Bytecode
  import opened Bytes
  import opened CodeShape
  import Ere
  import opened FreeRuns
  import opened Judgement
  import opened LoopDepth
  import opened LoopForms
  import opened Machine
  import opened MatcherState
  import opened MatcherSteps
  import opened PopDecision
  import opened Rewriting

  /** One activation of the matcher. */
  class Activation {
    const buffer: array<byte>
    const used: nat
    const text: seq<byte>
    ghost const job: Job
    var p: nat
    var d: nat
    var idle: set<byte>
    var stack: seq<FailurePoint>
    var bestSet: bool
    var matchEnd: nat

    constructor (buffer: array<byte>, used: nat, text: seq<byte>, start: nat, ghost job: Job)
      requires used <= buffer.Length && Rewritten(job.code, buffer[..used], job.starts)
      requires Shape(job.code, 0, |job.code|, job.starts, {}) && job.text == text && job.start == start <= |text|
      ensures this.buffer == buffer && this.used == used && this.text == text && this.job == job && Ok()
      ensures Running(job, Now())
      ensures Seen() == First(buffer[..used], start)
    {
      hide Shape;
      this.buffer, this.used, this.text, this.job := buffer, used, text, job;
      p, d, idle, stack, bestSet, matchEnd := 0, start, {}, [], false, 0;
      new;
      Init(job);
    }

    ghost function Now(): State
      reads this
    {
      State(p, d, idle, stack, bestSet, matchEnd)
    }

    /** What the machine is in: all but what is only there for the proof. */
    ghost function Seen(): Config
      reads this, buffer
      requires used <= buffer.Length
    {
      Config(Code(), p, d, idle, stack, bestSet, matchEnd)
    }

    ghost function Code(): seq<byte>
      reads this, buffer
      requires used <= buffer.Length
    {
      buffer[..used]
    }

    ghost predicate Ok()
      reads this, buffer
    {
      && used <= buffer.Length && |job.code| == used && Rewritten(job.code, Code(), job.starts)
      && job.text == text && job.start <= |text|
      && Shape(job.code, 0, |job.code|, job.starts, {})
    }

    /** What is known of the instruction at `p`. */
    lemma Here()
      requires Ok() && Running(job, Now()) && p < used
      ensures |job.code| == used && d <= |text| && p in job.starts
      ensures Decode(Code(), p) == Decode(job.code, p) && Decode(job.code, p) != Bad
      ensures p + Decode(job.code, p).Length() <= used && p + Decode(job.code, p).Length() in job.starts
      ensures buffer[p] == job.code[p]
           || (job.code[p] == MAYBE_POP_JUMP && (buffer[p] == JUMP || buffer[p] == POP_FAILURE_JUMP))
      ensures forall k :: p < k < p + Decode(job.code, p).Length() ==> buffer[k] == job.code[k]
      ensures OpcodeOk(job.code, p)
    {
      hide Shape, Decode, Depth, FromStart;
      RewrittenDecode(job.code, Code(), job.starts, p);
      InstructionOk(job.code, job.starts, p);
    }

    /** The instruction at `p` is within the code. */
    ghost predicate Ready()
      reads this, buffer
    {
      used <= buffer.Length && p < used && d <= |text| && Decode(Code(), p) != Bad
    }

    /** What an instruction other than a jump does. */
    twostate predicate Plain(ok: bool)
      requires old(Ready())
      reads this
    {
      var instr := old(Decode(Code(), p));
      && (ok <==> Passes(instr, text, old(d)))
      && (ok ==> p == old(p) + instr.Length() && d == old(d) + Consumed(instr))
      && (ok ==> idle == old(IdleAfter(Code(), p, idle)))
      && (!ok ==> idle == old(idle))
    }

    lemma ExactHere() returns (s: seq<byte>)
      requires Ready() && buffer[p] == EXACTN
      ensures Decode(Code(), p) == Exact(s) && |s| > 0 && p + 2 + |s| <= used && |s| == buffer[p + 1] && d <= |text|
      ensures forall k :: 0 <= k < |s| ==> buffer[p + 2 + k] == s[k]
    {
      s := Decode(Code(), p).bytes;
    }

    /** Compares the bytes of an `exactn` one by one. */
    method ExactBytes() returns (ok: bool)
      requires Ready() && buffer[p] == EXACTN
      modifies `p, `d, `idle
      ensures Plain(ok)
    {
      ghost var s := ExactHere();
      ghost var q, i := p + 2, d;
      hide Decode, Ready, Plain;
      p := p + 1;
      var mcnt: int := buffer[p];
      p := p + 1;
      while true
        invariant idle == old(idle)
        invariant 0 < mcnt <= |s| && p == q + (|s| - mcnt) && d == i + (|s| - mcnt) <= |text|
        invariant forall k :: 0 <= k < |s| - mcnt ==> text[i + k] == s[k]
        decreases mcnt
      {
        if d == |text| {
          Differs(s);
          return false;
        }
        var same := text[d] == buffer[p];
        d, p := d + 1, p + 1;
        if !same {
          Mismatch(text, i, s, |s| - mcnt);
          Differs(s);
          return false;
        }
        mcnt := mcnt - 1;
        if mcnt == 0 {
          break;
        }
      }
      assert text[i..i + |s|] == s;
      idle := {};
      ok := true;
      Agrees(s);
    }

    /** The literal is not there. */
    twostate lemma Differs(s: seq<byte>)
      requires old(Ready()) && old(Decode(Code(), p)) == Exact(s) && idle == old(idle)
      requires !(old(d) + |s| <= |text| && text[old(d)..old(d) + |s|] == s)
      ensures Plain(false)
    {
      hide Decode, Ready;
    }

    twostate lemma Agrees(s: seq<byte>)
      requires old(Ready()) && old(Decode(Code(), p)) == Exact(s) && s != [] && idle == {}
      requires old(d) + |s| <= |text| && text[old(d)..old(d) + |s|] == s
      requires p == old(p) + 2 + |s| && d == old(d) + |s|
      ensures Plain(true)
    {
      hide Decode, Ready;
    }

    method AnyByte() returns (ok: bool)
      requires Ready() && buffer[p] == ANYCHAR
      modifies `p, `d, `idle
      ensures Plain(ok)
    {
      p := p + 1;
      if d == |text| || text[d] == Ere.NEWLINE {
        return false;
      }
      idle := {};
      d := d + 1;
      ok := true;
    }

    /** Looks the character up in the bitmap. */
    method ByteInSet() returns (ok: bool)
      requires Ready() && (buffer[p] == CHARSET || buffer[p] == CHARSET_NOT)
      modifies `p, `d, `idle
      ensures Plain(ok)
    {
      ghost var bitmap := Decode(Code(), p).bitmap;
      assert |bitmap| == buffer[p + 1] && forall k :: 0 <= k < |bitmap| ==> buffer[p + 2 + k] == bitmap[k];
      assert Decode(Code(), p) == CharSet(buffer[p] == CHARSET_NOT, bitmap);
      hide Decode, Ready;
      var not := buffer[p] == CHARSET_NOT;
      p := p + 1;
      if d == |text| {
        return false;
      }
      var c := text[d];
      if c as int < buffer[p] as int * 8 && Bit(buffer[p + 1 + c / 8], c % 8) {
        not := !not;
      }
      p := p + 1 + buffer[p];
      if !not {
        return false;
      }
      idle := {};
      d := d + 1;
      ok := true;
    }

    method Anchor() returns (ok: bool)
      requires Ready() && (buffer[p] == BEGLINE || buffer[p] == ENDLINE)
      modifies `p
      ensures Plain(ok)
    {
      var op := buffer[p];
      p := p + 1;
      if op == BEGLINE {
        ok := d == 0 || text[d - 1] == Ere.NEWLINE;
      } else {
        ok := d == |text| || text[d] == Ere.NEWLINE;
      }
    }

    /** The end of a group. When the group has matched nothing since it was begun, and is the body of a loop,
        the loop is left by a failure. */
    method StopMemory() returns (ok: bool)
      requires Ok() && Running(job, Now()) && p < used && buffer[p] == STOP_MEMORY
      modifies `p, `stack
      ensures Ok() && Moves(text, old(Seen()), Seen(), ok)
    {
      hide Shape, Rewritten, Running, Failing, Decode, Forced;
      MemoryHere();
      EndOfCode(Code(), p);
      if buffer[p + 1] in idle && p + 3 < used {
        var exit := LoopToLeave();
        if exit.Point? {
          stack := stack + [exit];
          assert LeavesLoop(old(Seen()), Seen());
          return false;
        }
      }
      p := p + 3;
      ok := true;
    }

    lemma MemoryHere()
      requires Ok() && Running(job, Now()) && p < used && (buffer[p] == START_MEMORY || buffer[p] == STOP_MEMORY)
      ensures Decode(job.code, p) == Memory && p + 3 in job.starts && |job.code| == used && p + 3 <= used
      ensures Passes(Decode(job.code, p), text, d) && Consumed(Decode(job.code, p)) == 0
    {
      Here();
      hide Running, Shape, Rewritten;
      MemoryLength(job.code, p);
    }

    /** A jump back is the closing jump of a loop, and leads to the loop's fork. */
    lemma BackJumpHere(x: nat)
      requires Ok() && x in job.starts && x < used
      ensures IsJump(buffer[x]) ==> x + 3 <= used
      ensures IsJump(buffer[x]) && NumberAt(buffer[x + 1], buffer[x + 2]) < 0 ==>
        var p1 := x + 3 + NumberAt(buffer[x + 1], buffer[x + 2]);
        && job.code[x] == MAYBE_POP_JUMP && 0 <= p1 && p1 + 3 <= x
        && p1 + 3 + NumberAt(buffer[p1 + 1], buffer[p1 + 2]) == x + 3
    {
      hide Shape;
      RewrittenDecode(job.code, Code(), job.starts, x);
      InstructionOk(job.code, job.starts, x);
      OpcodeDecodes(Code(), x);
      OpcodeDecodes(job.code, x);
      if IsJump(buffer[x]) && NumberAt(buffer[x + 1], buffer[x + 2]) < 0 {
        hide Rewritten, Decode;
        LoopExit(job, x, job.start);
        var p1: nat := Target(job.code, x);
        RewrittenDecode(job.code, Code(), job.starts, p1);
        InstructionOk(job.code, job.starts, p1);
        OpcodeDecodes(job.code, p1);
        assert buffer[p1 + 1] == Code()[p1 + 1] == job.code[p1 + 1];
        assert buffer[p1 + 2] == Code()[p1 + 2] == job.code[p1 + 2];
      }
    }

    /** When the group just closed is the body of a loop: where the loop ends. Otherwise `Dummy`. */
    method LoopToLeave() returns (exit: FailurePoint)
      requires Ok() && Running(job, Now()) && p + 3 < used && buffer[p] == STOP_MEMORY
      requires Decode(job.code, p) == Memory && p + 3 in job.starts && |job.code| == used
      ensures exit.Point? ==> exit.position == d && exit.idle == idle && Forced(Code(), p, exit.place)
      ensures exit.Dummy? ==> !CanForce(Code(), p)
    {
      hide Shape, Running, Rewritten, Decode;
      var x := p + 3;
      BackJumpHere(x);
      var op := buffer[x];
      if !(op == POP_FAILURE_JUMP || op == MAYBE_POP_JUMP || op == JUMP || op == DUMMY_FAILURE_JUMP) {
        return Dummy;
      }
      var mcnt := NumberAt(buffer[x + 1], buffer[x + 2]);
      var p1 := x + 3 + mcnt;
      if mcnt >= 0 {
        return Dummy;
      }
      if !(buffer[p1] == ON_FAILURE_JUMP && buffer[p1 + 3] == START_MEMORY && buffer[p1 + 4] == buffer[p + 1]) {
        return Dummy;
      }
      exit := Point(p1 + 3 + NumberAt(buffer[p1 + 1], buffer[p1 + 2]), d, idle);
    }

    /** A jump's opcode and target, wherever the pattern has been rewritten. */
    lemma JumpHere()
      requires Ok() && Running(job, Now()) && p < used && TakesNumber(buffer[p])
      ensures |job.code| == used && p + 3 <= used && TakesNumber(job.code[p])
      ensures Target(Code(), p) == Target(job.code, p)
      ensures 0 <= Target(job.code, p) <= used && Target(job.code, p) in job.starts
      ensures if buffer[p] == JUMP || buffer[p] == POP_FAILURE_JUMP then job.code[p] == MAYBE_POP_JUMP
        else job.code[p] == buffer[p]
    {
      Here();
      hide Shape, Running, Rewritten;
      OpcodeDecodes(Code(), p);
      OpcodeDecodes(job.code, p);
      hide Decode;
      if job.code[p] == ON_FAILURE_JUMP {
        ForkPlace(job, Now());
      } else {
        JumpPlace(job, Now());
      }
    }

    method OnFailureJump()
      requires Ok() && Running(job, Now()) && p < used && buffer[p] == ON_FAILURE_JUMP
      modifies `p, `stack
      ensures Ok() && Running(job, Now())
      ensures p == old(p) + 3 <= used && 0 <= Target(Code(), old(p))
      ensures stack == old(stack) + [Point(Target(Code(), old(p)), d, idle)]
    {
      hide Shape, Running, Rewritten;
      JumpHere();
      ForkKept(job, Now());
      var mcnt := NumberAt(buffer[p + 1], buffer[p + 2]);
      p := p + 3;
      stack := stack + [Point(p + mcnt, d, idle)];
    }

    method UnconditionalJump()
      requires used <= buffer.Length && p + 3 <= used && 0 <= Target(Code(), p)
      modifies `p
      ensures p == Target(old(Code()), old(p))
    {
      var mcnt := NumberAt(buffer[p + 1], buffer[p + 2]);
      p := p + 3 + mcnt;
    }

    method DummyFailureJump()
      requires Ok() && Running(job, Now()) && p < used && buffer[p] == DUMMY_FAILURE_JUMP
      modifies `p, `stack
      ensures Ok() && Running(job, Now())
      ensures old(p) + 3 <= used && p == Target(Code(), old(p)) && stack == old(stack) + [Dummy]
    {
      hide Shape, Running, Rewritten;
      JumpHere();
      DummyJumpKept(job, Now());
      stack := stack + [Dummy];
      UnconditionalJump();
    }

    method PushDummyFailure()
      requires Ok() && Running(job, Now()) && p < used && buffer[p] == PUSH_DUMMY_FAILURE
      modifies `p, `stack
      ensures Ok() && Running(job, Now())
      ensures p == old(p) + 1 && stack == old(stack) + [Dummy]
    {
      hide Shape, Running, Rewritten;
      Here();
      DummyPushed(job, Now());
      stack := stack + [Dummy];
      Dummied();
      PlainKept(job, Now());
      p := p + 1;
    }

    lemma Dummied()
      requires Ok() && p < used && p in job.starts && buffer[p] == PUSH_DUMMY_FAILURE
      ensures |job.code| == used && job.code[p] == PUSH_DUMMY_FAILURE && Decode(job.code, p) == PushDummy
      ensures IdleAfter(job.code, p, idle) == idle && !Leaving(job.code, job.starts, p, idle)
    {
      hide Shape, Rewritten;
      Placed(job, Code(), p);
    }

    /** Throws away the last saved alternative and goes back to the loop's fork. */
    method PopFailureJump()
      requires Ok() && Running(job, Now()) && p < used && buffer[p] == POP_FAILURE_JUMP
      modifies `p, `stack
      ensures Ok() && Running(job, Now())
      ensures old(stack) != [] && stack == old(stack)[..|old(stack)| - 1]
      ensures old(p) + 3 <= used && p == Target(Code(), old(p))
    {
      hide Shape, Running, Rewritten;
      Within();
      JumpHere();
      PopsAlready();
      PopJumpKept(job, Now());
      stack := stack[..|stack| - 1];
      UnconditionalJump();
    }

    /** A jump that has been decided was decided so because it pops. */
    lemma PopsAlready()
      requires Ok() && p in job.starts && p < used && buffer[p] == POP_FAILURE_JUMP
      ensures p + 3 <= used && 0 <= Target(job.code, p) && Target(job.code, p) + 3 < used && Pops(job.code, p)
    {
      hide Shape, Rewritten, Pops, Target;
      Placed(job, Code(), p);
      ClosingPops(job.code, p);
    }

    method Jumps()
      requires Ok() && Running(job, Now()) && p < used && (buffer[p] == JUMP || buffer[p] == JUMP_PAST_ALT)
      modifies `p
      ensures Ok() && Running(job, Now())
      ensures old(p) + 3 <= used && p == Target(Code(), old(p))
    {
      hide Shape, Running, Rewritten;
      JumpHere();
      JumpKept(job, Now());
      UnconditionalJump();
    }

    /** What the decision needs to know of the loop that ends at `p`. */
    lemma LoopHere()
      requires Ok() && Running(job, Now()) && p < used && buffer[p] == MAYBE_POP_JUMP
      ensures p + 3 <= used && job.code[p] == MAYBE_POP_JUMP && Target(Code(), p) == Target(job.code, p)
      ensures 0 <= Target(Code(), p) && Target(Code(), p) + 3 <= p
      ensures p in job.starts
      ensures Readable(Target(Code(), p) + 3)
      ensures Follow(Code(), p + 3) <= used && (Follow(Code(), p + 3) < used ==> Readable(Follow(Code(), p + 3)))
    {
      hide Shape, Rewritten, Depth, FromStart;
      JumpHere();
      LoopExit(job, p, d);
      var q: nat := Target(job.code, p);
      InstructionOk(job.code, job.starts, q);
      OpcodeDecodes(job.code, q);
      FollowRewritten(job.code, Code(), job.starts, p + 3);
      FollowIsStart(job.code, job.starts, p + 3);
      hide Decode;
      StartReadable(q + 3);
      if Follow(Code(), p + 3) < used {
        StartReadable(Follow(Code(), p + 3));
      }
    }

    /** An instruction whose arguments are where they should be. */
    predicate Readable(x: nat)
      reads this, buffer
    {
      && used <= buffer.Length && x < used && Decode(buffer[..used], x) != Bad
      && (buffer[x] == CHARSET || buffer[x] == CHARSET_NOT ==> x + 1 < used && buffer[x + 1] <= 32)
    }

    lemma StartReadable(x: nat)
      requires Ok() && x in job.starts && x < used
      ensures Readable(x)
    {
      hide Shape;
      RewrittenDecode(job.code, Code(), job.starts, x);
      InstructionOk(job.code, job.starts, x);
      hide Rewritten;
      if buffer[x] == CHARSET || buffer[x] == CHARSET_NOT {
        assert buffer[x + 1] == Code()[x + 1] == job.code[x + 1];
      }
    }

    /** What a loop begins with against what follows it. */
    method PopsHere() returns (pop: bool)
      requires Ok() && Running(job, Now()) && p < used && buffer[p] == MAYBE_POP_JUMP
      ensures p + 3 <= used && 0 <= Target(Code(), p) && Target(Code(), p) + 3 < used && pop == Pops(Code(), p)
    {
      hide Shape, Running, Rewritten, Decode;
      LoopHere();
      var mcnt := NumberAt(buffer[p + 1], buffer[p + 2]);
      var p1 := p + 3 + mcnt;
      pop := Decide(buffer, used, p + 3, p1 + 3, job.starts);
    }

    /** Decides the closing jump of a loop, once and for all, and takes it. */
    method MaybePopJump()
      requires Ok() && Running(job, Now()) && p < used && buffer[p] == MAYBE_POP_JUMP
      modifies `p, `stack, buffer
      ensures Ok() && Running(job, Now())
      ensures forall k :: used <= k < buffer.Length ==> buffer[k] == old(buffer[k])
      ensures Decides(old(Seen()), Seen())
    {
      hide Shape, Running, Rewritten, Decode, Pops, Closing;
      LoopHere();
      PopJumpKept(job, Now());
      var pop := PopsHere();
      PopsRewritten(job.code, Code(), job.starts, p);
      ghost var before := Code();
      var op := if pop then POP_FAILURE_JUMP else JUMP;
      buffer[p] := op;
      RewriteKept(job.code, before, Code(), job.starts, p, op);
      if pop {
        PopFailureJump();
      } else {
        Jumps();
      }
    }

    /** Goes back to the last saved alternative that is neither a dummy nor the closing jump of a loop. */
    method Fail() returns (resumed: bool)
      requires Ok() && Failing(job, Now())
      modifies `p, `d, `idle, `stack
      ensures Ok() && if resumed then Running(job, Now()) else Failing(job, Now()) && stack == []
      ensures Resumes(old(Seen()), Seen(), resumed)
    {
      hide Shape, Running, Failing, Rewritten, Decode;
      while stack != []
        invariant Ok() && Failing(job, Now())
        invariant stack <= old(stack)
        invariant forall k :: |stack| <= k < |old(stack)| ==> Skipped(Code(), old(stack)[k])
      {
        var top := stack[|stack| - 1];
        if top.Dummy? {
          SkipKept(job, Now());
          stack := stack[..|stack| - 1];
          continue;
        }
        FailedTo(top);
        if top.place < used && buffer[top.place] in {MAYBE_POP_JUMP, POP_FAILURE_JUMP, JUMP} {
          var mcnt := NumberAt(buffer[top.place + 1], buffer[top.place + 2]);
          var p1 := top.place + 3 + mcnt;
          if buffer[p1] == ON_FAILURE_JUMP {
            SkipKept(job, Now());
            stack := stack[..|stack| - 1];
            continue;
          }
        }
        ResumeKept(job, Now());
        d, p, idle := top.position, top.place, top.idle;
        stack := stack[..|stack| - 1];
        return true;
      }
      resumed := false;
    }

    lemma FailedTo(top: FailurePoint)
      requires Ok() && Failing(job, Now()) && stack != [] && top == stack[|stack| - 1] && top.Point?
      ensures |job.code| == used && top.place <= used
      ensures top.place < used && buffer[top.place] in {MAYBE_POP_JUMP, POP_FAILURE_JUMP, JUMP} ==>
        && job.code[top.place] == MAYBE_POP_JUMP && top.place + 3 <= used
        && 0 <= Target(Code(), top.place) && Target(Code(), top.place) < used
    {
      hide Shape, FromStart, Depth;
      assert PlaceOk(job, top.place, top.position, |stack| - 1);
      EndIsStart(job.code, 0, |job.code|, job.starts, {});
      if top.place < used {
        RewrittenDecode(job.code, Code(), job.starts, top.place);
        OpcodeDecodes(job.code, top.place);
        OpcodeDecodes(Code(), top.place);
        hide Rewritten, Decode;
        InstructionOk(job.code, job.starts, top.place);
        if job.code[top.place] == MAYBE_POP_JUMP {
          LoopExit(job, top.place, top.position);
        }
      }
    }

    /** An instruction that neither jumps nor saves. */
    method PlainInstruction() returns (ok: bool)
      requires Ready() && (buffer[p] in {EXACTN, ANYCHAR, CHARSET, CHARSET_NOT, BEGLINE, ENDLINE, START_MEMORY})
      modifies `p, `d, `idle
      ensures Plain(ok)
    {
      hide Passes;
      var op := buffer[p];
      if op == EXACTN {
        ok := ExactBytes();
      } else if op == ANYCHAR {
        ok := AnyByte();
      } else if op == CHARSET || op == CHARSET_NOT {
        ok := ByteInSet();
      } else if op == BEGLINE || op == ENDLINE {
        ok := Anchor();
      } else {
        ok := StartMemory();
      }
    }

    /** The start of a group, in which nothing has been matched yet. */
    method StartMemory() returns (ok: bool)
      requires Ready() && buffer[p] == START_MEMORY
      modifies `p, `idle
      ensures Plain(ok) && ok
    {
      MemoryLength(Code(), p);
      idle := idle + {buffer[p + 1]};
      p := p + 3;
      ok := true;
    }

    /** One instruction. */
    method Step() returns (ok: bool)
      requires Ok() && Running(job, Now()) && p < used
      modifies `p, `d, `idle, `stack, buffer
      ensures Ok() && if ok then Running(job, Now()) else Failing(job, Now())
      ensures Moves(text, old(Seen()), Seen(), ok)
      ensures forall k :: used <= k < buffer.Length ==> buffer[k] == old(buffer[k])
    {
      hide Shape, Running, Failing, Rewritten, Decode, Decides, Forced;
      OpcodeHere();
      ok := true;
      var op := buffer[p];
      if op == ON_FAILURE_JUMP {
        OnFailureJump();
      } else if op == MAYBE_POP_JUMP {
        MaybePopJump();
      } else if op == POP_FAILURE_JUMP {
        PopFailureJump();
      } else if op == JUMP || op == JUMP_PAST_ALT {
        Jumps();
      } else if op == DUMMY_FAILURE_JUMP {
        DummyFailureJump();
      } else if op == PUSH_DUMMY_FAILURE {
        PushDummyFailure();
      } else if op == STOP_MEMORY {
        ok := StopMemory();
        EndKept(job, old(Seen()), Seen(), ok);
      } else {
        PlainKeptHere();
        ok := PlainInstruction();
        if !ok {
          FailingAnywhere(job, old(Now()), Now());
        }
      }
    }

    lemma PlainKeptHere()
      requires Ok() && Running(job, Now()) && p < used
      requires buffer[p] in {EXACTN, ANYCHAR, CHARSET, CHARSET_NOT, BEGLINE, ENDLINE, START_MEMORY}
      ensures Decode(Code(), p) == Decode(job.code, p) && |job.code| == used
      ensures if Passes(Decode(job.code, p), text, d) then Running(job, After(job.code, Now()))
        else Failing(job, Now())
      ensures IdleAfter(Code(), p, idle) == IdleAfter(job.code, p, idle)
    {
      hide Shape, Running, Failing, Rewritten, Decode, Passes, IdleAfter;
      Within();
      OpcodeHere();
      Placed(job, Code(), p);
      IdleAlike(job, Code(), p, idle);
      PlainKept(job, Now());
    }

    /** Which opcodes there are. */
    lemma OpcodeHere()
      requires Ok() && Running(job, Now()) && p < used
      ensures Ready() && Decode(Code(), p) == Decode(job.code, p) && |job.code| == used
      ensures buffer[p] in {EXACTN, ANYCHAR, CHARSET, CHARSET_NOT, BEGLINE, ENDLINE} || TakesNumber(buffer[p])
           || buffer[p] == START_MEMORY || buffer[p] == STOP_MEMORY || buffer[p] == PUSH_DUMMY_FAILURE
      ensures !TakesNumber(buffer[p]) ==> !Decode(job.code, p).Jump? && !Decode(job.code, p).Fork?
    {
      hide Shape, Running;
      Here();
    }

    lemma Within()
      requires Ok() && Running(job, Now())
      ensures p <= used && p in job.starts && d <= |text|
    {
      hide LoopsClosed, StartOk, Sure, Neat, Outside, LoopsOk, Complete, FromStart, Depth;
    }

    /** A match is over when there is nothing left to try, or nothing left to match. */
    lemma Over()
      requires Ok() && Running(job, Now()) && p == used
      ensures job.start <= d <= |text| && (bestSet ==> job.start <= matchEnd <= |text|)
    {
      hide Shape, Sure, Neat, Outside, LoopsOk, Complete, FromStart, Depth;
      EndAccepts(job, Now());
      AcceptedInside(job, d);
      if bestSet {
        AcceptedInside(job, matchEnd);
      }
    }

    lemma Exhausted()
      requires Ok() && Failing(job, Now())
      ensures bestSet ==> job.start <= matchEnd <= |text|
    {
      hide Shape, Sure, Neat, Outside, Complete;
      if bestSet {
        AcceptedInside(job, matchEnd);
      }
    }

    /** At the end of the pattern: over when the text is used up or no alternative is left; else the
        best match so far is kept, and going back may find a longer one. */
    method EndOfPattern() returns (over: bool)
      requires Ok() && Running(job, Now()) && p == used
      modifies `d, `bestSet, `matchEnd
      ensures Ok() && over == (old(d) == |text| || stack == [])
      ensures !over ==> Failing(job, Now()) && Seen() == Kept(old(Seen()))
      ensures over ==> d == (if old(d) == |text| then old(d) else Kept(old(Seen())).matchEnd)
      ensures over ==> job.start <= d <= |text|
    {
      hide Shape, Running, Failing, Rewritten, Decode;
      BestKept(job, Now());
      if d != |text| {
        var bestMatch := d > matchEnd;
        if stack != [] {
          if !bestSet || bestMatch {
            bestSet := true;
            matchEnd := d;
          }
          return false;
        }
        Over();
        if bestSet && !bestMatch {
          d := matchEnd;
        }
        return true;
      }
      Over();
      over := true;
    }

    /** Runs until the match succeeds, the alternatives are exhausted, or `fuel` instructions have run:
        one of the runs of the machine. */
    method Run(start: nat, fuel: nat) returns (r: Outcome)
      requires Ok() && Running(job, Now()) && start == job.start
      modifies this, buffer
      ensures Ok()
      ensures forall k :: used <= k < buffer.Length ==> buffer[k] == old(buffer[k])
      ensures Runs(text, start, old(Seen()), fuel, r)
      ensures Right(job, r)
      ensures Neat(job.code, job.starts) && fuel >= old(Left(job, Seen())) ==> r != OutOfFuel
    {
      hide Shape, Running, Failing, Rewritten, Decode, Moves, Resumes, Runs, Leading, BackLeading, Left, Right, Neat;
      ghost var first := Seen();
      LeadingItself(text, start, first, fuel);
      forall r | Runs(text, start, first, fuel, r)
        ensures Right(job, r)
      {
        RunsRight(job, first, fuel, r);
      }
      for i := 0 to fuel
        invariant Ok() && Running(job, Now())
        invariant forall k :: used <= k < buffer.Length ==> buffer[k] == old(buffer[k])
        invariant Leading(text, start, first, fuel, Seen(), fuel - i)
        invariant Neat(job.code, job.starts) ==> i + Left(job, Seen()) <= Left(job, first)
      {
        var ok;
        ghost var now := Seen();
        Within();
        HereEntered();
        if p == used {
          var over := EndOfPattern();
          if over {
            r := Matched(d - start);
            Answered(text, start, first, fuel, now, fuel - i, r);
            return;
          }
          Ended(text, start, first, fuel, now, fuel - i);
          ok := false;
        } else {
          ok := Step();
          Stepped(text, start, first, fuel, now, fuel - i, Seen(), ok);
        }
        ghost var failed := Seen();
        if !ok {
          var resumed := Fail();
          if !resumed {
            Exhausted();
            ghost var given := Seen();
            r := NoMatch;
            if bestSet {
              d := matchEnd;
              r := Matched(d - start);
            }
            Refused(text, start, first, fuel, failed, fuel - i, r, given);
            return;
          }
          Resumed(text, start, first, fuel, failed, fuel - i, Seen());
        }
        if Neat(job.code, job.starts) {
          GettingLighter(now, failed, now.p < used, ok);
        }
      }
      Spent(text, start, first, fuel, Seen());
      NeverNothing(job, Seen());
      r := OutOfFuel;
    }

    lemma HereEntered()
      requires Ok() && Running(job, Now())
      ensures Neat(job.code, job.starts) ==> Entered(job, p, idle)
    {
      hide Shape, Sure, Neat, Outside, Complete, FromStart, Depth, Guarded, TopRight, Target;
      if Neat(job.code, job.starts) && Closes(job.code, job.starts, p) && GroupAt(job.code, p) {
        NotBoth(job.code, p);
        assert LoopOk(job, Now(), p);
      }
    }

    /** Less is left after each instruction, be it carried out or a reason to go back. */
    lemma GettingLighter(now: Config, failed: Config, moved: bool, ok: bool)
      requires Ok() && Neat(job.code, job.starts)
      requires Rewritten(job.code, now.code, job.starts) && now.p in job.starts && now.p <= |now.code|
      requires now.d <= |text| && Entered(job, now.p, now.idle)
      requires if moved then now.p < |now.code| && Moves(job.text, now, failed, ok) else !ok && failed == Kept(now)
      requires if ok then Seen() == failed else Resumes(failed, Seen(), true)
      ensures Left(job, Seen()) < Left(job, now)
    {
      hide Shape, Moves, Resumes, Rewritten, Neat;
      NeverNothing(job, now);
      SameLength(job, now.code);
      VariantOf(job, now.code);
      if moved {
        MovesLighter(job, now, failed, ok);
      }
      if !ok {
        ResumesLighter(job, failed, Seen());
      }
    }
  }

  lemma EndOfCode(code: seq<byte>, p: nat)
    ensures p + 3 >= |code| ==> !CanForce(code, p)
  {
  }

  lemma Mismatch(text: seq<byte>, i: nat, s: seq<byte>, k: nat)
    requires k < |s| && i + k < |text| && text[i + k] != s[k]
    ensures !(i + |s| <= |text| && text[i..i + |s|] == s)
  {
    assert i + |s| <= |text| ==> text[i..i + |s|][k] == text[i + k];
  }
}
