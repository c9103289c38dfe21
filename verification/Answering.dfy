/** What the machine can answer: only accepted texts, and the same whatever has been rewritten before. */
module Answering {
  import opened Bytecode
  import opened Bytes
  import opened CodeShape
  import opened FreeRuns
  import opened Judgement
  import opened LoopDepth
  import opened LoopForms
  import opened Machine
  import opened MatcherState
  import opened MatcherSteps
  import opened Rewriting

  function StateOf(c: Config): State {
    State(c.p, c.d, c.idle, c.stack, c.bestSet, c.matchEnd)
  }

  // ----- every move keeps the invariant -----

  /** The instruction at a place of the code, rewritten or not. */
  lemma Placed(job: Job, now: seq<byte>, p: nat)
    requires Shape(job.code, 0, |job.code|, job.starts, {}) && Rewritten(job.code, now, job.starts)
    requires p in job.starts && p < |now|
    ensures Decode(now, p) == Decode(job.code, p) && Decode(now, p) != Bad && |now| == |job.code|
    ensures if now[p] == JUMP || now[p] == POP_FAILURE_JUMP then job.code[p] == MAYBE_POP_JUMP
      else now[p] == job.code[p]
    ensures job.code[p] == MAYBE_POP_JUMP ==> now[p] == MAYBE_POP_JUMP || now[p] == Closing(job.code, p)
    ensures TakesNumber(now[p]) ==> TakesNumber(job.code[p]) && p + 3 <= |now| && Target(now, p) == Target(job.code, p)
    ensures forall k :: p < k < p + Decode(now, p).Length() ==> now[k] == job.code[k]
    ensures OpcodeOk(job.code, p)
  {
    hide Shape, Closing;
    RewrittenDecode(job.code, now, job.starts, p);
    InstructionOk(job.code, job.starts, p);
    OpcodeDecodes(now, p);
    OpcodeDecodes(job.code, p);
    hide Decode;
    assert job.code[p] != JUMP && job.code[p] != POP_FAILURE_JUMP;
  }

  lemma VariantOf(job: Job, now: seq<byte>)
    requires Rewritten(job.code, now, job.starts)
    ensures |now| == |job.code| && Variant(job.code, now, job.starts)
  {
    hide Closing;
  }

  /** A loop is left by force exactly from the end of the group that is its body, and past the loop. */
  lemma ForcedExactly(job: Job, now: seq<byte>, p: nat, place: int)
    requires Shape(job.code, 0, |job.code|, job.starts, {}) && Rewritten(job.code, now, job.starts)
    requires p in job.starts && p < |now| && now[p] == STOP_MEMORY
    ensures Forced(now, p, place) <==> Closes(job.code, job.starts, p + 3) && GroupAt(job.code, p + 3) && place == p + 6
    ensures |now| == |job.code| && job.code[p] == STOP_MEMORY && Decode(job.code, p) == Memory
    ensures p + 3 <= |now| && now[p + 1] == job.code[p + 1]
  {
    hide Shape, Rewritten, Closing, Target, Forced, Decode, GroupAt;
    VariantOf(job, now);
    Placed(job, now, p);
    MemoryLength(now, p);
    if Forced(now, p, place) {
      ForcedOut(job.code, now, job.starts, p, place);
    }
    if Closes(job.code, job.starts, p + 3) && GroupAt(job.code, p + 3) {
      ForcedIn(job, now, p);
    }
  }

  lemma ForcedIn(job: Job, now: seq<byte>, p: nat)
    requires Shape(job.code, 0, |job.code|, job.starts, {}) && Rewritten(job.code, now, job.starts) && p in job.starts
    requires p < |now| && now[p] == STOP_MEMORY && Closes(job.code, job.starts, p + 3) && GroupAt(job.code, p + 3)
    requires p + 1 < |now| && |now| == |job.code| && now[p + 1] == job.code[p + 1]
    ensures Forced(now, p, p + 6)
  {
    hide Shape, Rewritten, Closing, Target;
    var t := p + 3;
    LoopPlaces(job.code, job.starts, t);
    Placed(job, now, t);
    var q: nat := Target(job.code, t);
    Placed(job, now, q);
    Placed(job, now, q + 3);
    MemoryLength(job.code, q + 3);
    JumpOpcode(job, now, t);
  }

  lemma JumpOpcode(job: Job, now: seq<byte>, t: nat)
    requires Shape(job.code, 0, |job.code|, job.starts, {}) && Rewritten(job.code, now, job.starts)
    requires Closes(job.code, job.starts, t) && |now| == |job.code|
    ensures t + 3 <= |now| && now[t] in {POP_FAILURE_JUMP, MAYBE_POP_JUMP, JUMP}
    ensures Target(now, t) == Target(job.code, t)
  {
    hide Shape, Rewritten, Closing;
    Placed(job, now, t);
  }

  /** Carried out or not, an instruction keeps what the matcher relies on. */
  lemma MovesKept(job: Job, c: Config, c': Config, ok: bool)
    requires Rewritten(job.code, c.code, job.starts) && Running(job, StateOf(c)) && c.p < |c.code|
    requires Moves(job.text, c, c', ok)
    ensures Rewritten(job.code, c'.code, job.starts)
    ensures if ok then Running(job, StateOf(c')) else Failing(job, StateOf(c'))
  {
    hide Shape, Rewritten, Running, Failing, Decode, Target, Closing, Forced;
    var s := StateOf(c);
    RunningPlace(job, s);
    Placed(job, c.code, c.p);
    var op := c.code[c.p];
    PlainOpcode(job, c.code, c.p);
    if op == STOP_MEMORY {
      EndKept(job, c, c', ok);
    } else if op == ON_FAILURE_JUMP {
      ForkKept(job, s);
    } else if op == PUSH_DUMMY_FAILURE {
      DummyPushed(job, s);
      PlainKept(job, s.(stack := s.stack + [Dummy]));
      IdleAlike(job, c.code, c.p, c.idle);
    } else if op == DUMMY_FAILURE_JUMP {
      DummyJumpKept(job, s);
    } else if op == JUMP || op == JUMP_PAST_ALT {
      JumpKept(job, s);
    } else if op == POP_FAILURE_JUMP {
      ClosingPops(job.code, c.p);
      PopJumpKept(job, s);
    } else if op == MAYBE_POP_JUMP {
      DecidesKept(job, c, c');
    } else {
      PlainKept(job, s);
      IdleAlike(job, c.code, c.p, c.idle);
      if !ok {
        FailingAnywhere(job, s, StateOf(c'));
      }
    }
  }

  /** The groups idle after an instruction that neither jumps nor ends a group. */
  lemma IdleAlike(job: Job, now: seq<byte>, p: nat, idle: set<byte>)
    requires Shape(job.code, 0, |job.code|, job.starts, {}) && Rewritten(job.code, now, job.starts)
    requires p in job.starts && p < |now| && !TakesNumber(now[p])
    ensures |now| == |job.code| && IdleAfter(now, p, idle) == IdleAfter(job.code, p, idle)
    ensures now[p] == PUSH_DUMMY_FAILURE ==> IdleAfter(now, p, idle) == idle
    ensures now[p] != STOP_MEMORY ==> !Leaving(job.code, job.starts, p, idle)
  {
    hide Shape, Rewritten, Closing, Target;
    Placed(job, now, p);
    if now[p] == START_MEMORY {
      MemoryLength(now, p);
    }
  }

  /** The end of a group. */
  lemma EndKept(job: Job, c: Config, c': Config, ok: bool)
    requires Rewritten(job.code, c.code, job.starts) && Running(job, StateOf(c)) && c.p < |c.code|
    requires c.code[c.p] == STOP_MEMORY && Moves(job.text, c, c', ok)
    ensures c'.code == c.code && if ok then Running(job, StateOf(c')) else Failing(job, StateOf(c'))
  {
    hide Shape, Rewritten, Running, Failing, Decode, Target, Closing, Forced, GroupAt;
    var s := StateOf(c);
    RunningPlace(job, s);
    ForcedExactly(job, c.code, c.p, c.p + 6);
    if ok {
      EndStays(job, c.code, c.p, c.idle);
      PlainKept(job, s);
    } else {
      var place: nat :| Forced(c.code, c.p, place) && c' == c.(stack := c.stack + [Point(place, c.d, c.idle)]);
      ForcedExactly(job, c.code, c.p, place);
      ForcedExitKept(job, s);
    }
  }

  lemma EndStays(job: Job, now: seq<byte>, p: nat, idle: set<byte>)
    requires p + 3 <= |now| && |now| == |job.code| && now[p + 1] == job.code[p + 1]
    requires job.code[p] == STOP_MEMORY && Decode(job.code, p) == Memory
    requires Forced(now, p, p + 6) <==> Closes(job.code, job.starts, p + 3) && GroupAt(job.code, p + 3)
    requires !(now[p + 1] in idle && CanForce(now, p))
    ensures !Leaving(job.code, job.starts, p, idle) && IdleAfter(job.code, p, idle) == idle
  {
    hide Target, Forced;
  }

  lemma DecidesKept(job: Job, c: Config, c': Config)
    requires Rewritten(job.code, c.code, job.starts) && Running(job, StateOf(c)) && c.p < |c.code|
    requires c.code[c.p] == MAYBE_POP_JUMP && Decides(c, c')
    ensures Rewritten(job.code, c'.code, job.starts) && Running(job, StateOf(c'))
  {
    hide Shape, Running, Failing, Decode, Closing, Pops;
    var s := StateOf(c);
    RunningPlace(job, s);
    Placed(job, c.code, c.p);
    PopsRewritten(job.code, c.code, job.starts, c.p);
    hide Rewritten;
    if Pops(c.code, c.p) {
      ClosingPops(job.code, c.p);
      PopJumpKept(job, s);
      RewriteKept(job.code, c.code, c'.code, job.starts, c.p, POP_FAILURE_JUMP);
    } else {
      JumpKept(job, s);
      RewriteKept(job.code, c.code, c'.code, job.starts, c.p, JUMP);
    }
  }

  lemma RunningPlace(job: Job, s: State)
    requires Running(job, s)
    ensures Shape(job.code, 0, |job.code|, job.starts, {}) && s.p in job.starts && s.p <= |job.code|
    ensures job.start <= |job.text| && s.d <= |job.text|
  {
    hide FromStart, Depth, StartOk, LoopsClosed;
  }

  /** Opcodes without a number decode to instructions that do not jump. */
  lemma PlainOpcode(job: Job, now: seq<byte>, p: nat)
    requires p < |now| && Decode(now, p) != Bad
    ensures !TakesNumber(now[p]) ==> !Decode(now, p).Jump? && !Decode(now, p).Fork?
    ensures now[p] == STOP_MEMORY ==> Decode(now, p) == Memory
    ensures now[p] == PUSH_DUMMY_FAILURE ==> Decode(now, p) == PushDummy
  {
  }

  /** Failure points on the stack are places of the code. */
  lemma FailingPlace(job: Job, s: State, k: nat)
    requires Failing(job, s) && k < |s.stack| && s.stack[k].Point?
    ensures Shape(job.code, 0, |job.code|, job.starts, {}) && s.stack[k].place in job.starts
    ensures s.stack[k].place <= |job.code|
  {
    hide FromStart, Depth, StartOk, LoopsClosed;
    assert PlaceOk(job, s.stack[k].place, s.stack[k].position, k);
  }

  /** What is passed over is a dummy or a closing jump. */
  lemma SkippedKept(job: Job, now: seq<byte>, f: FailurePoint)
    requires Shape(job.code, 0, |job.code|, job.starts, {}) && Rewritten(job.code, now, job.starts) && Skipped(now, f)
    requires f.Point? ==> f.place in job.starts
    ensures f.Point? ==> f.place < |job.code| && job.code[f.place] == MAYBE_POP_JUMP
  {
    hide Shape, Rewritten, Closing;
    if f.Point? {
      Placed(job, now, f.place);
    }
  }

  /** Going back keeps it too. */
  lemma {:induction false} ResumesKept(job: Job, c: Config, c': Config, resumed: bool)
    requires Rewritten(job.code, c.code, job.starts) && Failing(job, StateOf(c)) && Resumes(c, c', resumed)
    ensures c'.code == c.code
    ensures if resumed then Running(job, StateOf(c')) else Failing(job, StateOf(c')) && c'.stack == []
    decreases |c.stack|
  {
    hide Rewritten, Running, Failing, Skipped;
    var s := StateOf(c);
    if c.stack == [] {
      FailingAnywhere(job, s, StateOf(c'));
    } else if resumed && |c'.stack| == |c.stack| - 1 {
      ResumeKept(job, s);
    } else {
      var top, rest := c.stack[|c.stack| - 1], c.stack[..|c.stack| - 1];
      if top.Point? {
        FailingPlace(job, s, |c.stack| - 1);
      }
      FailingShape(job, s);
      SkippedKept(job, c.code, top);
      SkipKept(job, s);
      ResumesKept(job, c.(stack := rest), c', resumed);
    }
  }

  lemma FailingShape(job: Job, s: State)
    requires Failing(job, s)
    ensures Shape(job.code, 0, |job.code|, job.starts, {}) && job.start <= |job.text|
  {
    hide FromStart, Depth, StartOk, LoopsClosed;
  }

  // ----- answers -----

  /** An answer of a match is an accepted text; if nothing is thrown away that matters it is the longest, and no
      match means none. */
  ghost predicate Right(job: Job, r: Outcome) {
    && (r.Matched? ==>
        job.start + r.length <= |job.text| && Accepts(job.code, job.text, job.start, job.start + r.length))
    && (Sure(job) && r.Matched? ==>
          forall j: nat :: Accepts(job.code, job.text, job.start, j) ==> j <= job.start + r.length)
    && (Sure(job) && r == NoMatch ==> forall j: nat :: !Accepts(job.code, job.text, job.start, j))
  }

  /** Whatever the machine answers is right. */
  lemma {:induction false} RunsRight(job: Job, c: Config, n: nat, r: Outcome)
    requires Rewritten(job.code, c.code, job.starts) && Running(job, StateOf(c))
    requires Runs(job.text, job.start, c, n, r)
    ensures Right(job, r)
    decreases n, 1
  {
    hide Rewritten, Running, Failing, Moves, Backs, Right;
    var s := StateOf(c);
    RunningPlace(job, s);
    SameLength(job, c.code);
    if n == 0 {
      Undecided(job);
    } else if c.p >= |c.code| {
      if c.d == |job.text| || c.stack == [] {
        EndRight(job, s, r);
      } else {
        BestKept(job, s);
        BacksRight(job, Kept(c), n, r);
      }
    } else {
      var c', ok :| Moves(job.text, c, c', ok) &&
        if ok then Runs(job.text, job.start, c', n - 1, r) else Backs(job.text, job.start, c', n, r);
      MovesKept(job, c, c', ok);
      if ok {
        RunsRight(job, c', n - 1, r);
      } else {
        BacksRight(job, c', n, r);
      }
    }
  }

  lemma {:induction false} BacksRight(job: Job, c: Config, n: nat, r: Outcome)
    requires n > 0 && Rewritten(job.code, c.code, job.starts) && Failing(job, StateOf(c))
    requires Backs(job.text, job.start, c, n, r)
    ensures Right(job, r)
    decreases n, 0
  {
    hide Rewritten, Running, Failing, Resumes, Runs, Right;
    var c', resumed :| Resumes(c, c', resumed) &&
      if resumed then Runs(job.text, job.start, c', n - 1, r)
      else if c.bestSet then Answers(job.start, c.matchEnd, r)
      else r == NoMatch;
    ResumesKept(job, c, c', resumed);
    if resumed {
      RunsRight(job, c', n - 1, r);
    } else {
      ResumesBest(c, c', resumed);
      NoneLeftRight(job, StateOf(c'), r);
    }
  }

  lemma SameLength(job: Job, now: seq<byte>)
    requires Rewritten(job.code, now, job.starts)
    ensures |now| == |job.code|
  {
    hide Closing;
  }

  lemma Undecided(job: Job)
    ensures Right(job, OutOfFuel)
  {
  }

  lemma ResumesBest(c: Config, c': Config, resumed: bool)
    requires Resumes(c, c', resumed)
    ensures c'.bestSet == c.bestSet && c'.matchEnd == c.matchEnd
  {
    hide Skipped;
  }

  /** The match is over at the end of the pattern. */
  lemma EndRight(job: Job, s: State, r: Outcome)
    requires Running(job, s) && s.p == |job.code|
    requires if s.d == |job.text| then Answers(job.start, s.d, r)
      else s.stack == [] && Answers(job.start, if !s.bestSet || s.d > s.matchEnd then s.d else s.matchEnd, r)
    ensures Right(job, r)
  {
    hide Shape, FromStart, Depth, Accepts, Sure, Neat, Outside, LoopsOk, Complete;
    EndAccepts(job, s);
    if Sure(job) {
      EndLongest(job, s);
      forall j: nat | Accepts(job.code, job.text, job.start, j)
        ensures j <= |job.text|
      {
        AcceptedInside(job, j);
      }
    }
  }

  /** Nothing is left to go back to. */
  lemma NoneLeftRight(job: Job, s: State, r: Outcome)
    requires Failing(job, s) && s.stack == [] && if s.bestSet then Answers(job.start, s.matchEnd, r) else r == NoMatch
    ensures Right(job, r)
  {
    hide Shape, FromStart, Depth, Accepts, Sure, Neat, Outside, Complete;
    if Sure(job) {
      NoneLonger(job, s);
    }
  }

  // ----- what has been rewritten before does not matter -----

  lemma SkippedAlike(job: Job, now: seq<byte>, now': seq<byte>, f: FailurePoint)
    requires Shape(job.code, 0, |job.code|, job.starts, {})
    requires Rewritten(job.code, now, job.starts) && Rewritten(job.code, now', job.starts)
    requires f.Point? ==> f.place in job.starts && f.place <= |job.code|
    ensures Skipped(now, f) ==> Skipped(now', f)
  {
    hide Shape, Rewritten, Closing, Decode, Target;
    SameLength(job, now);
    SameLength(job, now');
    if f.Point? && Skipped(now, f) {
      Placed(job, now, f.place);
      Placed(job, now', f.place);
      LoopExit(job, f.place, 0);
      Placed(job, now', Target(job.code, f.place));
    }
  }

  lemma ResumesAlike(job: Job, c: Config, c': Config, resumed: bool, now: seq<byte>)
    requires Rewritten(job.code, c.code, job.starts) && Rewritten(job.code, now, job.starts)
    requires Failing(job, StateOf(c)) && Resumes(c, c', resumed)
    ensures Resumes(c.(code := now), c'.(code := now), resumed)
  {
    hide Rewritten, Failing, Skipped;
    FailingShape(job, StateOf(c));
    forall k | 0 <= k < |c.stack|
      ensures Skipped(c.code, c.stack[k]) <==> Skipped(now, c.stack[k])
    {
      if c.stack[k].Point? {
        FailingPlace(job, StateOf(c), k);
      }
      SkippedAlike(job, c.code, now, c.stack[k]);
      SkippedAlike(job, now, c.code, c.stack[k]);
    }
  }

  /** What one version of the code allows, another does. */
  lemma MovesAlike(job: Job, c: Config, c': Config, ok: bool, now: seq<byte>) returns (now': seq<byte>)
    requires Rewritten(job.code, c.code, job.starts) && Rewritten(job.code, now, job.starts)
    requires Running(job, StateOf(c)) && c.p < |c.code| && Moves(job.text, c, c', ok)
    ensures |now| == |c.code| && Moves(job.text, c.(code := now), c'.(code := now'), ok)
    ensures Rewritten(job.code, now', job.starts)
  {
    hide Shape, Rewritten, Running, Decode, Target, Closing, Forced, Pops, Passes;
    RunningPlace(job, StateOf(c));
    SameLength(job, c.code);
    SameLength(job, now);
    Placed(job, c.code, c.p);
    Placed(job, now, c.p);
    now' := now;
    if job.code[c.p] == MAYBE_POP_JUMP {
      PopsRewritten(job.code, c.code, job.starts, c.p);
      PopsRewritten(job.code, now, job.starts, c.p);
      if now[c.p] == MAYBE_POP_JUMP {
        now' := now[c.p := Closing(job.code, c.p)];
        RewriteKept(job.code, now, now', job.starts, c.p, Closing(job.code, c.p));
      }
    } else if c.code[c.p] == STOP_MEMORY {
      EndAlike(job, c, c', ok, now);
    } else if !TakesNumber(c.code[c.p]) {
      IdleAlike(job, c.code, c.p, c.idle);
      IdleAlike(job, now, c.p, c.idle);
    }
  }

  lemma EndAlike(job: Job, c: Config, c': Config, ok: bool, now: seq<byte>)
    requires Shape(job.code, 0, |job.code|, job.starts, {}) && c.p in job.starts && c.p < |c.code|
    requires Rewritten(job.code, c.code, job.starts) && Rewritten(job.code, now, job.starts) && |now| == |c.code|
    requires c.code[c.p] == STOP_MEMORY && now[c.p] == STOP_MEMORY && Moves(job.text, c, c', ok)
    ensures Moves(job.text, c.(code := now), c'.(code := now), ok)
  {
    hide Shape, Rewritten, Target, Closing, Forced, GroupAt, Decode;
    ForcedExactly(job, c.code, c.p, c.p + 6);
    ForcedExactly(job, now, c.p, c.p + 6);
    forall place: nat
      ensures Forced(c.code, c.p, place) <==> Forced(now, c.p, place)
    {
      ForcedExactly(job, c.code, c.p, place);
      ForcedExactly(job, now, c.p, place);
    }
    if !ok {
      var place: nat :| Forced(c.code, c.p, place) && c' == c.(stack := c.stack + [Point(place, c.d, c.idle)]);
      assert c'.(code := now) == c.(code := now).(stack := c.stack + [Point(place, c.d, c.idle)]);
    }
  }

  /** So the machine can answer the same from every version of the code. */
  lemma {:induction false} RunsAlike(job: Job, c: Config, n: nat, r: Outcome, now: seq<byte>)
    requires Rewritten(job.code, c.code, job.starts) && Rewritten(job.code, now, job.starts)
    requires Running(job, StateOf(c)) && Runs(job.text, job.start, c, n, r)
    ensures Runs(job.text, job.start, c.(code := now), n, r)
    decreases n, 1
  {
    hide Rewritten, Running, Failing, Moves, Backs;
    var s := StateOf(c);
    SameLength(job, c.code);
    SameLength(job, now);
    RunningPlace(job, s);
    if n > 0 && c.p >= |c.code| {
      if c.d != |job.text| && c.stack != [] {
        BestKept(job, s);
        BacksAlike(job, Kept(c), n, r, now);
        assert Kept(c.(code := now)) == Kept(c).(code := now);
      }
    } else if n > 0 {
      var c', ok :| Moves(job.text, c, c', ok) &&
        if ok then Runs(job.text, job.start, c', n - 1, r) else Backs(job.text, job.start, c', n, r);
      MovesKept(job, c, c', ok);
      var now' := MovesAlike(job, c, c', ok, now);
      if ok {
        RunsAlike(job, c', n - 1, r, now');
      } else {
        BacksAlike(job, c', n, r, now');
      }
    }
  }

  lemma {:induction false} BacksAlike(job: Job, c: Config, n: nat, r: Outcome, now: seq<byte>)
    requires n > 0 && Rewritten(job.code, c.code, job.starts) && Rewritten(job.code, now, job.starts)
    requires Failing(job, StateOf(c)) && Backs(job.text, job.start, c, n, r)
    ensures Backs(job.text, job.start, c.(code := now), n, r)
    decreases n, 0
  {
    hide Rewritten, Running, Failing, Resumes, Runs;
    var c', resumed :| Resumes(c, c', resumed) &&
      if resumed then Runs(job.text, job.start, c', n - 1, r)
      else if c.bestSet then Answers(job.start, c.matchEnd, r)
      else r == NoMatch;
    ResumesAlike(job, c, c', resumed, now);
    if resumed {
      ResumesKept(job, c, c', resumed);
      RunsAlike(job, c', n - 1, r, now);
    }
  }

  // ----- more fuel, and no choice -----

  /** An answer given is given again with more fuel. */
  lemma {:induction false} RunsLonger(text: seq<byte>, start: nat, c: Config, n: nat, m: nat, r: Outcome)
    requires n <= m && r != OutOfFuel && Runs(text, start, c, n, r)
    ensures Runs(text, start, c, m, r)
    decreases n, 1
  {
    hide Moves, Backs;
    if c.p >= |c.code| {
      if c.d != |text| && c.stack != [] {
        BacksLonger(text, start, Kept(c), n, m, r);
      }
    } else {
      var c', ok :| Moves(text, c, c', ok) &&
        if ok then Runs(text, start, c', n - 1, r) else Backs(text, start, c', n, r);
      if ok {
        RunsLonger(text, start, c', n - 1, m - 1, r);
      } else {
        BacksLonger(text, start, c', n, m, r);
      }
    }
  }

  lemma {:induction false} BacksLonger(text: seq<byte>, start: nat, c: Config, n: nat, m: nat, r: Outcome)
    requires 0 < n <= m && r != OutOfFuel && Backs(text, start, c, n, r)
    ensures Backs(text, start, c, m, r)
    decreases n, 0
  {
    hide Resumes, Runs;
    var c', resumed :| Resumes(c, c', resumed) &&
      if resumed then Runs(text, start, c', n - 1, r)
      else if c.bestSet then Answers(start, c.matchEnd, r)
      else r == NoMatch;
    if resumed {
      RunsLonger(text, start, c', n - 1, m - 1, r);
    }
  }

  /** The same but for the place and the position, which going back forgets. */
  predicate SameBut(c: Config, c': Config) {
    c' == c.(p := c'.p, d := c'.d, idle := c'.idle)
  }

  lemma OneMove(job: Job, c: Config, c': Config, ok: bool, c'': Config, ok': bool)
    requires Rewritten(job.code, c.code, job.starts) && Running(job, StateOf(c))
    requires c.p < |c.code| && Moves(job.text, c, c', ok) && Moves(job.text, c, c'', ok')
    ensures ok == ok' && (ok ==> c' == c'') && SameBut(c', c'')
  {
    hide Shape, Rewritten, Running, Decode, Target, Closing, Forced, Pops, Passes;
    RunningPlace(job, StateOf(c));
    Placed(job, c.code, c.p);
    SameLength(job, c.code);
    if c.code[c.p] == STOP_MEMORY {
      OneEnd(job, c, c', ok, c'', ok');
    }
  }

  lemma OneEnd(job: Job, c: Config, c': Config, ok: bool, c'': Config, ok': bool)
    requires Shape(job.code, 0, |job.code|, job.starts, {}) && Rewritten(job.code, c.code, job.starts)
    requires c.p in job.starts && c.p < |c.code| && c.code[c.p] == STOP_MEMORY
    requires Moves(job.text, c, c', ok) && Moves(job.text, c, c'', ok')
    ensures ok == ok' && c' == c''
  {
    hide Shape, Rewritten, Target, Closing, Forced, GroupAt, Decode;
    forall place: nat
      ensures Forced(c.code, c.p, place) ==> place == c.p + 6
    {
      ForcedExactly(job, c.code, c.p, place);
    }
  }

  lemma OneResumption(c: Config, c1: Config, resumed: bool, c': Config, c1': Config, resumed': bool)
    requires SameBut(c, c') && Resumes(c, c1, resumed) && Resumes(c', c1', resumed')
    ensures resumed == resumed' && (resumed ==> c1 == c1')
  {
    hide Skipped;
  }

  /** The machine has no choice. */
  lemma {:induction false} OneAnswer(job: Job, c: Config, n: nat, r: Outcome, r': Outcome)
    requires Rewritten(job.code, c.code, job.starts) && Running(job, StateOf(c))
    requires Runs(job.text, job.start, c, n, r) && Runs(job.text, job.start, c, n, r')
    ensures r == r'
    decreases n, 1
  {
    hide Rewritten, Running, Failing, Moves, Backs;
    var s := StateOf(c);
    SameLength(job, c.code);
    RunningPlace(job, s);
    if n > 0 && c.p >= |c.code| {
      if c.d != |job.text| && c.stack != [] {
        BestKept(job, s);
        OneAnswerBack(job, Kept(c), Kept(c), n, r, r');
      }
    } else if n > 0 {
      var c', ok :| Moves(job.text, c, c', ok) &&
        if ok then Runs(job.text, job.start, c', n - 1, r) else Backs(job.text, job.start, c', n, r);
      var c'', ok' :| Moves(job.text, c, c'', ok') &&
        if ok' then Runs(job.text, job.start, c'', n - 1, r') else Backs(job.text, job.start, c'', n, r');
      OneMove(job, c, c', ok, c'', ok');
      MovesKept(job, c, c', ok);
      if ok {
        OneAnswer(job, c', n - 1, r, r');
      } else {
        OneAnswerBack(job, c', c'', n, r, r');
      }
    }
  }

  lemma {:induction false} OneAnswerBack(job: Job, c: Config, c': Config, n: nat, r: Outcome, r': Outcome)
    requires n > 0 && Rewritten(job.code, c.code, job.starts) && Failing(job, StateOf(c))
    requires SameBut(c, c') && Backs(job.text, job.start, c, n, r) && Backs(job.text, job.start, c', n, r')
    ensures r == r'
    decreases n, 0
  {
    hide Rewritten, Running, Failing, Resumes, Runs;
    var c1, resumed :| Resumes(c, c1, resumed) &&
      if resumed then Runs(job.text, job.start, c1, n - 1, r)
      else if c.bestSet then Answers(job.start, c.matchEnd, r)
      else r == NoMatch;
    var c1', resumed' :| Resumes(c', c1', resumed') &&
      if resumed' then Runs(job.text, job.start, c1', n - 1, r')
      else if c'.bestSet then Answers(job.start, c'.matchEnd, r')
      else r' == NoMatch;
    OneResumption(c, c1, resumed, c', c1', resumed');
    if resumed {
      ResumesKept(job, c, c1, resumed);
      OneAnswer(job, c1, n - 1, r, r');
    }
  }

  /** So there is but one answer to a match, whatever the fuel. */
  lemma OnlyAnswer(job: Job, n: nat, r: Outcome, n': nat, r': Outcome)
    requires Shape(job.code, 0, |job.code|, job.starts, {}) && job.start <= |job.text|
    requires Runs(job.text, job.start, First(job.code, job.start), n, r) && r != OutOfFuel
    requires Runs(job.text, job.start, First(job.code, job.start), n', r') && r' != OutOfFuel
    ensures r == r'
  {
    hide Shape, Running, Runs, Rewritten;
    Init(job);
    Unchanged(job.code, job.starts);
    var first, most := First(job.code, job.start), if n > n' then n else n';
    RunsLonger(job.text, job.start, first, n, most, r);
    RunsLonger(job.text, job.start, first, n', most, r');
    OneAnswer(job, first, most, r, r');
  }

  lemma Unchanged(code: seq<byte>, starts: set<nat>)
    ensures Rewritten(code, code, starts)
  {
    hide Closing;
  }
}
