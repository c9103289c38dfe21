/** What every step of a backtracking match keeps: that places are reached from the start, and that nothing is
    overlooked. */
module MatcherSteps {
  import opened Bytes
  import opened Bytecode
  import opened CodeShape
  import opened FreeRuns
  import opened Judgement
  import opened LoopDepth
  import opened LoopForms
  import opened MatcherState

  // ----- exploring, step by step -----

  lemma AtHandFew(s: State, seen: Places, here: bool, pc: nat, i: nat, k: nat)
    requires k < |s.stack| && s.stack[k].Point? && s.stack[k].place == pc && s.stack[k].position == i
    ensures AtHand(s, seen, here, pc, i)
  {
  }

  lemma AsFarFurther(job: Job, pc: nat, i: nat, x: nat, k: nat, j: nat)
    requires AsFar(job, pc, i, j) && forall m: nat :: AccFrom(job.code, job.text, pc, i, m) ==> AsFar(job, x, k, m)
    ensures AsFar(job, x, k, j)
  {
    hide AccFrom;
    var m: nat :| j <= m && AccFrom(job.code, job.text, pc, i, m);
    var n: nat :| m <= n && AccFrom(job.code, job.text, x, k, n);
  }

  /** What was covered stays so if all that was at hand is covered. */
  lemma CoveredOn(job: Job, s: State, seen: Places, here: bool, s': State, seen': Places, here': bool, pc: nat, i: nat)
    requires Covered(job, s, seen, here, pc, i)
    requires forall x: nat, k: nat :: AtHand(s, seen, here, x, k) ==> Covered(job, s', seen', here', x, k)
    ensures Covered(job, s', seen', here', pc, i)
  {
    hide AccFrom, AtHand, AsFar;
    if !AtHand(s, seen, here, pc, i) {
      var x: nat, k: nat :| Surpasses(job, s, seen, here, pc, i, x, k);
      assert Covered(job, s', seen', here', x, k);
      if AtHand(s', seen', here', x, k) {
        assert Surpasses(job, s', seen', here', pc, i, x, k);
      } else {
        var x': nat, k': nat :| Surpasses(job, s', seen', here', x, k, x', k');
        forall j: nat | AccFrom(job.code, job.text, pc, i, j)
          ensures AsFar(job, x', k', j)
        {
          AsFarFurther(job, x, k, x', k', j);
        }
        assert Surpasses(job, s', seen', here', pc, i, x', k');
      }
    }
  }

  ghost predicate GoesCovered(job: Job, s: State, seen: Places, here: bool, x: nat, i: nat) {
    forall y: nat, k: nat :: Goes(job.code, job.text, x, i, y, k) ==> Covered(job, s, seen, here, y, k)
  }

  ghost predicate SavedSeen(job: Job, seen: Places, stack: seq<FailurePoint>) {
    forall k :: 0 <= k < |stack| && stack[k].Point? ==>
      IdleSeen(job, seen, stack[k].place, stack[k].position, stack[k].idle)
  }

  /** More has been explored, and all that was at hand is covered. */
  lemma ExploredOn(job: Job, s: State, seen: Places, here: bool, s': State, seen': Places, here': bool)
    requires Explored(job, s, seen, here) && seen <= seen'
    requires forall x: nat, k: nat :: AtHand(s, seen, here, x, k) ==> Covered(job, s', seen', here', x, k)
    requires forall x, i :: (x, i) in seen' && (x, i) !in seen ==>
      i <= |job.text| && GoesCovered(job, s', seen', here', x, i)
    requires forall x, i :: (x, i) in seen' && (x, i) !in seen && x == |job.code| ==> s'.bestSet && i <= s'.matchEnd
    requires s.bestSet ==> s'.bestSet && s.matchEnd <= s'.matchEnd
    requires SavedSeen(job, seen', s'.stack) && (here' ==> IdleSeen(job, seen', s'.p, s'.d, s'.idle))
    ensures Explored(job, s', seen', here')
  {
    hide AtHand, Surpassed, Goes, IdleSeen;
    CoveredAtFirst(job, s, seen, here, s', seen', here');
    forall x, i, y: nat, k: nat | (x, i) in seen' && Goes(job.code, job.text, x, i, y, k)
      ensures Covered(job, s', seen', here', y, k)
    {
      if (x, i) in seen {
        hide Covered;
        CoveredOn(job, s, seen, here, s', seen', here', y, k);
      } else {
        assert GoesCovered(job, s', seen', here', x, i);
      }
    }
  }

  lemma CoveredAtFirst(job: Job, s: State, seen: Places, here: bool, s': State, seen': Places, here': bool)
    requires Explored(job, s, seen, here)
    requires forall x: nat, k: nat :: AtHand(s, seen, here, x, k) ==> Covered(job, s', seen', here', x, k)
    ensures Covered(job, s', seen', here', 0, job.start)
  {
    hide AtHand, Goes, IdleSeen, Covered;
    CoveredOn(job, s, seen, here, s', seen', here', 0, job.start);
  }

  lemma IdleMore(job: Job, seen: Places, seen': Places, stack: seq<FailurePoint>)
    requires seen <= seen' && SavedSeen(job, seen, stack)
    ensures SavedSeen(job, seen', stack)
  {
    hide InBody, GroupAt;
  }

  /** After an instruction, a group still idle was begun here, and so was seen. */
  lemma IdleOn(job: Job, seen: Places, s: State, y: nat, k: nat, idle: set<byte>)
    requires Shape(job.code, 0, |job.code|, job.starts, {}) && Neat(job.code, job.starts)
    requires s.p in job.starts && s.p < |job.code| && Leads(job.code, s.p, y)
    requires IdleSeen(job, seen, s.p, s.d, s.idle)
    requires k >= s.d && (k > s.d ==> idle == {})
    requires k == s.d ==> idle == s.idle || Begins(job.code, s.p, s.idle, idle)
    ensures IdleSeen(job, seen + {(s.p, s.d)}, y, k, idle)
  {
    hide Shape, Leads, Decode, Target, TightAt;
    forall t | Closes(job.code, job.starts, t) && InBody(job.code, t, y) && GroupOf(job.code, t) in idle
      ensures (Target(job.code, t) + 3, k) in seen + {(s.p, s.d)}
    {
      IntoBody(job.code, job.starts, s.p, y, t);
      if InBody(job.code, t, s.p) {
        OtherGroup(job.code, job.starts, t, s.p);
      }
    }
  }

  predicate Begins(code: seq<byte>, p: nat, idle: set<byte>, idle': set<byte>) {
    p + 1 < |code| && code[p] == START_MEMORY && idle' == idle + {code[p + 1]}
  }

  lemma OtherGroup(code: seq<byte>, starts: set<nat>, t: nat, x: nat)
    requires Neat(code, starts) && Closes(code, starts, t) && InBody(code, t, x) && x in starts
    ensures code[x] == START_MEMORY ==> code[x + 1] != GroupOf(code, t)
  {
    hide Target;
    NotBoth(code, t);
    assert NeatAt(code, starts, t);
  }

  // ----- what each kind of step keeps -----

  lemma Init(job: Job)
    requires Shape(job.code, 0, |job.code|, job.starts, {}) && job.start <= |job.text|
    ensures Running(job, State(0, job.start, {}, [], false, 0))
  {
    hide Shape, Neat, LoopsOk, Sure, AccFrom;
    EndIsStart(job.code, 0, |job.code|, job.starts, {});
    StartLoops(job.code, job.starts);
    assert GoesIn(job.code, job.text, 0, job.start, 0, job.start, 0);
    LoopsAtFirst(job);
    assert Explored(job, State(0, job.start, {}, [], false, 0), {}, true);
  }

  lemma LoopsAtFirst(job: Job)
    requires Shape(job.code, 0, |job.code|, job.starts, {})
    ensures LoopsOk(job, State(0, job.start, {}, [], false, 0))
  {
    hide Shape, Target, TightAt, DummyEnd, Straight, TopRight;
    forall t | Closes(job.code, job.starts, t)
      ensures LoopOk(job, State(0, job.start, {}, [], false, 0), t)
    {
      LoopPlaces(job.code, job.starts, t);
      if Guarded(job.code, job.starts, t, 0) && !TightAt(job.code, t) {
        GuardedSpan(job.code, job.starts, t, 0);
      }
    }
  }

  /** There is but one way to go on. */
  ghost predicate GoesOnlyTo(job: Job, x: nat, i: nat, y: nat, k: nat) {
    forall y': nat, k': nat :: Goes(job.code, job.text, x, i, y', k') ==> y' == y && k' == k
  }

  lemma Step(job: Job, s: State, s': State)
    requires Running(job, s) && s.p < |job.code| && job.code[s.p] != ON_FAILURE_JUMP
    requires Leads(job.code, s.p, s'.p) && Goes(job.code, job.text, s.p, s.d, s'.p, s'.d)
    requires GoesOnlyTo(job, s.p, s.d, s'.p, s'.d) && Turns(job, s, s')
    requires s' == s.(p := s'.p, d := s'.d, idle := s'.idle) && !Leaving(job.code, job.starts, s.p, s.idle)
    requires s'.p in job.starts && s'.d <= |job.text| && Depth(job.code, job.starts, s'.p) <= |s.stack|
    ensures Running(job, s')
  {
    hide Shape, Goes, GoesIn, FromStart, Neat, LoopsOk, Turns, AccFrom, Depth, Leads, Leaving, Outside, Explored, Sure;
    FromStartOn(job, s.p, s.d, s'.p, s'.d);
    if Neat(job.code, job.starts) {
      LoopsKept(job, s, s');
    }
    if Sure(job) {
      SureNeat(job);
      var seen: Places :| Explored(job, s, seen, true);
      StepExplored(job, s, s', seen);
    }
  }

  lemma SureNeat(job: Job)
    requires Sure(job)
    ensures Neat(job.code, job.starts)
  {
    hide Neat;
  }

  lemma StepExplored(job: Job, s: State, s': State, seen: Places)
    requires Shape(job.code, 0, |job.code|, job.starts, {}) && Neat(job.code, job.starts) && s.p in job.starts
    requires s.d <= |job.text|
    requires Explored(job, s, seen, true) && s.p < |job.code| && Leads(job.code, s.p, s'.p) && Turns(job, s, s')
    requires GoesOnlyTo(job, s.p, s.d, s'.p, s'.d) && job.code[s.p] != ON_FAILURE_JUMP
    requires s' == s.(p := s'.p, d := s'.d, idle := s'.idle)
    ensures Explored(job, s', seen + {(s.p, s.d)}, true)
  {
    var seen' := seen + {(s.p, s.d)};
    IdleTurned(job, s, s');
    hide Shape, Neat, Leads, Turns, Goes, Surpassed, IdleSeen;
    IdleOn(job, seen, s, s'.p, s'.d, s'.idle);
    IdleMore(job, seen, seen', s.stack);
    assert AtHand(s', seen', true, s'.p, s'.d);
    assert GoesCovered(job, s', seen', true, s.p, s.d);
    ExploredOn(job, s, seen, true, s', seen', true);
  }

  lemma IdleTurned(job: Job, s: State, s': State)
    requires s.p < |job.code| && Turns(job, s, s') && job.code[s.p] != ON_FAILURE_JUMP
    ensures s'.d >= s.d && (s'.d > s.d ==> s'.idle == {})
    ensures s'.d == s.d ==> s'.idle == s.idle || Begins(job.code, s.p, s.idle, s'.idle)
  {
    hide Decode, Passes, Target;
  }

  lemma Refuse(job: Job, s: State)
    requires Running(job, s) && s.p < |job.code|
    requires forall y: nat, k: nat :: !Goes(job.code, job.text, s.p, s.d, y, k)
    ensures Failing(job, s)
  {
    hide Shape, Neat, LoopsOk, Outside, AccFrom, FromStart, Depth, Sure, Goes, Explored;
    if Sure(job) {
      var seen: Places :| Explored(job, s, seen, true);
      RefuseExplored(job, s, seen);
    }
  }

  lemma RefuseExplored(job: Job, s: State, seen: Places)
    requires Explored(job, s, seen, true) && s.p < |job.code| && s.d <= |job.text|
    requires forall y: nat, k: nat :: !Goes(job.code, job.text, s.p, s.d, y, k)
    ensures Explored(job, s, seen + {(s.p, s.d)}, false)
  {
    var seen' := seen + {(s.p, s.d)};
    hide Goes, Surpassed, IdleSeen;
    IdleMore(job, seen, seen', s.stack);
    assert GoesCovered(job, s, seen', false, s.p, s.d);
    ExploredOn(job, s, seen, true, s, seen', false);
  }

  /** An instruction other than a jump, once it has passed. */
  function After(code: seq<byte>, s: State): State
    requires s.p < |code|
  {
    var instr := Decode(code, s.p);
    s.(p := s.p + instr.Length(), d := s.d + Consumed(instr), idle := IdleAfter(code, s.p, s.idle))
  }

  lemma PlainGoes(code: seq<byte>, text: seq<byte>, x: nat, i: nat, y: nat, k: nat)
    requires x < |code| && Decode(code, x) != Bad && !Decode(code, x).Jump? && !Decode(code, x).Fork?
    ensures Goes(code, text, x, i, y, k) <==>
      Passes(Decode(code, x), text, i) && y == x + Decode(code, x).Length() && k == i + Consumed(Decode(code, x))
  {
  }

  lemma PassesInside(instr: Instr, text: seq<byte>, i: nat)
    requires Passes(instr, text, i) && i <= |text|
    ensures i + Consumed(instr) <= |text|
  {
  }

  /** An instruction other than a jump. */
  lemma PlainKept(job: Job, s: State)
    requires Running(job, s) && s.p < |job.code|
    requires var instr := Decode(job.code, s.p); !instr.Jump? && !instr.Fork?
    requires !Leaving(job.code, job.starts, s.p, s.idle) && (job.code[s.p] == PUSH_DUMMY_FAILURE ==> DummyOnTop(s))
    ensures Decode(job.code, s.p) != Bad
    ensures if Passes(Decode(job.code, s.p), job.text, s.d) then Running(job, After(job.code, s)) else Failing(job, s)
  {
    hide Shape, Running, Failing, Depth, Leads, Goes, Passes, Decode, IdleAfter, Leaving;
    var instr := Decode(job.code, s.p);
    PlainDepth(job, s);
    forall y: nat, k: nat {
      PlainGoes(job.code, job.text, s.p, s.d, y, k);
    }
    if Passes(instr, job.text, s.d) {
      PassesInside(instr, job.text, s.d);
      Step(job, s, After(job.code, s));
    } else {
      Refuse(job, s);
    }
  }

  lemma PlainDepth(job: Job, s: State)
    requires Running(job, s) && s.p < |job.code|
    requires var instr := Decode(job.code, s.p); !instr.Jump? && !instr.Fork?
    ensures var instr := Decode(job.code, s.p);
      && instr != Bad && s.p + instr.Length() in job.starts && s.d <= |job.text|
      && Depth(job.code, job.starts, s.p + instr.Length()) <= |s.stack|
      && Leads(job.code, s.p, s.p + instr.Length()) && !TakesNumber(job.code[s.p])
  {
    hide Shape, Depth, Neat, Sure, Outside, LoopsOk, Complete, FromStart;
    InstructionOk(job.code, job.starts, s.p);
    OpcodeDecodes(job.code, s.p);
    StepLoops(job.code, job.starts, s.p, s.p + Decode(job.code, s.p).Length());
  }

  /** A jump, other than the one that pushes a dummy. */
  lemma JumpKept(job: Job, s: State)
    requires Running(job, s) && s.p < |job.code| && IsJump(job.code[s.p]) && job.code[s.p] != DUMMY_FAILURE_JUMP
    ensures s.p + 3 <= |job.code| && 0 <= Target(job.code, s.p) <= |job.code|
    ensures Running(job, s.(p := Target(job.code, s.p)))
  {
    hide Shape, Running, Depth, Decode;
    JumpPlace(job, s);
    Step(job, s, s.(p := Target(job.code, s.p)));
  }

  lemma JumpPlace(job: Job, s: State)
    requires Running(job, s) && s.p < |job.code| && IsJump(job.code[s.p])
    ensures s.p + 3 <= |job.code| && 0 <= Target(job.code, s.p) <= |job.code| && Target(job.code, s.p) in job.starts
    ensures Decode(job.code, s.p) == Jump(Target(job.code, s.p)) && s.d <= |job.text|
    ensures Leads(job.code, s.p, Target(job.code, s.p))
    ensures Depth(job.code, job.starts, Target(job.code, s.p)) <=
      |s.stack| + (if job.code[s.p] == DUMMY_FAILURE_JUMP then 1 else 0)
  {
    hide Shape, Depth, Decode, Target, Leads, Neat, Sure, Outside, LoopsOk, Complete, FromStart;
    InstructionOk(job.code, job.starts, s.p);
    OpcodeDecodes(job.code, s.p);
    JumpLeads(job.code, s.p);
    LeadsTo(job.code, 0, |job.code|, job.starts, {}, s.p, Target(job.code, s.p));
    StepLoops(job.code, job.starts, s.p, Target(job.code, s.p));
  }

  lemma DummyPushed(job: Job, s: State)
    requires Running(job, s)
    ensures Running(job, s.(stack := s.stack + [Dummy]))
  {
    hide Shape, Neat, AccFrom, Closes, Guarded, Depth, FromStart, Sure, Explored, Free;
    var s' := s.(stack := s.stack + [Dummy]);
    if Sure(job) {
      var seen: Places :| Explored(job, s, seen, true);
      DummyExplored(job, s, seen);
    }
  }

  lemma DummyExplored(job: Job, s: State, seen: Places)
    requires Explored(job, s, seen, true)
    ensures Explored(job, s.(stack := s.stack + [Dummy]), seen, true)
  {
    var s' := s.(stack := s.stack + [Dummy]);
    forall x: nat, k: nat | AtHand(s, seen, true, x, k)
      ensures AtHand(s', seen, true, x, k)
    {
      AtHandPushed(s, seen, Dummy, x, k);
    }
    hide AtHand, Goes, Surpassed, IdleSeen;
    ExploredOn(job, s, seen, true, s', seen, true);
  }

  lemma AtHandPushed(s: State, seen: Places, f: FailurePoint, x: nat, k: nat)
    ensures AtHand(s, seen, true, x, k) ==> AtHand(s.(stack := s.stack + [f]), seen, true, x, k)
    ensures f.Point? ==> AtHand(s.(stack := s.stack + [f]), seen, false, f.place, f.position)
  {
    var s' := s.(stack := s.stack + [f]);
    if m :| 0 <= m < |s.stack| && s.stack[m].Point? && s.stack[m].place == x && s.stack[m].position == k {
      AtHandFew(s', seen, true, x, k, m);
    }
    assert s'.stack[|s.stack|] == f;
  }

  /** A jump that pushes a dummy as it goes. */
  lemma DummyJumpKept(job: Job, s: State)
    requires Running(job, s) && s.p < |job.code| && job.code[s.p] == DUMMY_FAILURE_JUMP
    ensures s.p + 3 <= |job.code| && 0 <= Target(job.code, s.p) <= |job.code|
    ensures Running(job, s.(p := Target(job.code, s.p), stack := s.stack + [Dummy]))
  {
    hide Shape, Running, Depth, Decode;
    JumpPlace(job, s);
    DummyPushed(job, s);
    var pushed := s.(stack := s.stack + [Dummy]);
    Step(job, pushed, pushed.(p := Target(job.code, s.p)));
  }

  /** A fork saves its jump and goes on. */
  lemma ForkKept(job: Job, s: State)
    requires Running(job, s) && s.p < |job.code| && job.code[s.p] == ON_FAILURE_JUMP
    ensures s.p + 3 <= |job.code| && 0 <= Target(job.code, s.p) <= |job.code|
    ensures Running(job, s.(p := s.p + 3, stack := s.stack + [Point(Target(job.code, s.p), s.d, s.idle)]))
  {
    hide Shape, Depth, FromStart, Neat, LoopsOk, Explored, Decode, Target, Sure, Free;
    ForkPlace(job, s);
    var t: nat := Target(job.code, s.p);
    FromStartOn(job, s.p, s.d, t, s.d);
    FromStartOn(job, s.p, s.d, s.p + 3, s.d);
    var s' := s.(p := s.p + 3, stack := s.stack + [Point(t, s.d, s.idle)]);
    if Neat(job.code, job.starts) {
      NumberNotLeaving(job.code, job.starts, s.p, s.idle);
      LoopsKept(job, s, s');
      ForkFree(job, s.p);
    }
    if Sure(job) {
      SureNeat(job);
      var seen: Places :| Explored(job, s, seen, true);
      ForkExplored(job, s, t, seen);
    }
  }

  lemma NumberNotLeaving(code: seq<byte>, starts: set<nat>, p: nat, idle: set<byte>)
    requires p < |code| && TakesNumber(code[p])
    ensures !Leaving(code, starts, p, idle)
  {
  }

  lemma ForkExplored(job: Job, s: State, t: nat, seen: Places)
    requires Shape(job.code, 0, |job.code|, job.starts, {}) && Neat(job.code, job.starts) && s.p in job.starts
    requires s.p < |job.code| && Decode(job.code, s.p) == Fork(t) && s.d <= |job.text| && Explored(job, s, seen, true)
    requires Leads(job.code, s.p, s.p + 3) && Leads(job.code, s.p, t)
    ensures var s' := s.(p := s.p + 3, stack := s.stack + [Point(t, s.d, s.idle)]);
      Explored(job, s', seen + {(s.p, s.d)}, true)
  {
    var seen' := seen + {(s.p, s.d)};
    var f := Point(t, s.d, s.idle);
    var s' := s.(p := s.p + 3, stack := s.stack + [f]);
    forall x: nat, k: nat | AtHand(s, seen, true, x, k)
      ensures AtHand(s', seen', true, x, k)
    {
      AtHandPushed(s, seen, f, x, k);
    }
    AtHandPushed(s, seen, f, 0, 0);
    ForkGoes(job, s.p, s.d, t);
    hide Shape, Neat, Leads, Surpassed, IdleSeen, Decode;
    IdleOn(job, seen, s, s.p + 3, s.d, s.idle);
    IdleOn(job, seen, s, t, s.d, s.idle);
    IdleMore(job, seen, seen', s.stack);
    assert AtHand(s', seen', true, s.p + 3, s.d) && AtHand(s', seen', true, t, s.d);
    hide AtHand, Goes;
    assert GoesCovered(job, s', seen', true, s.p, s.d);
    ExploredOn(job, s, seen, true, s', seen', true);
  }

  lemma ForkGoes(job: Job, x: nat, i: nat, t: nat)
    requires x < |job.code| && Decode(job.code, x) == Fork(t)
    ensures forall y: nat, k: nat :: Goes(job.code, job.text, x, i, y, k) ==> (y == x + 3 || y == t) && k == i
  {
  }

  lemma ForkPlace(job: Job, s: State)
    requires Running(job, s) && s.p < |job.code| && job.code[s.p] == ON_FAILURE_JUMP
    ensures s.p + 3 <= |job.code| && 0 <= Target(job.code, s.p) <= |job.code|
    ensures Decode(job.code, s.p) == Fork(Target(job.code, s.p))
    ensures Target(job.code, s.p) in job.starts && s.p + 3 in job.starts
    ensures Depth(job.code, job.starts, Target(job.code, s.p)) <= |s.stack|
    ensures Depth(job.code, job.starts, s.p + 3) <= |s.stack| + 1
    ensures Leads(job.code, s.p, s.p + 3) && Leads(job.code, s.p, Target(job.code, s.p))
  {
    hide Shape, Depth, Decode, Target, Leads, Neat, Sure, Outside, LoopsOk, Complete, FromStart;
    InstructionOk(job.code, job.starts, s.p);
    OpcodeDecodes(job.code, s.p);
    ForkLoops(job.code, job.starts, s.p);
    JumpLeads(job.code, s.p);
    StepLoops(job.code, job.starts, s.p, s.p + 3);
  }

  /** What throwing away the top of the stack leaves. */
  function Popped(s: State): State
    requires s.stack != []
  {
    s.(stack := s.stack[..|s.stack| - 1])
  }

  /** The jump that closes a loop, when it first throws away the top of the stack: there is one, and if that is
      safe it is a dummy or the loop's own. */
  lemma PopJumpKept(job: Job, s: State)
    requires Running(job, s) && s.p < |job.code| && job.code[s.p] == MAYBE_POP_JUMP
    ensures s.stack != [] && s.p + 3 <= |job.code|
    ensures 0 <= Target(job.code, s.p) <= |job.code| && Target(job.code, s.p) + 3 < |job.code|
    ensures Pops(job.code, s.p) ==> Running(job, Popped(s).(p := Target(job.code, s.p)))
  {
    hide Shape, Depth, FromStart, Neat, LoopsOk, Explored, Decode, Target, Pops, Sure, Free;
    BackLoops(job.code, job.starts, s.p);
    JumpPlace(job, s);
    LoopExit(job, s.p, s.d);
    FromStartOn(job, s.p, s.d, Target(job.code, s.p), s.d);
    var s' := Popped(s).(p := Target(job.code, s.p));
    assert Closes(job.code, job.starts, s.p);
    if Neat(job.code, job.starts) {
      NumberNotLeaving(job.code, job.starts, s.p, s.idle);
      LoopsKept(job, s, s');
    }
    if Sure(job) && Pops(job.code, s.p) {
      SureNeat(job);
      var seen: Places :| Explored(job, s, seen, true);
      PopExplored(job, s, seen);
    }
  }

  /** What is dropped, if not a dummy, is surpassed by the place where it is dropped. */
  lemma DropHarmless(job: Job, s: State, j: nat)
    requires Shape(job.code, 0, |job.code|, job.starts, {}) && Closes(job.code, job.starts, s.p)
    requires SafeAt(job, s.p) && LoopOk(job, s, s.p) && s.d <= |job.text|
    ensures s.stack != []
    ensures var top := s.stack[|s.stack| - 1];
      top.Point? ==> top.place == s.p + 3 && top.position < s.d
    ensures var top := s.stack[|s.stack| - 1];
      top.Point? && AccFrom(job.code, job.text, top.place, top.position, j) ==> AsFar(job, s.p, s.d, j)
  {
    hide Shape, AccFrom, Passes, Decode, Target, AsFar;
    var t := s.p;
    LoopPlaces(job.code, job.starts, t);
    if TightAt(job.code, t) {
      TightNoDummy(job.code, job.starts, t);
      var top := s.stack[|s.stack| - 1];
      assert top.Point? && AccFrom(job.code, job.text, top.place, top.position, j) ==> Leaves(job, t, top.position, j);
    } else if !DummyEnd(job.code, job.starts, t) {
      var top := s.stack[|s.stack| - 1];
      assert top.Point? && AccFrom(job.code, job.text, top.place, top.position, j) ==>
        AcceptsPast(job, t, top.position, j);
    }
  }

  lemma AtHandPopped(s: State, s': State, seen: Places, seen': Places, x: nat, k: nat)
    requires s.stack != [] && s'.stack == s.stack[..|s.stack| - 1] && seen <= seen' && (s.p, s.d) in seen'
    requires AtHand(s, seen, true, x, k)
    ensures AtHand(s', seen', true, x, k) ||
      (var top := s.stack[|s.stack| - 1]; top.Point? && top.place == x && top.position == k)
  {
    if m :| 0 <= m < |s.stack| && s.stack[m].Point? && s.stack[m].place == x && s.stack[m].position == k {
      if m < |s'.stack| {
        assert s'.stack[m] == s.stack[m];
        AtHandFew(s', seen', true, x, k, m);
      }
    }
  }

  lemma PopExplored(job: Job, s: State, seen: Places)
    requires Shape(job.code, 0, |job.code|, job.starts, {}) && Sure(job) && Closes(job.code, job.starts, s.p)
    requires LoopsOk(job, s) && Explored(job, s, seen, true) && s.stack != [] && s.d <= |job.text|
    requires s.p + 3 <= |job.code| && 0 <= Target(job.code, s.p) && Target(job.code, s.p) + 3 < |job.code|
    requires Pops(job.code, s.p) && Decode(job.code, s.p) == Jump(Target(job.code, s.p))
    requires Leads(job.code, s.p, Target(job.code, s.p))
    ensures Explored(job, Popped(s).(p := Target(job.code, s.p)), seen + {(s.p, s.d)}, true)
  {
    var s' := Popped(s).(p := Target(job.code, s.p));
    var seen' := seen + {(s.p, s.d)};
    assert MayPop(job.code, s.p) && SafeAt(job, s.p) && LoopOk(job, s, s.p);
    SureNeat(job);
    hide Shape, AccFrom, Decode, Target, LoopOk, SafeAt, Sure, LoopsOk, Pops, MayPop, Neat, AsFar, Leads;
    forall x: nat, k: nat | AtHand(s, seen, true, x, k)
      ensures Covered(job, s', seen', true, x, k)
    {
      AtHandPopped(s, s', seen, seen', x, k);
      if !AtHand(s', seen', true, x, k) {
        DropSurpassed(job, s, s', seen', x, k);
      }
    }
    JumpGoes(job, s.p, s.d);
    hide Surpassed, IdleSeen;
    IdleOn(job, seen, s, s'.p, s.d, s.idle);
    IdleMore(job, seen, seen', s.stack);
    assert AtHand(s', seen', true, s'.p, s.d);
    hide AtHand, Goes;
    assert GoesCovered(job, s', seen', true, s.p, s.d);
    ExploredOn(job, s, seen, true, s', seen', true);
  }

  lemma DropSurpassed(job: Job, s: State, s': State, seen': Places, x: nat, k: nat)
    requires Shape(job.code, 0, |job.code|, job.starts, {}) && Closes(job.code, job.starts, s.p)
    requires SafeAt(job, s.p) && LoopOk(job, s, s.p) && s.d <= |job.text| && s.stack != [] && (s.p, s.d) in seen'
    requires var top := s.stack[|s.stack| - 1]; top.Point? && top.place == x && top.position == k
    ensures Surpassed(job, s', seen', true, x, k)
  {
    hide Shape, AccFrom, SafeAt, LoopOk, AsFar;
    DropHarmless(job, s, 0);
    forall j: nat | AccFrom(job.code, job.text, x, k, j)
      ensures AsFar(job, s.p, s.d, j)
    {
      DropHarmless(job, s, j);
    }
    assert AtHand(s', seen', true, s.p, s.d);
    assert Surpasses(job, s', seen', true, x, k, s.p, s.d);
  }

  lemma JumpGoes(job: Job, x: nat, i: nat)
    requires x + 3 <= |job.code| && Decode(job.code, x) == Jump(Target(job.code, x))
    ensures forall y: nat, k: nat :: Goes(job.code, job.text, x, i, y, k) ==> y == Target(job.code, x) && k == i
  {
    hide Target;
  }

  /** Where the loop closed at `t` ends: just past its closing jump, reached by way of its fork. */
  lemma LoopExit(job: Job, t: nat, i: nat)
    requires Shape(job.code, 0, |job.code|, job.starts, {}) && t in job.starts && t < |job.code|
    requires job.code[t] == MAYBE_POP_JUMP
    ensures t + 3 <= |job.code| && 0 <= Target(job.code, t) && Target(job.code, t) + 3 <= t
    ensures Target(job.code, t) in job.starts
    ensures job.code[Target(job.code, t)] == ON_FAILURE_JUMP
    ensures Target(job.code, Target(job.code, t)) == t + 3 && t + 3 in job.starts
    ensures Depth(job.code, job.starts, t + 3) <= Depth(job.code, job.starts, t)
    ensures Goes(job.code, job.text, t, i, Target(job.code, t), i)
    ensures Goes(job.code, job.text, Target(job.code, t), i, t + 3, i)
  {
    hide Shape, Depth, Decode, Target;
    InstructionOk(job.code, job.starts, t);
    OpcodeDecodes(job.code, t);
    BackLoops(job.code, job.starts, t);
    var q: nat := Target(job.code, t);
    InstructionOk(job.code, job.starts, q);
    OpcodeDecodes(job.code, q);
    ForkLoops(job.code, job.starts, q);
  }

  /** Leaving a loop whose group has just matched nothing. */
  lemma ForcedExitKept(job: Job, s: State)
    requires Running(job, s) && Leaving(job.code, job.starts, s.p, s.idle)
    ensures s.p + 6 <= |job.code|
    ensures Failing(job, s.(stack := s.stack + [Point(s.p + 6, s.d, s.idle)]))
  {
    hide Shape, Depth, FromStart, Neat, LoopsOk, Explored, Sure, Decode, Target, Free;
    var t := s.p + 3;
    EndPlace(job, s);
    PlainDepth(job, s);
    LoopExit(job, t, s.d);
    MemoryGoes(job, s.p, s.d);
    FromStartOn(job, s.p, s.d, t, s.d);
    hide Goes;
    FromStartOn(job, t, s.d, Target(job.code, t), s.d);
    FromStartOn(job, Target(job.code, t), s.d, t + 3, s.d);
    if Neat(job.code, job.starts) {
      ForkFree(job, Target(job.code, t));
    }
    if Sure(job) {
      SureNeat(job);
      var seen: Places :| Explored(job, s, seen, true);
      ForcedExplored(job, s, seen);
    }
  }

  lemma EndPlace(job: Job, s: State)
    requires Running(job, s) && Leaving(job.code, job.starts, s.p, s.idle)
    ensures Decode(job.code, s.p) == Memory && s.p in job.starts && s.d <= |job.text| && s.p + 3 < |job.code|
    ensures Leads(job.code, s.p, s.p + 3)
  {
    hide Shape, Depth, FromStart, Neat, LoopsOk, Complete, Sure, Target, Outside;
    InstructionOk(job.code, job.starts, s.p);
    MemoryLength(job.code, s.p);
  }

  lemma MemoryGoes(job: Job, x: nat, i: nat)
    requires x < |job.code| && Decode(job.code, x) == Memory
    ensures forall y: nat, k: nat :: Goes(job.code, job.text, x, i, y, k) <==> y == x + 3 && k == i
  {
  }

  /** The places passed over on the way out lead only to the way out and to where the group was begun. */
  lemma ForcedExplored(job: Job, s: State, seen: Places)
    requires Shape(job.code, 0, |job.code|, job.starts, {}) && Neat(job.code, job.starts) && s.p in job.starts
    requires Explored(job, s, seen, true) && s.d <= |job.text| && Leaving(job.code, job.starts, s.p, s.idle)
    requires Decode(job.code, s.p) == Memory && s.p + 3 < |job.code| && Leads(job.code, s.p, s.p + 3)
    ensures var s' := s.(stack := s.stack + [Point(s.p + 6, s.d, s.idle)]);
      Explored(job, s', seen + {(s.p, s.d), (s.p + 3, s.d), (Target(job.code, s.p + 3), s.d)}, false)
  {
    var code, starts, t := job.code, job.starts, s.p + 3;
    LoopPlaces(code, starts, t);
    var q: nat := Target(code, t);
    var f := Point(t + 3, s.d, s.idle);
    var s' := s.(stack := s.stack + [f]);
    var seen' := seen + {(s.p, s.d), (t, s.d), (q, s.d)};
    assert (q + 3, s.d) in seen by {
      hide Neat;
      assert InBody(code, t, s.p) && IdleSeen(job, seen, s.p, s.d, s.idle);
    }
    OutIdle(job, s, seen);
    LoopGoes(job, s.p, s.d);
    forall x: nat, k: nat | AtHand(s, seen, true, x, k)
      ensures AtHand(s', seen', false, x, k)
    {
      AtHandPushed(s, seen, f, x, k);
    }
    AtHandPushed(s, seen', f, 0, 0);
    hide Shape, Neat, Leads, Surpassed, IdleSeen, Decode, Target, GroupAt, Closes;
    IdleMore(job, seen, seen', s.stack);
    assert AtHand(s', seen', false, t, s.d) && AtHand(s', seen', false, q, s.d) && AtHand(s', seen', false, q + 3, s.d);
    assert AtHand(s', seen', false, t + 3, s.d);
    hide AtHand, Goes;
    assert GoesCovered(job, s', seen', false, s.p, s.d);
    assert GoesCovered(job, s', seen', false, t, s.d);
    assert GoesCovered(job, s', seen', false, q, s.d);
    ExploredOn(job, s, seen, true, s', seen', false);
  }

  lemma LoopGoes(job: Job, p: nat, i: nat)
    requires Shape(job.code, 0, |job.code|, job.starts, {}) && Closes(job.code, job.starts, p + 3)
    requires Decode(job.code, p) == Memory
    ensures p + 6 <= |job.code| && 0 <= Target(job.code, p + 3) && Target(job.code, p + 3) in job.starts
    ensures var q: nat := Target(job.code, p + 3);
      && GoesOnlyTo(job, p, i, p + 3, i) && GoesOnlyTo(job, p + 3, i, q, i)
      && (forall y: nat, k: nat :: Goes(job.code, job.text, q, i, y, k) ==> (y == q + 3 || y == p + 6) && k == i)
  {
    hide Shape, Goes, Decode, Target;
    var t := p + 3;
    LoopPlaces(job.code, job.starts, t);
    InstructionOk(job.code, job.starts, t);
    OpcodeDecodes(job.code, t);
    var q: nat := Target(job.code, t);
    InstructionOk(job.code, job.starts, q);
    OpcodeDecodes(job.code, q);
    MemoryGoes(job, p, i);
    JumpGoes(job, t, i);
    ForkGoes(job, q, i, t + 3);
  }

  /** Past the loop, the groups around it are what they were. */
  lemma OutIdle(job: Job, s: State, seen: Places)
    requires Shape(job.code, 0, |job.code|, job.starts, {}) && Neat(job.code, job.starts) && s.p in job.starts
    requires s.p + 3 < |job.code| && Closes(job.code, job.starts, s.p + 3) && Leads(job.code, s.p, s.p + 3)
    requires job.code[s.p] == STOP_MEMORY && IdleSeen(job, seen, s.p, s.d, s.idle)
    ensures IdleSeen(job, seen, s.p + 6, s.d, s.idle)
  {
    hide Shape, Neat, Leads, Target, Decode;
    var code, starts, t := job.code, job.starts, s.p + 3;
    LoopPlaces(code, starts, t);
    var q: nat := Target(code, t);
    LoopLeads(code, starts, t);
    forall u | Closes(code, starts, u) && InBody(code, u, t + 3) && GroupOf(code, u) in s.idle
      ensures InBody(code, u, s.p)
    {
      IntoBody(code, starts, q, t + 3, u);
      IntoBody(code, starts, t, q, u);
      IntoBody(code, starts, s.p, t, u);
    }
  }

  lemma LoopLeads(code: seq<byte>, starts: set<nat>, t: nat)
    requires Shape(code, 0, |code|, starts, {}) && Closes(code, starts, t)
    ensures t + 3 <= |code| && 0 <= Target(code, t) && Leads(code, t, Target(code, t))
    ensures Leads(code, Target(code, t), t + 3)
  {
    hide Shape, Leads, Target, Decode;
    LoopPlaces(code, starts, t);
    InstructionOk(code, starts, t);
    InstructionOk(code, starts, Target(code, t));
    JumpLeads(code, t);
    JumpLeads(code, Target(code, t));
  }

  /** Saved alternatives of the closing jump of a loop are skipped. */
  lemma SkipKept(job: Job, s: State)
    requires Failing(job, s) && s.stack != []
    requires var top := s.stack[|s.stack| - 1];
      top.Point? ==> top.place < |job.code| && job.code[top.place] == MAYBE_POP_JUMP
    ensures Failing(job, Popped(s))
  {
    hide Shape, Neat, AccFrom, Depth, FromStart, Sure, Explored, Free;
    if Neat(job.code, job.starts) {
      OutsideFewer(job, s.stack, |s.stack| - 1);
    }
    if Sure(job) {
      SureNeat(job);
      OutsideDummy(job, s);
      var seen: Places :| Explored(job, s, seen, false);
      SkipExplored(job, s, seen);
    }
  }

  lemma OutsideFewer(job: Job, stack: seq<FailurePoint>, n: nat)
    requires Outside(job, stack) && n <= |stack|
    ensures Outside(job, stack[..n])
  {
    hide Free;
  }

  lemma SkipExplored(job: Job, s: State, seen: Places)
    requires Explored(job, s, seen, false) && s.stack != [] && s.stack[|s.stack| - 1].Dummy?
    ensures Explored(job, Popped(s), seen, false)
  {
    var s' := Popped(s);
    forall x: nat, k: nat | AtHand(s, seen, false, x, k)
      ensures AtHand(s', seen, false, x, k)
    {
      if m :| 0 <= m < |s.stack| && s.stack[m].Point? && s.stack[m].place == x && s.stack[m].position == k {
        assert s'.stack[m] == s.stack[m];
        AtHandFew(s', seen, false, x, k, m);
      }
    }
    hide AtHand, Goes, Surpassed, IdleSeen;
    ExploredOn(job, s, seen, false, s', seen, false);
  }

  lemma OutsideDummy(job: Job, s: State)
    requires Base(job, s) && Outside(job, s.stack) && s.stack != []
    requires var top := s.stack[|s.stack| - 1];
      top.Point? ==> top.place < |job.code| && job.code[top.place] == MAYBE_POP_JUMP
    ensures s.stack[|s.stack| - 1].Dummy?
  {
    hide Shape, Depth, FromStart, Guarded;
    var top := s.stack[|s.stack| - 1];
    if top.Point? {
      assert PlaceOk(job, top.place, top.position, |s.stack| - 1);
      FreeOpen(job, top.place);
    }
  }

  lemma FreeOpen(job: Job, y: nat)
    requires Free(job, y)
    ensures !Closes(job.code, job.starts, y)
  {
    hide Guarded;
  }

  /** Going back to the most recently saved alternative. */
  lemma ResumeKept(job: Job, s: State)
    requires Failing(job, s) && s.stack != [] && s.stack[|s.stack| - 1].Point?
    ensures var top := s.stack[|s.stack| - 1];
      Running(job, s.(stack := s.stack[..|s.stack| - 1], p := top.place, d := top.position, idle := top.idle))
  {
    hide Shape, Neat, AccFrom, Depth, FromStart, Sure, Explored;
    var top := s.stack[|s.stack| - 1];
    var s' := s.(stack := s.stack[..|s.stack| - 1], p := top.place, d := top.position, idle := top.idle);
    if Neat(job.code, job.starts) {
      OutsideFewer(job, s.stack, |s.stack| - 1);
      FreeLoops(job, s');
    }
    if Sure(job) {
      var seen: Places :| Explored(job, s, seen, false);
      ResumeExplored(job, s, seen);
    }
  }

  lemma FreeLoops(job: Job, s: State)
    requires Free(job, s.p)
    ensures LoopsOk(job, s)
  {
    hide Guarded, TopRight;
  }

  lemma ResumeExplored(job: Job, s: State, seen: Places)
    requires Explored(job, s, seen, false) && s.stack != [] && s.stack[|s.stack| - 1].Point?
    ensures var top := s.stack[|s.stack| - 1];
      var s' := s.(stack := s.stack[..|s.stack| - 1], p := top.place, d := top.position, idle := top.idle);
      Explored(job, s', seen, true)
  {
    var top := s.stack[|s.stack| - 1];
    var s' := s.(stack := s.stack[..|s.stack| - 1], p := top.place, d := top.position, idle := top.idle);
    forall x: nat, k: nat | AtHand(s, seen, false, x, k)
      ensures AtHand(s', seen, true, x, k)
    {
      if m :| 0 <= m < |s.stack| && s.stack[m].Point? && s.stack[m].place == x && s.stack[m].position == k {
        if m < |s'.stack| {
          assert s'.stack[m] == s.stack[m];
          AtHandFew(s', seen, true, x, k, m);
        }
      }
    }
    hide AtHand, Goes, Surpassed, IdleSeen;
    ExploredOn(job, s, seen, false, s', seen, true);
  }

  /** At the end of the pattern the match so far is accepted from the start. */
  lemma EndAccepts(job: Job, s: State)
    requires Running(job, s) && s.p == |job.code|
    ensures Accepts(job.code, job.text, job.start, s.d) && s.d <= |job.text|
  {
    hide Shape, FromStart, Neat, Sure, LoopsOk, Outside, Complete;
    EndStep(job.code, job.text, s.d, s.d);
    FromStartSound(job, s.p, s.d, s.d);
  }

  lemma AcceptedInside(job: Job, j: nat)
    requires Accepts(job.code, job.text, job.start, j) && job.start <= |job.text|
    ensures job.start <= j <= |job.text|
  {
    var n: nat :| Acc(job.code, job.text, 0, job.start, j, n);
    RunInside(job.code, job.text, 0, job.start, j, n);
  }

  /** Remembering the longer of this match and the best so far, and looking on. */
  lemma BestKept(job: Job, s: State)
    requires Running(job, s) && s.p == |job.code|
    ensures !s.bestSet || s.d > s.matchEnd ==> Failing(job, s.(bestSet := true, matchEnd := s.d))
    ensures s.bestSet && s.d <= s.matchEnd ==> Failing(job, s)
  {
    hide Shape, Neat, LoopsOk, Outside, Depth, FromStart, AccFrom, Sure, Explored;
    EndAccepts(job, s);
    var s' := if !s.bestSet || s.d > s.matchEnd then s.(bestSet := true, matchEnd := s.d) else s;
    if Sure(job) {
      var seen: Places :| Explored(job, s, seen, true);
      BestExplored(job, s, s', seen);
    }
  }

  lemma BestExplored(job: Job, s: State, s': State, seen: Places)
    requires Explored(job, s, seen, true) && s.p == |job.code| && s.d <= |job.text|
    requires s' == s.(bestSet := true, matchEnd := s'.matchEnd) && s.d <= s'.matchEnd
    requires s.bestSet ==> s.matchEnd <= s'.matchEnd
    ensures Explored(job, s', seen + {(s.p, s.d)}, false)
  {
    var seen' := seen + {(s.p, s.d)};
    forall x: nat, k: nat | AtHand(s, seen, true, x, k)
      ensures AtHand(s', seen', false, x, k)
    {
    }
    NothingPast(job, s.d);
    hide AtHand, Goes, Surpassed, IdleSeen;
    IdleMore(job, seen, seen', s.stack);
    assert GoesCovered(job, s', seen', false, s.p, s.d);
    ExploredOn(job, s, seen, true, s', seen', false);
  }

  lemma NothingPast(job: Job, i: nat)
    ensures forall y: nat, k: nat :: !Goes(job.code, job.text, |job.code|, i, y, k)
  {
  }

  // ----- what is known when the match is over -----

  /** All that is at hand has been explored, or is the end. */
  ghost predicate Over(job: Job, s: State, seen: Places, here: bool) {
    && Explored(job, s, seen, here)
    && forall x: nat, k: nat :: AtHand(s, seen, here, x, k) ==> k <= |job.text| && ((x, k) in seen || x == |job.code|)
  }

  lemma AcceptsGoes(job: Job, x: nat, i: nat, j: nat, n: nat) returns (y: nat, k: nat)
    requires Acc(job.code, job.text, x, i, j, n) && x != |job.code|
    ensures n > 0 && Goes(job.code, job.text, x, i, y, k) && Acc(job.code, job.text, y, k, j, n - 1) && k >= i
  {
    NumberInside(job.code, job.text, x, i, j, n);
    AccStep(job.code, job.text, x, i, j, n);
    hide Acc, Decode, Passes;
    var instr := Decode(job.code, x);
    y, k := x + instr.Length(), i + Consumed(instr);
    if instr.Jump? || (instr.Fork? && !Acc(job.code, job.text, x + 3, i, j, n - 1)) {
      NumberInside(job.code, job.text, instr.target, i, j, n - 1);
      y := instr.target;
    }
  }

  lemma NumberInside(code: seq<byte>, text: seq<byte>, pc: int, i: nat, j: nat, n: nat)
    requires Acc(code, text, pc, i, j, n)
    ensures 0 <= pc <= |code|
  {
  }

  /** From whatever is at hand, an end at least as far has been met. */
  lemma {:induction false} EndMet(job: Job, s: State, seen: Places, here: bool, x: nat, i: nat, j: nat, n: nat)
    returns (e: nat)
    requires Over(job, s, seen, here) && AtHand(s, seen, here, x, i) && Acc(job.code, job.text, x, i, j, n)
    ensures AtHand(s, seen, here, |job.code|, e) && j <= e
    decreases |job.text| - i, n
  {
    hide AtHand, Goes, IdleSeen, Acc, AsFar;
    if x == |job.code| {
      EndIsEnd(job, i, j, n);
      e := i;
    } else {
      assert i <= |job.text|;
      var y, k := AcceptsGoes(job, x, i, j, n);
      if AtHand(s, seen, here, y, k) {
        assert k <= |job.text|;
        e := EndMet(job, s, seen, here, y, k, j, n - 1);
      } else {
        var x': nat, k': nat :| Surpasses(job, s, seen, here, y, k, x', k');
        assert k' <= |job.text|;
        var j', n' := FartherRun(job, y, k, x', k', j, n - 1);
        e := EndMet(job, s, seen, here, x', k', j', n');
      }
    }
  }

  lemma EndIsEnd(job: Job, i: nat, j: nat, n: nat)
    requires Acc(job.code, job.text, |job.code|, i, j, n)
    ensures i == j
  {
  }

  lemma FartherRun(job: Job, y: nat, k: nat, x: nat, i: nat, j: nat, n: nat) returns (j': nat, n': nat)
    requires Acc(job.code, job.text, y, k, j, n)
    requires forall m: nat :: AccFrom(job.code, job.text, y, k, m) ==> AsFar(job, x, i, m)
    ensures j <= j' && Acc(job.code, job.text, x, i, j', n')
  {
    hide Acc;
    assert AccFrom(job.code, job.text, y, k, j);
    j' :| j <= j' && AccFrom(job.code, job.text, x, i, j');
    n' :| Acc(job.code, job.text, x, i, j', n');
  }

  /** So it has from the start. */
  lemma StartMet(job: Job, s: State, seen: Places, here: bool, j: nat) returns (e: nat)
    requires Over(job, s, seen, here) && Accepts(job.code, job.text, job.start, j)
    ensures AtHand(s, seen, here, |job.code|, e) && j <= e
  {
    hide AtHand, Goes, IdleSeen, Acc, AsFar;
    var n: nat :| Acc(job.code, job.text, 0, job.start, j, n);
    if AtHand(s, seen, here, 0, job.start) {
      e := EndMet(job, s, seen, here, 0, job.start, j, n);
    } else {
      var x: nat, k: nat :| Surpasses(job, s, seen, here, 0, job.start, x, k);
      var j', n' := FartherRun(job, 0, job.start, x, k, j, n);
      e := EndMet(job, s, seen, here, x, k, j', n');
    }
  }

  lemma EndLongest(job: Job, s: State)
    requires Running(job, s) && s.p == |job.code| && Sure(job) && (s.stack == [] || s.d == |job.text|)
    ensures forall j: nat :: Accepts(job.code, job.text, job.start, j) ==> j <= s.d || (s.bestSet && j <= s.matchEnd)
  {
    hide Shape, Neat, LoopsOk, Outside, Depth, FromStart, AccFrom, Sure, Covered, IdleSeen, Goes;
    var seen: Places :| Explored(job, s, seen, true);
    forall j: nat | Accepts(job.code, job.text, job.start, j)
      ensures j <= s.d || (s.bestSet && j <= s.matchEnd)
    {
      AcceptedInside(job, j);
      if s.d != |job.text| {
        assert Over(job, s, seen, true);
        var e := StartMet(job, s, seen, true, j);
      }
    }
  }

  /** And when nothing is left to go back to. */
  lemma NoneLonger(job: Job, s: State)
    requires Failing(job, s) && s.stack == [] && Sure(job)
    ensures forall j: nat :: Accepts(job.code, job.text, job.start, j) ==> s.bestSet && j <= s.matchEnd
  {
    hide Shape, Neat, Outside, AccFrom, Sure, Covered, IdleSeen, Goes;
    var seen: Places :| Explored(job, s, seen, false);
    assert Over(job, s, seen, false);
    forall j: nat | Accepts(job.code, job.text, job.start, j)
      ensures s.bestSet && j <= s.matchEnd
    {
      var e := StartMet(job, s, seen, false, j);
    }
  }
}
