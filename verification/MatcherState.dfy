/** The state of a backtracking match, and what is known of it in loops. */
module MatcherState {
  import opened Bytes
  import opened Bytecode
  import opened CodeShape
  import opened FreeRuns
  import opened Judgement
  import opened LoopDepth
  import opened LoopForms

  // ----- the state -----

  /** A saved alternative; `Dummy` only takes its place on the stack. */
  datatype FailurePoint = Dummy | Point(place: nat, position: nat, idle: set<byte>)

  /** The pattern as compiled, where its instructions start, the text, and where the match begins. */
  datatype Job = Job(code: seq<byte>, starts: set<nat>, text: seq<byte>, start: nat)

  /** `idle` has the groups in which nothing has been matched since they were last begun. */
  datatype State = State(p: nat, d: nat, idle: set<byte>, stack: seq<FailurePoint>, bestSet: bool, matchEnd: nat)

  /** The place is reached from the start of the code, where the match begins. */
  ghost predicate FromStart(job: Job, pc: nat, i: nat) {
    exists n: nat :: GoesIn(job.code, job.text, 0, job.start, pc, i, n)
  }

  /** So whatever is accepted from there is accepted from the start. */
  lemma FromStartSound(job: Job, pc: nat, i: nat, j: nat)
    requires FromStart(job, pc, i) && AccFrom(job.code, job.text, pc, i, j)
    ensures Accepts(job.code, job.text, job.start, j)
  {
    var n: nat :| GoesIn(job.code, job.text, 0, job.start, pc, i, n);
    GoesInAccepted(job.code, job.text, 0, job.start, pc, i, n, j);
  }

  lemma FromStartOn(job: Job, pc: nat, i: nat, to': nat, k: nat)
    requires FromStart(job, pc, i) && Goes(job.code, job.text, pc, i, to', k)
    ensures FromStart(job, to', k)
  {
    hide Goes;
    var n: nat :| GoesIn(job.code, job.text, 0, job.start, pc, i, n);
    assert GoesIn(job.code, job.text, 0, job.start, to', k, n + 1);
  }

  /** A place reached from the start, with the stack high enough for the loops around it. */
  ghost predicate PlaceOk(job: Job, pc: nat, i: nat, height: nat) {
    && pc in job.starts && i <= |job.text| && FromStart(job, pc, i)
    && Depth(job.code, job.starts, pc) <= height
  }

  // ----- when nothing that matters is thrown away -----

  ghost predicate AsFar(job: Job, pc: nat, i: nat, j: nat) {
    exists j': nat :: j <= j' && AccFrom(job.code, job.text, pc, i, j')
  }

  /** Whatever is accepted past the loop without its last turn, as much is accepted after it. */
  ghost predicate Harmless(job: Job, t: nat)
    requires t < |job.code| && TightAt(job.code, t)
  {
    forall i: nat, j: nat :: Leaves(job, t, i, j) ==> AsFar(job, t, i + 1, j)
  }

  /** The loop could have one more turn at `i`, and `j` is accepted without it. */
  ghost predicate Leaves(job: Job, t: nat, i: nat, j: nat)
    requires t < |job.code| && TightAt(job.code, t)
  {
    i < |job.text| && Passes(Body(job.code, t), job.text, i) && AccFrom(job.code, job.text, t + 3, i, j)
  }

  /** Past the loop there is nothing, so that more is accepted the further it has got. */
  ghost predicate Last(job: Job, t: nat) {
    forall i: nat, j: nat, k: nat :: i <= k <= |job.text| && AcceptsPast(job, t, i, j) ==> AsFar(job, t, k, j)
  }

  ghost predicate AcceptsPast(job: Job, t: nat, i: nat, j: nat) {
    AccFrom(job.code, job.text, t + 3, i, j)
  }

  /** What is dropped at the closing jump is no loss. */
  ghost predicate SafeAt(job: Job, t: nat) {
    || (TightAt(job.code, t) && Harmless(job, t))
    || DummyEnd(job.code, job.starts, t)
    || (Straight(job.code, job.starts, t) && Last(job, t))
  }

  /** No alternative is thrown away that could lead to a longer match. */
  ghost predicate Sure(job: Job) {
    && Neat(job.code, job.starts)
    && forall t :: Closes(job.code, job.starts, t) && MayPop(job.code, t) ==> SafeAt(job, t)
  }

  ghost predicate MayPop(code: seq<byte>, t: nat) {
    t + 3 <= |code| && 0 <= Target(code, t) && Target(code, t) + 3 < |code| && Pops(code, t)
  }

  // ----- the top of the stack in a loop -----

  /** Where the top of the stack is known: in a single instruction, in a group that saves nothing, or behind
      the dummy of one with alternatives. */
  ghost predicate Guarded(code: seq<byte>, starts: set<nat>, t: nat, y: nat) {
    if TightAt(code, t) then y == t || y == Target(code, t) + 3
    else if DummyEnd(code, starts, t) then y == t || y == t - 3
    else Straight(code, starts, t) && Target(code, t) + 3 <= y <= t
  }

  /** There it is a dummy, or the loop's own, from where the current turn began. */
  ghost predicate TopRight(job: Job, s: State, t: nat)
    requires t < |job.code|
  {
    s.stack != [] && var top := s.stack[|s.stack| - 1];
    top.Dummy? || (!DummyEnd(job.code, job.starts, t) && t + 3 <= |job.code| && top.place == t + 3 &&
      if TightAt(job.code, t) && s.p == t then
        top.position + 1 == s.d <= |job.text| && Passes(Body(job.code, t), job.text, top.position)
      else if s.p == Target(job.code, t) + 3 then top.position == s.d
      else GroupAt(job.code, t) && top.position <= s.d && (top.position == s.d ==> GroupOf(job.code, t) in s.idle))
  }

  /** The state of the loop closed at `t`; its closing jump is met only when its group has matched something. */
  ghost predicate LoopOk(job: Job, s: State, t: nat)
    requires t < |job.code|
  {
    && (Guarded(job.code, job.starts, t, s.p) ==> TopRight(job, s, t))
    && (s.p == t && !TightAt(job.code, t) && GroupAt(job.code, t) ==> GroupOf(job.code, t) !in s.idle)
  }

  ghost predicate LoopsOk(job: Job, s: State) {
    forall t :: Closes(job.code, job.starts, t) ==> LoopOk(job, s, t)
  }

  /** Saved places are closing jumps of no loop, and the top of the stack is not known there. */
  ghost predicate Outside(job: Job, stack: seq<FailurePoint>) {
    forall k :: 0 <= k < |stack| && stack[k].Point? ==> Free(job, stack[k].place)
  }

  ghost predicate Free(job: Job, y: nat) {
    forall t :: Closes(job.code, job.starts, t) ==> y != t && !Guarded(job.code, job.starts, t, y)
  }

  // ----- what has been explored -----

  type Places = set<(nat, nat)>

  /** At hand: explored, saved, or where the match is. */
  ghost predicate AtHand(s: State, seen: Places, here: bool, pc: nat, i: nat) {
    || (pc, i) in seen
    || (here && pc == s.p && i == s.d)
    || exists k :: 0 <= k < |s.stack| && s.stack[k].Point? && s.stack[k].place == pc && s.stack[k].position == i
  }

  /** Nothing is accepted from there that is not also accepted, as far or further, from a place at hand that is
      further on in the text. */
  ghost predicate Surpassed(job: Job, s: State, seen: Places, here: bool, pc: nat, i: nat) {
    exists x: nat, k: nat :: Surpasses(job, s, seen, here, pc, i, x, k)
  }

  ghost predicate Surpasses(job: Job, s: State, seen: Places, here: bool, pc: nat, i: nat, x: nat, k: nat) {
    && AtHand(s, seen, here, x, k) && i < k
    && forall j: nat :: AccFrom(job.code, job.text, pc, i, j) ==> AsFar(job, x, k, j)
  }

  ghost predicate Covered(job: Job, s: State, seen: Places, here: bool, pc: nat, i: nat) {
    AtHand(s, seen, here, pc, i) || Surpassed(job, s, seen, here, pc, i)
  }

  /** A group that is the body of a loop and in which nothing has been matched yet was begun here. */
  ghost predicate IdleSeen(job: Job, seen: Places, pc: nat, i: nat, idle: set<byte>) {
    forall t :: Closes(job.code, job.starts, t) && InBody(job.code, t, pc) && GroupOf(job.code, t) in idle ==>
      (Target(job.code, t) + 3, i) in seen
  }

  /** Every way to go on from what has been explored is at hand or surpassed; ends are recorded. */
  ghost predicate Explored(job: Job, s: State, seen: Places, here: bool) {
    && Covered(job, s, seen, here, 0, job.start)
    && (forall x, i, y: nat, k: nat :: (x, i) in seen && Goes(job.code, job.text, x, i, y, k) ==>
         Covered(job, s, seen, here, y, k))
    && (forall x, i :: (x, i) in seen ==> i <= |job.text| && (x == |job.code| ==> s.bestSet && i <= s.matchEnd))
    && (forall k :: 0 <= k < |s.stack| && s.stack[k].Point? ==>
         IdleSeen(job, seen, s.stack[k].place, s.stack[k].position, s.stack[k].idle))
    && (here ==> IdleSeen(job, seen, s.p, s.d, s.idle))
  }

  ghost predicate Complete(job: Job, s: State, here: bool) {
    exists seen: Places :: Explored(job, s, seen, here)
  }

  ghost predicate Base(job: Job, s: State) {
    && Shape(job.code, 0, |job.code|, job.starts, {}) && job.start <= |job.text|
    && (forall k :: 0 <= k < |s.stack| && s.stack[k].Point? ==> PlaceOk(job, s.stack[k].place, s.stack[k].position, k))
    && (s.bestSet ==> s.matchEnd <= |job.text| && Accepts(job.code, job.text, job.start, s.matchEnd))
  }

  /** Between two instructions. */
  ghost predicate Running(job: Job, s: State) {
    && Base(job, s) && PlaceOk(job, s.p, s.d, |s.stack|)
    && (Neat(job.code, job.starts) ==> Outside(job, s.stack) && LoopsOk(job, s))
    && (Sure(job) ==> Complete(job, s, true))
  }

  /** After an instruction has refused to match. */
  ghost predicate Failing(job: Job, s: State) {
    && Base(job, s)
    && (Neat(job.code, job.starts) ==> Outside(job, s.stack))
    && (Sure(job) ==> Complete(job, s, false))
  }

  // ----- entering and leaving loops -----

  /** A loop's fork and the start of its body. */
  lemma LoopPlaces(code: seq<byte>, starts: set<nat>, t: nat)
    requires Shape(code, 0, |code|, starts, {}) && Closes(code, starts, t)
    ensures t + 3 <= |code| && 0 <= Target(code, t) && Target(code, t) + 3 <= t && Target(code, t) in starts
    ensures code[Target(code, t)] == ON_FAILURE_JUMP && Target(code, Target(code, t)) == t + 3
    ensures Target(code, t) + 3 in starts && t + 3 in starts
  {
    hide Shape, Decode, Target;
    BackLoops(code, starts, t);
    var q := Target(code, t);
    InstructionOk(code, starts, t);
    OpcodeDecodes(code, t);
    InstructionOk(code, starts, q);
    OpcodeDecodes(code, q);
  }

  /** The body of a loop over a single instruction. */
  lemma TightPlaces(code: seq<byte>, starts: set<nat>, t: nat)
    requires Shape(code, 0, |code|, starts, {}) && Closes(code, starts, t) && TightAt(code, t)
    ensures Target(code, t) in starts && code[Target(code, t)] == ON_FAILURE_JUMP
    ensures Target(code, Target(code, t)) == t + 3
    ensures Target(code, t) + 3 in starts && !TakesNumber(code[Target(code, t) + 3])
  {
    hide Shape, Decode, Target;
    LoopPlaces(code, starts, t);
    InstructionOk(code, starts, Target(code, t) + 3);
    OpcodeDecodes(code, Target(code, t) + 3);
  }

  /** In such a loop there are no other places. */
  lemma InTightLoop(code: seq<byte>, starts: set<nat>, t: nat, x: nat)
    requires Shape(code, 0, |code|, starts, {}) && Closes(code, starts, t) && TightAt(code, t)
    requires x in starts && InLoop(code, t, x)
    ensures x == t || x == Target(code, t) + 3
  {
    hide Shape, Decode, Target;
    TightPlaces(code, starts, t);
    InstructionOk(code, starts, Target(code, t) + 3);
  }

  lemma LeadsOn(code: seq<byte>, x: nat, y: nat)
    requires Leads(code, x, y) && Decode(code, x) != Bad
    ensures Decode(code, x).Jump? ==> y == Decode(code, x).target
    ensures Decode(code, x).Fork? ==> y == x + 3 || y == Decode(code, x).target
    ensures !Decode(code, x).Jump? && !Decode(code, x).Fork? ==> y == x + Decode(code, x).Length()
  {
  }

  lemma EntryOnly(code: seq<byte>, starts: set<nat>, t: nat, x: nat, y: nat)
    requires Shape(code, 0, |code|, starts, {}) && t in starts && t < |code| && x in starts && x < |code|
    requires Leads(code, x, y) && InLoop(code, t, y) && !InLoop(code, t, x)
    ensures EntryOk(code, t, x, y)
  {
    hide StartOk, Leads, InLoop;
    assert LoopEntry(code, t, x, y);
  }

  /** How a place of a loop is come to. */
  lemma IntoLoop(code: seq<byte>, starts: set<nat>, x: nat, y: nat, t: nat)
    requires Shape(code, 0, |code|, starts, {}) && Closes(code, starts, t) && x in starts && Leads(code, x, y)
    requires t + 3 <= |code| && Target(code, t) + 3 <= y <= t
    ensures x < |code| && Decode(code, x) != Bad
    ensures || (Target(code, t) + 3 <= x < t)
            || (y == Target(code, t) + 3 && (x == Target(code, t) || code[x] == DUMMY_FAILURE_JUMP))
  {
    hide Shape, Decode, Target;
    LeadsInside(code, x, y);
    LoopPlaces(code, starts, t);
    EndIsStart(code, 0, |code|, starts, {});
    InstructionOk(code, starts, x);
    if InLoop(code, t, x) {
      if x == t {
        OpcodeDecodes(code, t);
        LeadsOn(code, t, y);
      }
    } else {
      EntryOnly(code, starts, t, x, y);
    }
  }

  /** A jump or a fork leads to its target, or for a fork to what comes next. */
  lemma NumberLeads(code: seq<byte>, x: nat, y: nat)
    requires x < |code| && Leads(code, x, y) && Decode(code, x) != Bad
    ensures TakesNumber(code[x]) ==>
      x + 3 <= |code| && (y == Target(code, x) || (code[x] == ON_FAILURE_JUMP && y == x + 3))
    ensures !TakesNumber(code[x]) ==> y == x + Decode(code, x).Length()
  {
    hide Target;
  }

  /** The closing jump of a loop over a group is met only after the group's end. */
  lemma BeforeClosing(code: seq<byte>, starts: set<nat>, x: nat, t: nat)
    requires Shape(code, 0, |code|, starts, {}) && Neat(code, starts) && Closes(code, starts, t)
    requires GroupAt(code, t) && !TightAt(code, t) && x in starts && Leads(code, x, t)
    ensures x == t - 3
  {
    hide Shape, Decode, Target;
    LeadsInside(code, x, t);
    InstructionOk(code, starts, x);
    NumberLeads(code, x, t);
    assert NeatAt(code, starts, t) && JumpNeat(code, starts, x);
    InstructionOk(code, starts, t - 3);
    MemoryLength(code, t - 3);
    if code[x] == MAYBE_POP_JUMP {
      LoopPlaces(code, starts, x);
    } else if TakesNumber(code[x]) {
      OpcodeDecodes(code, x);
    }
  }

  /** The end of a group of alternatives is met only after the dummy. */
  lemma BeforeEnd(code: seq<byte>, starts: set<nat>, x: nat, t: nat)
    requires Shape(code, 0, |code|, starts, {}) && Neat(code, starts) && Closes(code, starts, t)
    requires DummyEnd(code, starts, t) && x in starts && Leads(code, x, t - 3)
    ensures x == t - 4 && code[x] == PUSH_DUMMY_FAILURE
  {
    hide Shape, Decode, Target;
    LeadsInside(code, x, t - 3);
    InstructionOk(code, starts, x);
    NumberLeads(code, x, t - 3);
    NotBoth(code, t);
    assert NeatAt(code, starts, t) && JumpNeat(code, starts, x);
    InstructionOk(code, starts, t - 4);
    if code[x] == MAYBE_POP_JUMP {
      LoopPlaces(code, starts, x);
    } else if TakesNumber(code[x]) {
      OpcodeDecodes(code, x);
    }
  }

  /** The body of a group is entered only by its start. */
  lemma IntoBody(code: seq<byte>, starts: set<nat>, x: nat, y: nat, t: nat)
    requires Shape(code, 0, |code|, starts, {}) && Neat(code, starts) && Closes(code, starts, t)
    requires x in starts && Leads(code, x, y) && InBody(code, t, y)
    ensures x < |code| && Decode(code, x) != Bad
    ensures InBody(code, t, x) || (x == Target(code, t) + 3 && code[x] == START_MEMORY)
  {
    hide Shape, Decode, Target;
    NotBoth(code, t);
    assert NeatAt(code, starts, t);
    IntoLoop(code, starts, x, y, t);
    InstructionOk(code, starts, t - 3);
    MemoryLength(code, t - 3);
  }

  lemma MemoryLength(code: seq<byte>, x: nat)
    requires x < |code| && Decode(code, x) != Bad && (code[x] == START_MEMORY || code[x] == STOP_MEMORY)
    ensures Decode(code, x) == Memory && Decode(code, x).Length() == 3
  {
  }

  // ----- the state of loops, step by step -----

  /** Where what a fork saves leads, nothing is known of the stack. */
  lemma ForkFree(job: Job, x: nat)
    requires Shape(job.code, 0, |job.code|, job.starts, {}) && Neat(job.code, job.starts)
    requires x in job.starts && x < |job.code| && job.code[x] == ON_FAILURE_JUMP
    ensures x + 3 <= |job.code| && 0 <= Target(job.code, x) && Free(job, Target(job.code, x))
  {
    hide Shape, Decode, Target, Straight, TightAt, GroupAt, NeatAt;
    var code, starts := job.code, job.starts;
    InstructionOk(code, starts, x);
    OpcodeDecodes(code, x);
    JumpLeads(code, x);
    var y: nat := Target(code, x);
    forall t | Closes(code, starts, t)
      ensures y != t && !Guarded(code, starts, t, y)
    {
      LoopPlaces(code, starts, t);
      ForkUnguarded(code, starts, x, t);
    }
  }

  lemma ForkUnguarded(code: seq<byte>, starts: set<nat>, x: nat, t: nat)
    requires Shape(code, 0, |code|, starts, {}) && Neat(code, starts) && Closes(code, starts, t)
    requires x in starts && x < |code| && code[x] == ON_FAILURE_JUMP && x + 3 <= |code| && 0 <= Target(code, x)
    requires Leads(code, x, Target(code, x))
    ensures Target(code, x) != t && !Guarded(code, starts, t, Target(code, x))
  {
    hide Shape, Decode, Target;
    var y: nat := Target(code, x);
    LoopPlaces(code, starts, t);
    assert NeatAt(code, starts, t);
    if TightAt(code, t) {
      TightPlaces(code, starts, t);
      if y == t || y == Target(code, t) + 3 {
        IntoLoop(code, starts, x, y, t);
        if x < t {
          InTightLoop(code, starts, t, x);
        }
      }
    } else {
      assert JumpNeat(code, starts, x);
      if Guarded(code, starts, t, y) {
        GuardedSpan(code, starts, t, y);
        IntoLoop(code, starts, x, y, t);
        if x < t {
          StraightBody(code, starts, t, x);
        }
      }
    }
  }

  lemma GuardedSpan(code: seq<byte>, starts: set<nat>, t: nat, y: nat)
    requires !TightAt(code, t) && Guarded(code, starts, t, y)
    ensures GroupAt(code, t) && Target(code, t) + 3 <= y <= t
  {
  }

  /** In the body of such a group nothing jumps. */
  lemma StraightBody(code: seq<byte>, starts: set<nat>, t: nat, x: nat)
    requires Shape(code, 0, |code|, starts, {}) && Neat(code, starts) && Closes(code, starts, t) && GroupAt(code, t)
    requires x in starts && Target(code, t) + 3 <= x < t && Straight(code, starts, t)
    ensures x < |code| && !TakesNumber(code[x]) && code[x] != PUSH_DUMMY_FAILURE && x <= t - 3
  {
    hide Shape, Decode, Target;
    NotBoth(code, t);
    assert NeatAt(code, starts, t);
    InstructionOk(code, starts, t - 3);
    MemoryLength(code, t - 3);
  }

  /** The groups idle after an instruction: none once something has been matched. */
  function IdleAfter(code: seq<byte>, p: nat, idle: set<byte>): set<byte>
    requires p < |code|
  {
    if Consumed(Decode(code, p)) > 0 then {}
    else if code[p] == START_MEMORY && p + 1 < |code| then idle + {code[p + 1]}
    else idle
  }

  /** The group that is the body of a loop has matched nothing, so that its end leaves the loop. */
  predicate Leaving(code: seq<byte>, starts: set<nat>, p: nat, idle: set<byte>) {
    && p < |code| && code[p] == STOP_MEMORY && Closes(code, starts, p + 3) && GroupAt(code, p + 3)
    && GroupOf(code, p + 3) in idle
  }

  /** What the instruction at the place does to all but the place, as far as loops are concerned. */
  predicate Turns(job: Job, s: State, s': State)
    requires s.p < |job.code|
  {
    var op := job.code[s.p];
    if op == ON_FAILURE_JUMP then
      && s.p + 3 <= |job.code| && 0 <= Target(job.code, s.p) && s'.p == s.p + 3 && s'.d == s.d && s'.idle == s.idle
      && s'.stack == s.stack + [Point(Target(job.code, s.p), s.d, s.idle)]
    else if TakesNumber(op) then
      s'.d == s.d && s'.idle == s.idle && (op == DUMMY_FAILURE_JUMP ==> DummyOnTop(s'))
    else
      && Passes(Decode(job.code, s.p), job.text, s.d) && s'.d == s.d + Consumed(Decode(job.code, s.p))
      && s'.idle == IdleAfter(job.code, s.p, s.idle) && s'.stack == s.stack
      && (op == PUSH_DUMMY_FAILURE ==> DummyOnTop(s'))
  }

  predicate DummyOnTop(s: State) {
    s.stack != [] && s.stack[|s.stack| - 1].Dummy?
  }

  lemma LoopsKept(job: Job, s: State, s': State)
    requires Shape(job.code, 0, |job.code|, job.starts, {}) && Neat(job.code, job.starts) && LoopsOk(job, s)
    requires s.p in job.starts && s.p < |job.code| && Leads(job.code, s.p, s'.p) && Turns(job, s, s')
    requires !Leaving(job.code, job.starts, s.p, s.idle)
    ensures LoopsOk(job, s')
  {
    hide Shape, Decode, Target, Neat, Turns, TopRight, Guarded, Leaving, TightAt, DummyEnd, Straight;
    forall t | Closes(job.code, job.starts, t)
      ensures LoopOk(job, s', t)
    {
      LoopPlaces(job.code, job.starts, t);
      if s'.p == t && !TightAt(job.code, t) && GroupAt(job.code, t) {
        ClosingKept(job, s, s', t);
      }
      if Guarded(job.code, job.starts, t, s'.p) {
        if TightAt(job.code, t) {
          TightKept(job, s, s', t);
        } else if DummyEnd(job.code, job.starts, t) {
          DummyKept(job, s, s', t);
        } else {
          StraightKept(job, s, s', t);
        }
      }
    }
  }

  lemma ClosingKept(job: Job, s: State, s': State, t: nat)
    requires Shape(job.code, 0, |job.code|, job.starts, {}) && Neat(job.code, job.starts)
    requires s.p in job.starts && s.p < |job.code| && Leads(job.code, s.p, s'.p) && Turns(job, s, s')
    requires Closes(job.code, job.starts, t) && !Leaving(job.code, job.starts, s.p, s.idle)
    requires s'.p == t && !TightAt(job.code, t) && GroupAt(job.code, t)
    ensures GroupOf(job.code, t) !in s'.idle
  {
    hide Shape, Neat, Target, TightAt;
    BeforeClosing(job.code, job.starts, s.p, t);
    InstructionOk(job.code, job.starts, s.p);
    MemoryLength(job.code, s.p);
  }

  lemma TightKept(job: Job, s: State, s': State, t: nat)
    requires Shape(job.code, 0, |job.code|, job.starts, {}) && Neat(job.code, job.starts)
    requires Closes(job.code, job.starts, t) && LoopOk(job, s, t)
    requires s.p in job.starts && s.p < |job.code| && Leads(job.code, s.p, s'.p) && Turns(job, s, s')
    requires TightAt(job.code, t) && Guarded(job.code, job.starts, t, s'.p)
    ensures TopRight(job, s', t)
  {
    hide Shape, Neat, Decode, Target;
    var code, starts := job.code, job.starts;
    TightPlaces(code, starts, t);
    TightNoDummy(code, starts, t);
    IntoLoop(code, starts, s.p, s'.p, t);
    if Target(code, t) + 3 <= s.p < t {
      InTightLoop(code, starts, t, s.p);
      NumberLeads(code, s.p, s'.p);
      SingleTurn(job, s, s', t);
    } else {
      NumberLeads(code, s.p, s'.p);
    }
  }

  lemma TightNoDummy(code: seq<byte>, starts: set<nat>, t: nat)
    requires TightAt(code, t)
    ensures !DummyEnd(code, starts, t) && !GroupAt(code, t)
  {
    if GroupAt(code, t) {
      NotBoth(code, t);
    }
  }

  /** Once through a body of a single instruction. */
  lemma SingleTurn(job: Job, s: State, s': State, t: nat)
    requires s.p < |job.code| && t < |job.code| && TightAt(job.code, t) && s.p == Target(job.code, t) + 3 && s'.p == t
    requires Turns(job, s, s') && !TakesNumber(job.code[s.p]) && !DummyEnd(job.code, job.starts, t)
    requires TopRight(job, s, t)
    ensures TopRight(job, s', t)
  {
    hide Target;
  }

  lemma DummyKept(job: Job, s: State, s': State, t: nat)
    requires Shape(job.code, 0, |job.code|, job.starts, {}) && Neat(job.code, job.starts)
    requires Closes(job.code, job.starts, t) && LoopOk(job, s, t)
    requires s.p in job.starts && s.p < |job.code| && Leads(job.code, s.p, s'.p) && Turns(job, s, s')
    requires !TightAt(job.code, t) && DummyEnd(job.code, job.starts, t)
    requires Guarded(job.code, job.starts, t, s'.p)
    ensures TopRight(job, s', t)
  {
    hide Shape, Neat, Decode, Target;
    if s'.p == t {
      BeforeClosing(job.code, job.starts, s.p, t);
    } else {
      BeforeEnd(job.code, job.starts, s.p, t);
    }
  }

  lemma StraightKept(job: Job, s: State, s': State, t: nat)
    requires Shape(job.code, 0, |job.code|, job.starts, {}) && Neat(job.code, job.starts)
    requires Closes(job.code, job.starts, t) && LoopOk(job, s, t)
    requires s.p in job.starts && s.p < |job.code| && Leads(job.code, s.p, s'.p) && Turns(job, s, s')
    requires !TightAt(job.code, t) && !DummyEnd(job.code, job.starts, t)
    requires Guarded(job.code, job.starts, t, s'.p)
    ensures TopRight(job, s', t)
  {
    hide Shape, Neat, Decode, Target, Straight;
    var code, starts := job.code, job.starts;
    GuardedSpan(code, starts, t, s'.p);
    LoopPlaces(code, starts, t);
    IntoLoop(code, starts, s.p, s'.p, t);
    NumberLeads(code, s.p, s'.p);
    if Target(code, t) + 3 <= s.p < t {
      StraightBody(code, starts, t, s.p);
      StraightTurn(job, s, s', t);
    }
  }

  lemma StraightTurn(job: Job, s: State, s': State, t: nat)
    requires s.p < |job.code| && t < |job.code| && GroupAt(job.code, t) && Target(job.code, t) + 3 <= s.p < s'.p
    requires !TightAt(job.code, t) && !DummyEnd(job.code, job.starts, t)
    requires Turns(job, s, s') && !TakesNumber(job.code[s.p]) && TopRight(job, s, t)
    requires s'.p == s.p + Decode(job.code, s.p).Length()
    ensures TopRight(job, s', t)
  {
    hide Target, DummyEnd;
  }
}
