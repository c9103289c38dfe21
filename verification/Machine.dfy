/** The matcher as a machine: what one instruction may do to the place in the code, the position in
    the text and the failure stack, and what a whole run may answer. */
module Machine {
  import opened Bytecode
  import opened Bytes
  import opened CodeShape
  import opened FreeRuns
  import opened Judgement
  import opened LoopDepth
  import opened LoopForms
  import opened MatcherState
  import opened MatcherSteps

  datatype Outcome = Matched(length: nat) | NoMatch | OutOfFuel

  /** The code is part of it, since closing jumps of loops are rewritten. */
  datatype Config = Config(code: seq<byte>, p: nat, d: nat, idle: set<byte>, stack: seq<FailurePoint>,
                           bestSet: bool, matchEnd: nat)

  function First(code: seq<byte>, start: nat): Config {
    Config(code, 0, start, {}, [], false, 0)
  }

  // ----- one instruction -----

  /** `stop_memory` at `p` closes a group that is all of the body of a loop: `place` is where the loop is left if
      the group has matched nothing. */
  predicate Forced(code: seq<byte>, p: nat, place: int) {
    && p + 6 <= |code| && code[p + 3] in {POP_FAILURE_JUMP, MAYBE_POP_JUMP, JUMP, DUMMY_FAILURE_JUMP}
    && var p1 := Target(code, p + 3);
    && 0 <= p1 < p + 6 && p1 + 4 < |code|
    && code[p1] == ON_FAILURE_JUMP && code[p1 + 3] == START_MEMORY && code[p1 + 4] == code[p + 1]
    && place == Target(code, p1)
  }

  ghost predicate CanForce(code: seq<byte>, p: nat) {
    exists place: nat :: Forced(code, p, place)
  }

  /** Where the loop ends is saved, to be gone to at once. */
  ghost predicate LeavesLoop(c: Config, c': Config) {
    exists place: nat :: Forced(c.code, c.p, place) && c' == c.(stack := c.stack + [Point(place, c.d, c.idle)])
  }

  /** A jump, with the stack it leaves. */
  ghost predicate JumpsTo(c: Config, c': Config, code: seq<byte>, stack: seq<FailurePoint>) {
    && c.p + 3 <= |c.code| && c'.p == Target(c.code, c.p)
    && c' == c.(code := code, p := c'.p, stack := stack)
  }

  /** The closing jump of a loop rewrites itself and is taken. */
  ghost predicate Decides(c: Config, c': Config) {
    && c.p + 3 <= |c.code| && 0 <= Target(c.code, c.p) && Target(c.code, c.p) + 3 < |c.code|
    && var pop := Pops(c.code, c.p);
    && (pop ==> c.stack != [])
    && var stack := if pop then c.stack[..|c.stack| - 1] else c.stack;
    JumpsTo(c, c', c.code[c.p := if pop then POP_FAILURE_JUMP else JUMP], stack)
  }

  /** One instruction is carried out, or fails. */
  ghost predicate Moves(text: seq<byte>, c: Config, c': Config, ok: bool)
    requires c.p < |c.code|
  {
    var code, p, stack := c.code, c.p, c.stack;
    var op, instr := code[p], Decode(code, p);
    if op == STOP_MEMORY then
      && p + 1 < |code|
      && var nothing := code[p + 1] in c.idle;
      if ok then !(nothing && CanForce(code, p)) && c' == c.(p := p + 3) else nothing && LeavesLoop(c, c')
    else if op == ON_FAILURE_JUMP then
      && ok && p + 3 <= |code| && 0 <= Target(code, p)
      && c' == c.(p := p + 3, stack := stack + [Point(Target(code, p), c.d, c.idle)])
    else if op == PUSH_DUMMY_FAILURE then ok && c' == c.(p := p + 1, stack := stack + [Dummy])
    else if op == DUMMY_FAILURE_JUMP then ok && JumpsTo(c, c', code, stack + [Dummy])
    else if op == JUMP || op == JUMP_PAST_ALT then ok && JumpsTo(c, c', code, stack)
    else if op == POP_FAILURE_JUMP then ok && stack != [] && JumpsTo(c, c', code, stack[..|stack| - 1])
    else if op == MAYBE_POP_JUMP then ok && Decides(c, c')
    else
      && (ok <==> Passes(instr, text, c.d))
      && c' == if ok then c.(p := p + instr.Length(), d := c.d + Consumed(instr), idle := IdleAfter(code, p, c.idle))
               else c.(p := c'.p, d := c'.d)
  }

  // ----- failing -----

  /** Failure points that are passed over: dummies, and those at closing jumps of loops. */
  predicate Skipped(code: seq<byte>, f: FailurePoint) {
    f.Point? ==>
      && f.place + 3 <= |code| && code[f.place] in {MAYBE_POP_JUMP, POP_FAILURE_JUMP, JUMP}
      && 0 <= Target(code, f.place) < |code| && code[Target(code, f.place)] == ON_FAILURE_JUMP
  }

  /** The uppermost failure point that is not passed over is where matching goes on. */
  ghost predicate Resumes(c: Config, c': Config, resumed: bool) {
    && c' == c.(p := c'.p, d := c'.d, idle := c'.idle, stack := c'.stack)
    && |c'.stack| <= |c.stack| && c'.stack == c.stack[..|c'.stack|]
    && (forall k :: |c'.stack| + (if resumed then 1 else 0) <= k < |c.stack| ==> Skipped(c.code, c.stack[k]))
    && if resumed then
         && |c'.stack| < |c.stack| && c.stack[|c'.stack|] == Point(c'.p, c'.d, c'.idle)
         && !Skipped(c.code, Point(c'.p, c'.d, c'.idle))
       else c'.stack == []
  }

  // ----- a whole run -----

  /** At the end of the code: the longer of the best match and this one. */
  function Kept(c: Config): Config {
    if !c.bestSet || c.d > c.matchEnd then c.(bestSet := true, matchEnd := c.d) else c
  }

  predicate Answers(start: nat, end: nat, r: Outcome) {
    r.Matched? && start + r.length == end
  }

  /** `r` is an answer the machine can give from `c` in at most `n` instructions; the end of the code counts as one. */
  ghost predicate Runs(text: seq<byte>, start: nat, c: Config, n: nat, r: Outcome)
    decreases n, 1
  {
    if n == 0 then r == OutOfFuel
    else if c.p >= |c.code| then
      if c.d == |text| then Answers(start, c.d, r)
      else if c.stack == [] then Answers(start, Kept(c).matchEnd, r)
      else Backs(text, start, Kept(c), n, r)
    else
      exists c', ok :: Moves(text, c, c', ok) &&
        if ok then Runs(text, start, c', n - 1, r) else Backs(text, start, c', n, r)
  }

  ghost predicate Backs(text: seq<byte>, start: nat, c: Config, n: nat, r: Outcome)
    requires n > 0
    decreases n, 0
  {
    exists c', resumed :: Resumes(c, c', resumed) &&
      if resumed then Runs(text, start, c', n - 1, r)
      else if c.bestSet then Answers(start, c.matchEnd, r)
      else r == NoMatch
  }

  /** Whatever can be answered from `c` can be answered from `c0`. */
  ghost predicate Leading(text: seq<byte>, start: nat, c0: Config, n0: nat, c: Config, n: nat) {
    forall r :: Runs(text, start, c, n, r) ==> Runs(text, start, c0, n0, r)
  }

  ghost predicate BackLeading(text: seq<byte>, start: nat, c0: Config, n0: nat, c: Config, n: nat)
    requires n > 0
  {
    forall r :: Backs(text, start, c, n, r) ==> Runs(text, start, c0, n0, r)
  }

  lemma Stepped(text: seq<byte>, start: nat, c0: Config, n0: nat, c: Config, n: nat, c': Config, ok: bool)
    requires Leading(text, start, c0, n0, c, n) && n > 0 && c.p < |c.code| && Moves(text, c, c', ok)
    ensures if ok then Leading(text, start, c0, n0, c', n - 1) else BackLeading(text, start, c0, n0, c', n)
  {
    hide Moves, Backs;
    if ok {
      forall r | Runs(text, start, c', n - 1, r)
        ensures Runs(text, start, c0, n0, r)
      {
        assert Runs(text, start, c, n, r);
      }
    } else {
      forall r | Backs(text, start, c', n, r)
        ensures Runs(text, start, c0, n0, r)
      {
        assert Runs(text, start, c, n, r);
      }
    }
  }

  lemma Ended(text: seq<byte>, start: nat, c0: Config, n0: nat, c: Config, n: nat)
    requires Leading(text, start, c0, n0, c, n) && n > 0 && c.p >= |c.code| && c.d != |text| && c.stack != []
    ensures BackLeading(text, start, c0, n0, Kept(c), n)
  {
    hide Moves, Backs;
    forall r | Backs(text, start, Kept(c), n, r)
      ensures Runs(text, start, c0, n0, r)
    {
      assert Runs(text, start, c, n, r);
    }
  }

  lemma Resumed(text: seq<byte>, start: nat, c0: Config, n0: nat, c: Config, n: nat, c': Config)
    requires n > 0 && BackLeading(text, start, c0, n0, c, n) && Resumes(c, c', true)
    ensures Leading(text, start, c0, n0, c', n - 1)
  {
    hide Resumes, Runs;
    forall r | Runs(text, start, c', n - 1, r)
      ensures Runs(text, start, c0, n0, r)
    {
      assert Backs(text, start, c, n, r);
    }
  }

  lemma LeadingItself(text: seq<byte>, start: nat, c: Config, n: nat)
    ensures Leading(text, start, c, n, c, n)
  {
  }

  lemma Answered(text: seq<byte>, start: nat, c0: Config, n0: nat, c: Config, n: nat, r: Outcome)
    requires Leading(text, start, c0, n0, c, n) && n > 0 && c.p >= |c.code|
    requires if c.d == |text| then Answers(start, c.d, r) else c.stack == [] && Answers(start, Kept(c).matchEnd, r)
    ensures Runs(text, start, c0, n0, r)
  {
    hide Moves, Backs;
    assert Runs(text, start, c, n, r);
  }

  lemma Refused(text: seq<byte>, start: nat, c0: Config, n0: nat, c: Config, n: nat, r: Outcome, c': Config)
    requires n > 0 && BackLeading(text, start, c0, n0, c, n) && Resumes(c, c', false)
    requires if c.bestSet then Answers(start, c.matchEnd, r) else r == NoMatch
    ensures Runs(text, start, c0, n0, r)
  {
    hide Resumes, Runs;
    assert Backs(text, start, c, n, r);
  }

  lemma Spent(text: seq<byte>, start: nat, c0: Config, n0: nat, c: Config)
    requires Leading(text, start, c0, n0, c, 0)
    ensures Runs(text, start, c0, n0, OutOfFuel)
  {
    hide Moves, Backs;
    assert Runs(text, start, c, 0, OutOfFuel);
  }

  // ----- runs come to an end -----

  /** How far a place is from the end of the code. The closing jump of a loop over a single instruction counts as
      its fork, and a little more. */
  function Height(code: seq<byte>, place: nat): (r: nat)
    ensures r <= |code| + 1
  {
    if place < |code| && code[place] == MAYBE_POP_JUMP && TightAt(code, place) && Target(code, place) <= |code| then
      |code| - Target(code, place) + 1
    else if place <= |code| then |code| - place else 0
  }

  function Times(n: nat, m: nat): nat {
    n * m
  }

  /** The groups around a place that are bodies of loops and have matched something: each can be gone through
      once more. */
  ghost function Turned(job: Job, place: nat, idle: set<byte>): set<nat> {
    set t | t in job.starts && Closes(job.code, job.starts, t) && TurnedAt(job.code, t, place, idle)
  }

  predicate TurnedAt(code: seq<byte>, t: nat, place: nat, idle: set<byte>) {
    GroupAt(code, t) && Target(code, t) + 3 < place <= t && GroupOf(code, t) !in idle
  }

  /** Characters to come count more than any number of turns, and a turn more than the whole of the code. */
  ghost function Rank(job: Job, place: nat, position: nat, idle: set<byte>): nat {
    var m := |job.code| + 2;
    Times(if position <= |job.text| then |job.text| - position else 0, Times(m, m))
      + Times(|Turned(job, place, idle)|, m) + Height(job.code, place)
  }

  ghost function Weight(job: Job, place: nat, position: nat, idle: set<byte>): (r: nat)
    ensures r > 0
  {
    Pow2(Rank(job, place, position, idle))
  }

  ghost function PointWeight(job: Job, f: FailurePoint): nat {
    if f.Point? then Weight(job, f.place, f.position, f.idle) else 0
  }

  ghost function StackWeight(job: Job, stack: seq<FailurePoint>): nat {
    if stack == [] then 0
    else StackWeight(job, stack[..|stack| - 1]) + PointWeight(job, stack[|stack| - 1])
  }

  /** What is still to be done: the current place and the saved ones, each worth more the further it is from the end. */
  ghost function Left(job: Job, c: Config): (r: nat)
    ensures r > 0
  {
    Weight(job, c.p, c.d, c.idle) + StackWeight(job, c.stack)
  }

  lemma StackPushed(job: Job, stack: seq<FailurePoint>, f: FailurePoint)
    ensures StackWeight(job, stack + [f]) == StackWeight(job, stack) + PointWeight(job, f)
  {
    assert (stack + [f])[..|stack|] == stack;
  }

  lemma {:induction false} StackPrefix(job: Job, stack: seq<FailurePoint>, n: nat)
    requires n < |stack|
    ensures StackWeight(job, stack[..n]) + PointWeight(job, stack[n]) <= StackWeight(job, stack)
  {
    hide PointWeight;
    var init := stack[..|stack| - 1];
    if n < |init| {
      StackPrefix(job, init, n);
      assert init[..n] == stack[..n];
    }
  }

  lemma {:induction false} StackShorter(job: Job, stack: seq<FailurePoint>)
    requires stack != []
    ensures StackWeight(job, stack[..|stack| - 1]) <= StackWeight(job, stack)
  {
    hide PointWeight;
  }

  lemma FewerTimes(n: nat, k: nat, m: nat)
    requires 0 < k <= n
    ensures Times(n - k, m) + m <= Times(n, m)
  {
    assert (n - k) * m + k * m == n * m && k * m >= m;
  }

  lemma MoreTimes(a: nat, b: nat, m: nat)
    requires a <= b
    ensures Times(a, m) <= Times(b, m)
  {
    assert (b - a) * m + a * m == b * m;
  }

  lemma TurnedFew(job: Job, place: nat, idle: set<byte>)
    ensures |Turned(job, place, idle)| <= |job.code|
  {
    SubsetSize(Turned(job, place, idle), Below(|job.code|));
  }

  function Below(n: nat): (r: set<nat>)
    ensures |r| == n && forall t: nat :: t in r <==> t < n
  {
    if n == 0 then {} else Below(n - 1) + {n - 1}
  }

  /** An instruction leads nearer to the end, be it of the text or of the code. */
  lemma Nearer(job: Job, p: nat, d: nat, idle: set<byte>, to': nat, e: nat, idle': set<byte>)
    requires Shape(job.code, 0, |job.code|, job.starts, {}) && Neat(job.code, job.starts)
    requires p in job.starts && d <= |job.text| && p < |job.code| && Goes(job.code, job.text, p, d, to', e)
    requires (e == d ==> IdleNext(job.code, p, idle, idle')) && Entered(job, p, idle)
    ensures d <= e <= |job.text| && Rank(job, to', e, idle') < Rank(job, p, d, idle)
    ensures job.code[p] == ON_FAILURE_JUMP ==> e == d && Rank(job, to', e, idle') + 2 <= Rank(job, p, d, idle)
  {
    hide Shape, Neat, Times, Goes, Height, Turned, Entered;
    GoesLeads(job, p, d, to', e);
    var m := |job.code| + 2;
    if e > d {
      FewerTimes(|job.text| - d, e - d, Times(m, m));
      TurnedFew(job, to', idle');
      FewerTimes(m, m - |job.code|, m);
      MoreTimes(|Turned(job, to', idle')|, |job.code|, m);
    } else {
      Lower(job, p, d, idle, to', idle');
    }
  }

  predicate IdleNext(code: seq<byte>, p: nat, idle: set<byte>, idle': set<byte>)
    requires p < |code|
  {
    if code[p] == START_MEMORY then Begins(code, p, idle, idle') else idle' == idle
  }

  /** The closing jump of a loop over a group is met only when the group has matched something. */
  predicate Entered(job: Job, p: nat, idle: set<byte>) {
    Closes(job.code, job.starts, p) && GroupAt(job.code, p) ==> GroupOf(job.code, p) !in idle
  }

  lemma GoesLeads(job: Job, p: nat, d: nat, to': nat, e: nat)
    requires Shape(job.code, 0, |job.code|, job.starts, {}) && p in job.starts && d <= |job.text|
    requires Goes(job.code, job.text, p, d, to', e)
    ensures p < |job.code| && Leads(job.code, p, to') && d <= e <= |job.text| && (Single(Decode(job.code, p)) ==> e > d)
    ensures job.code[p] == ON_FAILURE_JUMP ==> e == d
  {
    hide Shape;
    InstructionOk(job.code, job.starts, p);
    OpcodeDecodes(job.code, p);
  }

  lemma Lower(job: Job, p: nat, d: nat, idle: set<byte>, to': nat, idle': set<byte>)
    requires Shape(job.code, 0, |job.code|, job.starts, {}) && Neat(job.code, job.starts)
    requires p in job.starts && p < |job.code| && Leads(job.code, p, to') && !Single(Decode(job.code, p))
    requires IdleNext(job.code, p, idle, idle') && Entered(job, p, idle)
    ensures var m := |job.code| + 2;
      Times(|Turned(job, to', idle')|, m) + Height(job.code, to') + (if job.code[p] == ON_FAILURE_JUMP then 2 else 1) <=
        Times(|Turned(job, p, idle)|, m) + Height(job.code, p)
  {
    hide Shape, Neat, Times, Height, Leads, Decode, Target, GroupAt, TightAt;
    var code, starts, m := job.code, job.starts, |job.code| + 2;
    FewerTurns(job, p, idle, to', idle');
    if Closes(code, starts, p) && !TightAt(code, p) {
      TurnEnds(job, p, idle, to', idle');
      FewerTimes(|Turned(job, p, idle)|, |Turned(job, p, idle)| - |Turned(job, to', idle')|, m);
    } else {
      MoreTimes(|Turned(job, to', idle')|, |Turned(job, p, idle)|, m);
      LowerHeight(job, p, to');
    }
  }

  /** No loop is turned anew. */
  lemma FewerTurns(job: Job, p: nat, idle: set<byte>, to': nat, idle': set<byte>)
    requires Shape(job.code, 0, |job.code|, job.starts, {}) && Neat(job.code, job.starts)
    requires p in job.starts && p < |job.code| && Leads(job.code, p, to')
    requires IdleNext(job.code, p, idle, idle')
    ensures Turned(job, to', idle') <= Turned(job, p, idle) && |Turned(job, to', idle')| <= |Turned(job, p, idle)|
  {
    hide Shape, Neat, Leads, Decode, Target;
    forall t | t in Turned(job, to', idle')
      ensures t in Turned(job, p, idle)
    {
      StillTurned(job, p, idle, to', idle', t);
    }
    SubsetSize(Turned(job, to', idle'), Turned(job, p, idle));
  }

  lemma StillTurned(job: Job, p: nat, idle: set<byte>, to': nat, idle': set<byte>, t: nat)
    requires Shape(job.code, 0, |job.code|, job.starts, {}) && Neat(job.code, job.starts)
    requires p in job.starts && p < |job.code| && Leads(job.code, p, to')
    requires IdleNext(job.code, p, idle, idle')
    requires Closes(job.code, job.starts, t) && TurnedAt(job.code, t, to', idle')
    ensures TurnedAt(job.code, t, p, idle)
  {
    hide Shape, Neat, Leads, Decode, Target;
    NotBoth(job.code, t);
    if to' == t {
      BeforeClosing(job.code, job.starts, p, t);
    } else {
      EndBeforeClosing(job.code, job.starts, p, to', t);
      IntoBody(job.code, job.starts, p, to', t);
    }
  }

  lemma EndBeforeClosing(code: seq<byte>, starts: set<nat>, x: nat, y: nat, t: nat)
    requires Shape(code, 0, |code|, starts, {}) && Neat(code, starts) && x in starts && Leads(code, x, y)
    requires Closes(code, starts, t) && GroupAt(code, t) && y < t && !TightAt(code, t)
    ensures y <= t - 3
  {
    hide Shape, Leads, Decode, Target;
    LeadsInside(code, x, y);
    EndIsStart(code, 0, |code|, starts, {});
    LeadsTo(code, 0, |code|, starts, {}, x, y);
    assert NeatAt(code, starts, t);
    InstructionOk(code, starts, t - 3);
    MemoryLength(code, t - 3);
  }

  /** Going back to the fork uses up a turn. */
  lemma TurnEnds(job: Job, p: nat, idle: set<byte>, to': nat, idle': set<byte>)
    requires Shape(job.code, 0, |job.code|, job.starts, {}) && Neat(job.code, job.starts)
    requires Closes(job.code, job.starts, p) && !TightAt(job.code, p) && Leads(job.code, p, to')
    requires Entered(job, p, idle)
    requires Turned(job, to', idle') <= Turned(job, p, idle)
    ensures |Turned(job, to', idle')| < |Turned(job, p, idle)|
  {
    hide Shape, Decode, Target;
    var code, starts := job.code, job.starts;
    assert NeatAt(code, starts, p);
    LoopPlaces(code, starts, p);
    InstructionOk(code, starts, p);
    NumberLeads(code, p, to');
    assert p in Turned(job, p, idle) && p !in Turned(job, to', idle');
    SubsetSize(Turned(job, to', idle') + {p}, Turned(job, p, idle));
  }

  lemma LowerHeight(job: Job, p: nat, to': nat)
    requires Shape(job.code, 0, |job.code|, job.starts, {}) && Neat(job.code, job.starts)
    requires p in job.starts && p < |job.code| && Leads(job.code, p, to') && !Single(Decode(job.code, p))
    requires Closes(job.code, job.starts, p) ==> TightAt(job.code, p)
    ensures Height(job.code, to') + (if job.code[p] == ON_FAILURE_JUMP then 2 else 1) <= Height(job.code, p)
  {
    hide Shape, Neat, Target;
    var code, starts := job.code, job.starts;
    InstructionOk(code, starts, p);
    OpcodeDecodes(code, p);
    EndIsStart(code, 0, |code|, starts, {});
    LeadsTo(code, 0, |code|, starts, {}, p, to');
    NumberLeads(code, p, to');
    if to' < |code| && code[to'] == MAYBE_POP_JUMP && TightAt(code, to') {
      NotIntoTight(code, starts, p, to');
    } else if code[p] == MAYBE_POP_JUMP {
      LoopPlaces(code, starts, p);
    } else {
      LeadsFurther(code, p, to');
    }
  }

  lemma NotIntoTight(code: seq<byte>, starts: set<nat>, x: nat, t: nat)
    requires Shape(code, 0, |code|, starts, {}) && Closes(code, starts, t) && TightAt(code, t)
    requires x in starts && Leads(code, x, t)
    ensures x < |code| && Single(Decode(code, x))
  {
    hide Shape, Leads, Target;
    LoopPlaces(code, starts, t);
    IntoLoop(code, starts, x, t, t);
    InTightLoop(code, starts, t, x);
  }

  lemma LeadsFurther(code: seq<byte>, p: nat, to': nat)
    requires p < |code| && Leads(code, p, to') && Decode(code, p) != Bad && OpcodeOk(code, p)
    requires code[p] != MAYBE_POP_JUMP
    ensures p < to' && (TakesNumber(code[p]) ==> p + 3 <= to')
  {
    hide Target;
  }

  /** The two places a fork leads to weigh less than the fork. */
  lemma ForkLighter(a: nat, b: nat, r: nat)
    requires a + 2 <= r && b + 2 <= r
    ensures Pow2(a) + Pow2(b) < Pow2(r)
  {
    hide Pow2;
    NoLess(a, r - 2);
    NoLess(b, r - 2);
    Pow2Grows(r - 2, r - 1);
    Pow2Grows(r - 1, r);
  }

  lemma NoLess(a: nat, b: nat)
    requires a <= b
    ensures Pow2(a) <= Pow2(b)
  {
    if a < b {
      Pow2Grows(a, b);
    }
  }

  lemma Lighter(a: nat, r: nat)
    requires a < r
    ensures Pow2(a) < Pow2(r)
  {
    Pow2Grows(a, r);
  }

  /** Each instruction leaves less to do, whatever has been rewritten. */
  lemma MovesLighter(job: Job, c: Config, c': Config, ok: bool)
    requires Shape(job.code, 0, |job.code|, job.starts, {}) && Neat(job.code, job.starts)
    requires |c.code| == |job.code| && Variant(job.code, c.code, job.starts) && Entered(job, c.p, c.idle)
    requires c.p in job.starts && c.p < |c.code| && c.d <= |job.text| && Moves(job.text, c, c', ok)
    ensures if ok then Left(job, c') < Left(job, c) else StackWeight(job, c'.stack) < Left(job, c)
  {
    hide Shape, Neat, Variant, Weight, StackWeight, Decode, Target, Passes, Follow, Judged, Goes, Rank, Forced, Entered;
    VariantDecode(job.code, c.code, job.starts, c.p);
    VariantJump(job.code, c.code, job.starts, c.p);
    InstructionOk(job.code, job.starts, c.p);
    OpcodeDecodes(job.code, c.p);
    OpcodeDecodes(c.code, c.p);
    NeverNothing(job, c);
    if !ok {
      if c.code[c.p] == STOP_MEMORY {
        LeavesLighter(job, c, c');
      }
    } else if TakesNumber(c.code[c.p]) {
      JumpLighter(job, c, c');
    } else {
      if c.code[c.p] == START_MEMORY {
        MemoryLength(c.code, c.p);
      }
      PlainLighter(job, c, c');
    }
  }

  lemma JumpLighter(job: Job, c: Config, c': Config)
    requires Shape(job.code, 0, |job.code|, job.starts, {}) && Neat(job.code, job.starts) && Entered(job, c.p, c.idle)
    requires c.p in job.starts && c.p < |c.code| && c.d <= |job.text| && Moves(job.text, c, c', true)
    requires |job.code| == |c.code| && TakesNumber(c.code[c.p]) && TakesNumber(job.code[c.p]) && c.p + 3 <= |job.code|
    requires c.code[c.p] == ON_FAILURE_JUMP <==> job.code[c.p] == ON_FAILURE_JUMP
    requires Target(c.code, c.p) == Target(job.code, c.p) && 0 <= Target(job.code, c.p)
    requires Decode(job.code, c.p) ==
      if job.code[c.p] == ON_FAILURE_JUMP then Fork(Target(job.code, c.p)) else Jump(Target(job.code, c.p))
    ensures Left(job, c') < Left(job, c)
  {
    hide Shape, Neat, StackWeight, Decode, Target, Passes, Judged, Rank, Pops, Entered, Forced;
    var t: nat := Target(job.code, c.p);
    assert Goes(job.code, job.text, c.p, c.d, t, c.d);
    Nearer(job, c.p, c.d, c.idle, t, c.d, c.idle);
    Lighter(Rank(job, t, c.d, c.idle), Rank(job, c.p, c.d, c.idle));
    if c.code[c.p] == ON_FAILURE_JUMP {
      Nearer(job, c.p, c.d, c.idle, c.p + 3, c.d, c.idle);
      ForkLighter(Rank(job, c.p + 3, c.d, c.idle), Rank(job, t, c.d, c.idle), Rank(job, c.p, c.d, c.idle));
      StackPushed(job, c.stack, Point(t, c.d, c.idle));
    } else {
      StackPushed(job, c.stack, Dummy);
      if c.stack != [] {
        StackShorter(job, c.stack);
      }
    }
  }

  lemma PlainLighter(job: Job, c: Config, c': Config)
    requires Shape(job.code, 0, |job.code|, job.starts, {}) && Neat(job.code, job.starts) && Entered(job, c.p, c.idle)
    requires c.p in job.starts && c.p < |c.code| && c.d <= |job.text| && Moves(job.text, c, c', true)
    requires |job.code| == |c.code| && !TakesNumber(c.code[c.p]) && Decode(c.code, c.p) == Decode(job.code, c.p) != Bad
    requires c.code[c.p] == job.code[c.p]
    requires c.code[c.p] == START_MEMORY ==> c.p + 1 < |c.code| && c.code[c.p + 1] == job.code[c.p + 1]
    requires !Decode(job.code, c.p).Jump? && !Decode(job.code, c.p).Fork?
    ensures Left(job, c') < Left(job, c)
  {
    hide Shape, Neat, StackWeight, Rank, Target, Entered, Forced;
    var instr := Decode(job.code, c.p);
    assert c'.p == c.p + instr.Length() && c'.d == c.d + Consumed(instr);
    assert c'.d == c.d ==> IdleNext(job.code, c.p, c.idle, c'.idle);
    assert Goes(job.code, job.text, c.p, c.d, c'.p, c'.d);
    hide Decode;
    Nearer(job, c.p, c.d, c.idle, c'.p, c'.d, c'.idle);
    Lighter(Rank(job, c'.p, c'.d, c'.idle), Rank(job, c.p, c.d, c.idle));
    StackPushed(job, c.stack, Dummy);
  }

  /** The way out of a loop is nearer to the end than the end of its group. */
  lemma LeavesLighter(job: Job, c: Config, c': Config)
    requires Shape(job.code, 0, |job.code|, job.starts, {}) && Neat(job.code, job.starts)
    requires |c.code| == |job.code| && Variant(job.code, c.code, job.starts)
    requires c.p in job.starts && c.p < |c.code| && c.code[c.p] == STOP_MEMORY && LeavesLoop(c, c')
    ensures StackWeight(job, c'.stack) < Left(job, c)
  {
    hide Shape, Neat, Variant, Target, StackWeight, Rank, Forced;
    var place: nat :| Forced(c.code, c.p, place) && c' == c.(stack := c.stack + [Point(place, c.d, c.idle)]);
    ForcedOut(job.code, c.code, job.starts, c.p, place);
    OutNearer(job, c.p, c.d, c.idle);
    Lighter(Rank(job, place, c.d, c.idle), Rank(job, c.p, c.d, c.idle));
    StackPushed(job, c.stack, Point(place, c.d, c.idle));
  }

  /** A forced exit is from a loop over the group, and leads past it. */
  lemma ForcedOut(code: seq<byte>, now: seq<byte>, starts: set<nat>, p: nat, place: int)
    requires Shape(code, 0, |code|, starts, {}) && |now| == |code| && Variant(code, now, starts)
    requires p in starts && p < |now| && now[p] == STOP_MEMORY && Forced(now, p, place)
    ensures Decode(code, p) == Memory && Closes(code, starts, p + 3) && place == p + 6 <= |code|
    ensures code[p] == STOP_MEMORY
    ensures GroupAt(code, p + 3) && p + 1 < |now| && GroupOf(code, p + 3) == now[p + 1]
  {
    hide Shape, Variant, Target, Decode;
    VariantDecode(code, now, starts, p);
    MemoryLength(code, p);
    InstructionOk(code, starts, p);
    var x := p + 3;
    VariantDecode(code, now, starts, x);
    VariantJump(code, now, starts, x);
    InstructionOk(code, starts, x);
    LoopPlaces(code, starts, x);
    var q: nat := Target(code, x);
    VariantDecode(code, now, starts, q);
    VariantJump(code, now, starts, q);
    VariantDecode(code, now, starts, q + 3);
    InstructionOk(code, starts, q + 3);
    MemoryLength(code, q + 3);
  }

  lemma OutNearer(job: Job, p: nat, d: nat, idle: set<byte>)
    requires Shape(job.code, 0, |job.code|, job.starts, {}) && Neat(job.code, job.starts)
    requires p in job.starts && p < |job.code| && job.code[p] == STOP_MEMORY && Closes(job.code, job.starts, p + 3)
    requires GroupAt(job.code, p + 3) && p + 6 <= |job.code| && Decode(job.code, p) == Memory
    ensures Rank(job, p + 6, d, idle) < Rank(job, p, d, idle)
  {
    hide Shape, Neat, Target, Times, Decode, GroupAt, TightAt, Turned;
    var code, starts, t, m := job.code, job.starts, p + 3, |job.code| + 2;
    LoopLeads(code, starts, t);
    LoopPlaces(code, starts, t);
    var q: nat := Target(code, t);
    PastLoop(job, p, q, idle);
    MoreTimes(|Turned(job, p + 6, idle)|, |Turned(job, p, idle)|, m);
    NotIntoTightFrom(code, starts, q, t);
  }

  lemma NotIntoTightFrom(code: seq<byte>, starts: set<nat>, q: nat, t: nat)
    requires Shape(code, 0, |code|, starts, {}) && Closes(code, starts, t) && q in starts && q < |code|
    requires code[q] == ON_FAILURE_JUMP && Leads(code, q, t + 3)
    ensures Height(code, t + 3) == if t + 3 <= |code| then |code| - t - 3 else 0
  {
    hide Shape, Leads, Target;
    if t + 3 < |code| && code[t + 3] == MAYBE_POP_JUMP && TightAt(code, t + 3) {
      InstructionOk(code, starts, t);
      OpcodeDecodes(code, t);
      NotIntoTight(code, starts, q, t + 3);
    }
  }

  /** No loop is turned anew on the way out. */
  lemma PastLoop(job: Job, p: nat, q: nat, idle: set<byte>)
    requires Shape(job.code, 0, |job.code|, job.starts, {}) && Neat(job.code, job.starts)
    requires p in job.starts && p < |job.code| && job.code[p] == STOP_MEMORY && Closes(job.code, job.starts, p + 3)
    requires q in job.starts && q < |job.code| && job.code[q] == ON_FAILURE_JUMP && Leads(job.code, q, p + 6)
    requires Leads(job.code, p, p + 3) && Leads(job.code, p + 3, q)
    ensures |Turned(job, p + 6, idle)| <= |Turned(job, p, idle)|
  {
    hide Shape, Neat, Leads, Turned;
    FewerTurns(job, p, idle, p + 3, idle);
    FewerTurns(job, p + 3, idle, q, idle);
    FewerTurns(job, q, idle, p + 6, idle);
  }

  lemma ResumesLighter(job: Job, c: Config, c': Config)
    requires Resumes(c, c', true)
    ensures Left(job, c') <= StackWeight(job, c.stack)
  {
    hide Weight, StackWeight, Skipped;
    StackPrefix(job, c.stack, |c'.stack|);
  }

  lemma NeverNothing(job: Job, c: Config)
    ensures StackWeight(job, c.stack) < Left(job, c)
  {
  }

  /** Enough to begin with. */
  function Enough(code: nat, text: nat): nat {
    Pow2(Times(text + 1, Times(code + 2, code + 2)))
  }

  lemma AtFirst(job: Job, code: seq<byte>)
    requires job.start <= |job.text|
    ensures Left(job, First(code, job.start)) <= Enough(|job.code|, |job.text|)
  {
    hide Height, Times, Turned;
    var m, n, k := |job.code| + 2, |job.text| - job.start, |job.text| + 1;
    FewerTimes(k, k - n, Times(m, m));
    TurnedFew(job, 0, {});
    FewerTimes(m, 2, m);
    MoreTimes(|Turned(job, 0, {})|, |job.code|, m);
    NoLess(Rank(job, 0, job.start, {}), Times(k, Times(m, m)));
  }
}
