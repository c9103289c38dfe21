/** What the matcher makes of the code as it goes, and why that changes nothing it can answer. */
module Rewriting {
  import opened Bytecode
  import opened Bytes
  import opened CodeShape
  import opened FreeRuns
  import opened Judgement
  import opened LoopDepth
  import opened LoopForms
  import opened MatcherState
  import opened MatcherSteps
  import opened PopDecision

  /** What the closing jump at `p` becomes. */
  ghost function Closing(code: seq<byte>, p: nat): (op: byte)
    ensures op == JUMP || op == POP_FAILURE_JUMP
  {
    if p + 3 <= |code| && 0 <= Target(code, p) && Target(code, p) + 3 < |code| && Pops(code, p)
    then POP_FAILURE_JUMP else JUMP
  }

  lemma ClosingPops(code: seq<byte>, p: nat)
    requires Closing(code, p) == POP_FAILURE_JUMP
    ensures p + 3 <= |code| && 0 <= Target(code, p) && Target(code, p) + 3 < |code| && Pops(code, p)
  {
    hide Pops, Target;
  }

  /** The pattern as it stands differs from the one compiled only in closing jumps, decided as they are bound to be. */
  ghost predicate Rewritten(original: seq<byte>, now: seq<byte>, starts: set<nat>) {
    && |now| == |original|
    && forall k :: 0 <= k < |now| && now[k] != original[k] ==>
         k in starts && original[k] == MAYBE_POP_JUMP && now[k] == Closing(original, k)
  }

  /** Rewriting changes opcodes only, and never what an instruction leads to. */
  lemma RewrittenDecode(original: seq<byte>, now: seq<byte>, starts: set<nat>, x: nat)
    requires Shape(original, 0, |original|, starts, {}) && Rewritten(original, now, starts)
    requires x in starts && x < |original|
    ensures Decode(now, x) == Decode(original, x) && Decode(now, x) != Bad
    ensures x + Decode(now, x).Length() <= |now| && x + Decode(now, x).Length() in starts
    ensures now[x] == original[x]
         || (original[x] == MAYBE_POP_JUMP && (now[x] == JUMP || now[x] == POP_FAILURE_JUMP))
    ensures forall k :: x < k < x + Decode(now, x).Length() ==> now[k] == original[k]
  {
    hide Shape, Closing;
    assert Variant(original, now, starts);
    VariantDecode(original, now, starts, x);
  }

  lemma RewriteKept(original: seq<byte>, before: seq<byte>, now: seq<byte>, starts: set<nat>, p: nat, op: byte)
    requires Rewritten(original, before, starts) && p < |before| && now == before[p := op]
    requires p in starts && original[p] == MAYBE_POP_JUMP && op == Closing(original, p)
    ensures Rewritten(original, now, starts)
  {
    hide Closing;
  }

  lemma FailingAnywhere(job: Job, s: State, s': State)
    requires Failing(job, s) && s' == s.(p := s'.p, d := s'.d, idle := s'.idle)
    ensures Failing(job, s')
  {
    hide Shape, Sure, Neat, Explored, Free;
    if Sure(job) {
      var seen: Places :| Explored(job, s, seen, false);
      ExploredAnywhere(job, s, s', seen);
    }
  }

  lemma ExploredAnywhere(job: Job, s: State, s': State, seen: Places)
    requires Explored(job, s, seen, false) && s' == s.(p := s'.p, d := s'.d, idle := s'.idle)
    ensures Explored(job, s', seen, false)
  {
    forall x: nat, k: nat | AtHand(s, seen, false, x, k)
      ensures AtHand(s', seen, false, x, k)
    {
    }
    hide AtHand, Goes, Surpassed, IdleSeen;
    ExploredOn(job, s, seen, false, s', seen, false);
  }

  lemma FollowRewritten(original: seq<byte>, now: seq<byte>, starts: set<nat>, x: nat)
    requires Rewritten(original, now, starts)
    ensures Follow(now, x) == Follow(original, x)
    decreases |original| - x
  {
    if x + 2 < |now| && (now[x] == STOP_MEMORY || now[x] == START_MEMORY) {
      FollowRewritten(original, now, starts, x + 3);
    } else if x + 6 < |now| && now[x] == DUMMY_FAILURE_JUMP {
      FollowRewritten(original, now, starts, x + 6);
    }
  }

  /** The decision does not depend on what has been rewritten. */
  lemma PopsRewritten(original: seq<byte>, now: seq<byte>, starts: set<nat>, p: nat)
    requires Shape(original, 0, |original|, starts, {}) && Rewritten(original, now, starts)
    requires p in starts && p < |original| && original[p] == MAYBE_POP_JUMP
    ensures p + 3 <= |now| && Target(now, p) == Target(original, p) && 0 <= Target(now, p) && Target(now, p) + 3 < |now|
    ensures Pops(now, p) <==> Closing(original, p) == POP_FAILURE_JUMP
    ensures Closing(now, p) == Closing(original, p)
  {
    hide Shape, Judged, Decode, Target;
    RewrittenDecode(original, now, starts, p);
    InstructionOk(original, starts, p);
    OpcodeDecodes(original, p);
    OpcodeDecodes(now, p);
    LoopExit(Job(original, starts, [], 0), p, 0);
    var q: nat := Target(original, p);
    InstructionOk(original, starts, q);
    OpcodeDecodes(original, q);
    FollowRewritten(original, now, starts, p + 3);
    FollowIsStart(original, starts, p + 3);
    RewrittenDecode(original, now, starts, q + 3);
    if Follow(original, p + 3) < |original| {
      RewrittenDecode(original, now, starts, Follow(original, p + 3));
    }
  }
}
