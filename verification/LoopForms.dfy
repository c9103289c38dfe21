/** How the loops of compiled code are made: over a single instruction, or over a group. */
module LoopForms {
  import opened Bytes
  import opened Bytecode

  predicate Closes(code: seq<byte>, starts: set<nat>, t: nat) {
    t in starts && t < |code| && code[t] == MAYBE_POP_JUMP
  }

  /** An instruction that consumes one character when it passes. */
  predicate Single(instr: Instr) {
    instr.AnyChar? || instr.CharSet? || (instr.Exact? && |instr.bytes| == 1)
  }

  /** Between the fork of the loop closed at `t` and its closing jump there is just one such instruction. */
  predicate TightAt(code: seq<byte>, t: nat) {
    && t + 3 <= |code| && 0 <= Target(code, t) && Target(code, t) + 3 < |code|
    && Single(Body(code, t)) && Target(code, t) + 3 + Body(code, t).Length() == t
  }

  function Body(code: seq<byte>, t: nat): Instr
    requires t + 3 <= |code| && 0 <= Target(code, t) && Target(code, t) + 3 < |code|
  {
    Decode(code, Target(code, t) + 3)
  }

  /** The body of the loop closed at `t` is a group, from its start just past the loop's fork to its end just
      before the closing jump. */
  predicate GroupAt(code: seq<byte>, t: nat) {
    && t + 3 <= |code| && 0 <= Target(code, t) && Target(code, t) + 9 <= t
    && code[Target(code, t) + 3] == START_MEMORY && code[t - 3] == STOP_MEMORY
    && code[Target(code, t) + 4] == code[t - 2]
  }

  /** The number of that group. */
  function GroupOf(code: seq<byte>, t: nat): byte
    requires GroupAt(code, t)
  {
    code[t - 2]
  }

  lemma NotBoth(code: seq<byte>, t: nat)
    requires GroupAt(code, t)
    ensures !TightAt(code, t)
  {
    hide Target;
  }

  /** Inside the group, up to its end. */
  predicate InBody(code: seq<byte>, t: nat, y: nat) {
    GroupAt(code, t) && Target(code, t) + 3 < y <= t - 3
  }

  /** The end of a group is met only after what pushes a dummy for its alternatives. */
  predicate DummyBefore(code: seq<byte>, starts: set<nat>, y: nat) {
    y > 0 && y - 1 in starts && y <= |code| && code[y - 1] == PUSH_DUMMY_FAILURE
  }

  /** Jumps and forks do not lead to the closing jump of a loop, nor past what pushes a dummy. */
  predicate JumpNeat(code: seq<byte>, starts: set<nat>, x: nat)
    requires x < |code|
  {
    TakesNumber(code[x]) && code[x] != MAYBE_POP_JUMP && x + 3 <= |code| && 0 <= Target(code, x) ==>
      !Closes(code, starts, Target(code, x)) && !DummyBefore(code, starts, Target(code, x))
  }

  ghost predicate JumpsNeat(code: seq<byte>, starts: set<nat>) {
    forall x :: x in starts && x < |code| ==> JumpNeat(code, starts, x)
  }

  /** The body of the loop is a group with no other group of its number in it. */
  ghost predicate OwnNumber(code: seq<byte>, starts: set<nat>, t: nat) {
    GroupAt(code, t) && t - 3 in starts &&
    forall x :: x in starts && InBody(code, t, x) && code[x] == START_MEMORY ==> code[x + 1] != GroupOf(code, t)
  }

  /** The body of a loop is a single instruction, or such a group, and then jumps are made neatly. */
  ghost predicate NeatAt(code: seq<byte>, starts: set<nat>, t: nat) {
    TightAt(code, t) || (OwnNumber(code, starts, t) && JumpsNeat(code, starts))
  }

  /** All loops are like that. */
  ghost predicate Neat(code: seq<byte>, starts: set<nat>) {
    forall t :: Closes(code, starts, t) ==> NeatAt(code, starts, t)
  }

  /** The body of the loop is a group of alternatives, which ends by pushing a dummy. */
  predicate DummyEnd(code: seq<byte>, starts: set<nat>, t: nat) {
    GroupAt(code, t) && DummyBefore(code, starts, t - 3)
  }

  /** The body of the loop is a group that saves nothing. */
  ghost predicate Straight(code: seq<byte>, starts: set<nat>, t: nat) {
    GroupAt(code, t) && !DummyEnd(code, starts, t) &&
    forall x :: x in starts && InBody(code, t, x) && x < |code| ==>
      !TakesNumber(code[x]) && code[x] != PUSH_DUMMY_FAILURE
  }
}
