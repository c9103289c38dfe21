/** What the matcher decides at the closing jump of a loop, from the first instruction of the loop's body and the
    one that follows the loop. */
module Judgement {
  import opened Bytes
  import opened Bytecode
  import Ere

  /** Past the group commands and dummy forks at `p`. */
  function Follow(code: seq<byte>, p: nat): (r: nat)
    ensures p <= |code| ==> r <= |code|
    decreases |code| - p
  {
    if p + 2 < |code| && (code[p] == STOP_MEMORY || code[p] == START_MEMORY) then Follow(code, p + 3)
    else if p + 6 < |code| && code[p] == DUMMY_FAILURE_JUMP then Follow(code, p + 6)
    else p
  }

  /** What the matcher decides, given what a loop begins with and what follows it. */
  ghost predicate Judged(body: Instr, follow: Instr) {
    match follow
    case Exact(t) => t != [] && JudgedByChar(body, t[0])
    case LineEnd => JudgedByChar(body, Ere.NEWLINE)
    case CharSet(false, m) => JudgedBySet(body, m)
    case _ => false
  }

  ghost predicate JudgedByChar(body: Instr, c: byte) {
    match body
    case Exact(s) => s != [] && s[0] != c
    case CharSet(false, m) => |m| == 32 || !InBitmap(m, c)
    case CharSet(true, m) => |m| < 32 && InBitmap(m, c)
    case _ => false
  }

  ghost predicate JudgedBySet(body: Instr, m: seq<byte>) {
    match body
    case Exact(s) => |s| < 256 && !InBitmap(m, |s|)
    case CharSet(false, b) => forall c: byte :: !(InBitmap(m, c) && InBitmap(b, c))
    case CharSet(true, b) => forall c: byte :: InBitmap(m, c) ==> InBitmap(b, c)
    case _ => false
  }

  /** Whether the closing jump at `p` may drop its loop's failure point. */
  ghost predicate Pops(code: seq<byte>, p: nat)
    requires p + 3 <= |code| && 0 <= Target(code, p) && Target(code, p) + 3 < |code|
  {
    var p2 := Follow(code, p + 3);
    p2 >= |code| || Judged(Decode(code, Target(code, p) + 3), Decode(code, p2))
  }
}
