/** Compiled patterns: opcodes, their arguments, and what running them can accept
    when `on_failure_jump` is a free choice between going on and jumping. */
module Bytecode {
  import opened Bytes
  import Ere

  const EXACTN: byte := 2
  const ANYCHAR: byte := 3
  const CHARSET: byte := 4
  const CHARSET_NOT: byte := 5
  const START_MEMORY: byte := 6
  const STOP_MEMORY: byte := 7
  const BEGLINE: byte := 9
  const ENDLINE: byte := 10
  const JUMP: byte := 13
  const JUMP_PAST_ALT: byte := 14
  const ON_FAILURE_JUMP: byte := 15
  const POP_FAILURE_JUMP: byte := 17
  const MAYBE_POP_JUMP: byte := 18
  const DUMMY_FAILURE_JUMP: byte := 19
  const PUSH_DUMMY_FAILURE: byte := 20

  datatype Instr =
    | Exact(bytes: seq<byte>)
    | AnyChar
    | CharSet(negated: bool, bitmap: seq<byte>)
    | Memory
    | LineStart
    | LineEnd
    | Jump(target: int)
    | Fork(target: int)
    | PushDummy
    | Bad
  {
    function Length(): (r: nat)
      ensures r > 0
    {
      match this
      case Exact(s) => 2 + |s|
      case CharSet(_, m) => 2 + |m|
      case Memory => 3
      case Jump(_) => 3
      case Fork(_) => 3
      case _ => 1
    }
  }

  /** The jumps whose only effect under free choice is to go to their target. */
  predicate IsJump(op: byte) {
    op == JUMP || op == JUMP_PAST_ALT || op == POP_FAILURE_JUMP || op == MAYBE_POP_JUMP
    || op == DUMMY_FAILURE_JUMP
  }

  predicate TakesNumber(op: byte) {
    IsJump(op) || op == ON_FAILURE_JUMP
  }

  function Target(code: seq<byte>, pc: nat): int
    requires pc + 3 <= |code|
  {
    pc + 3 + NumberAt(code[pc + 1], code[pc + 2])
  }

  /** The instruction at `pc`; `Bad` when it does not fit in the code or is not of the fragment. */
  function Decode(code: seq<byte>, pc: nat): (r: Instr)
    requires pc < |code|
    ensures r != Bad ==> pc + r.Length() <= |code|
  {
    var op := code[pc];
    if op == ANYCHAR then AnyChar
    else if op == BEGLINE then LineStart
    else if op == ENDLINE then LineEnd
    else if op == PUSH_DUMMY_FAILURE then PushDummy
    else if op == EXACTN || op == CHARSET || op == CHARSET_NOT then
      if pc + 2 <= |code| && pc + 2 + code[pc + 1] <= |code| then
        var arg := code[pc + 2..pc + 2 + code[pc + 1]];
        if op != EXACTN then CharSet(op == CHARSET_NOT, arg) else if arg == [] then Bad else Exact(arg)
      else Bad
    else if pc + 3 > |code| then Bad
    else if op == START_MEMORY || op == STOP_MEMORY then Memory
    else if IsJump(op) then Jump(Target(code, pc))
    else if op == ON_FAILURE_JUMP then Fork(Target(code, pc))
    else Bad
  }

  predicate InBitmap(bitmap: seq<byte>, c: byte) {
    c / 8 < |bitmap| && Bit(bitmap[c / 8], c % 8)
  }

  /** Whether one character is consumed by a one-character instruction. */
  predicate Eats(instr: Instr, c: byte) {
    match instr
    case AnyChar => c != Ere.NEWLINE
    case CharSet(negated, bitmap) => InBitmap(bitmap, c) != negated
    case _ => false
  }

  /** `code` can go from `pc` at text position `i` to its end at `j` in exactly `n` instructions. */
  ghost predicate Acc(code: seq<byte>, text: seq<byte>, pc: int, i: nat, j: nat, n: nat)
    decreases n
  {
    if pc < 0 || pc > |code| then false
    else if n == 0 then pc == |code| && i == j
    else pc < |code| && var instr := Decode(code, pc);
      var next := pc + instr.Length();
      match instr
      case Exact(s) => i + |s| <= |text| && text[i..i + |s|] == s && Acc(code, text, next, i + |s|, j, n - 1)
      case AnyChar => i < |text| && Eats(instr, text[i]) && Acc(code, text, next, i + 1, j, n - 1)
      case CharSet(_, _) => i < |text| && Eats(instr, text[i]) && Acc(code, text, next, i + 1, j, n - 1)
      case Memory => Acc(code, text, next, i, j, n - 1)
      case LineStart => Ere.AtLineStart(text, i) && Acc(code, text, next, i, j, n - 1)
      case LineEnd => Ere.AtLineEnd(text, i) && Acc(code, text, next, i, j, n - 1)
      case Jump(to) => Acc(code, text, to, i, j, n - 1)
      case Fork(to) => Acc(code, text, next, i, j, n - 1) || Acc(code, text, to, i, j, n - 1)
      case PushDummy => Acc(code, text, next, i, j, n - 1)
      case Bad => false
  }

  /** Some run from `pc` at `i` ends at `j`. */
  ghost predicate AccFrom(code: seq<byte>, text: seq<byte>, pc: int, i: nat, j: nat) {
    exists n: nat :: Acc(code, text, pc, i, j, n)
  }

  /** The compiled pattern accepts text[i..j]. */
  ghost predicate Accepts(code: seq<byte>, text: seq<byte>, i: nat, j: nat) {
    AccFrom(code, text, 0, i, j)
  }

  // ----- code fragments -----

  function JumpCode(op: byte, displacement: int): (s: seq<byte>)
    ensures |s| == 3
  {
    [op] + NumberBytes(displacement)
  }

  /** `frag` sits at offset `o`. */
  predicate At(code: seq<byte>, o: nat, frag: seq<byte>): (r: bool)
    ensures r ==> o + |frag| <= |code|
  {
    o + |frag| <= |code| && code[o..o + |frag|] == frag
  }

  lemma AtSplit(code: seq<byte>, o: nat, a: seq<byte>, b: seq<byte>)
    ensures At(code, o, a + b) <==> At(code, o, a) && At(code, o + |a|, b)
  {
    var ab := a + b;
    if At(code, o, ab) {
      assert ab[..|a|] == a && ab[|a|..] == b;
      assert code[o..o + |a|] == code[o..o + |ab|][..|a|];
      assert code[o + |a|..o + |ab|] == code[o..o + |ab|][|a|..];
    }
    if At(code, o, a) && At(code, o + |a|, b) {
      assert code[o..o + |ab|] == code[o..o + |a|] + code[o + |a|..o + |ab|];
    }
  }

  lemma AtByte(code: seq<byte>, o: nat, frag: seq<byte>, k: nat)
    requires At(code, o, frag) && k < |frag|
    ensures o + k < |code| && code[o + k] == frag[k]
  {
    assert frag[k] == code[o..o + |frag|][k];
  }

  lemma DecodeJump(code: seq<byte>, o: nat, op: byte, displacement: int)
    requires At(code, o, JumpCode(op, displacement)) && TakesNumber(op)
    requires -32768 <= displacement < 32768
    ensures o + 3 <= |code| && code[o] == op && Target(code, o) == o + 3 + displacement
    ensures Decode(code, o) == if op == ON_FAILURE_JUMP then Fork(o + 3 + displacement) else Jump(o + 3 + displacement)
  {
    var frag := JumpCode(op, displacement);
    AtByte(code, o, frag, 0);
    AtByte(code, o, frag, 1);
    AtByte(code, o, frag, 2);
    NumberRoundTrip(displacement);
  }

  lemma DecodeCounted(code: seq<byte>, o: nat, op: byte, s: seq<byte>)
    requires |s| < 256 && op in {EXACTN, CHARSET, CHARSET_NOT} && (op == EXACTN ==> s != [])
    requires At(code, o, [op, |s|] + s)
    ensures o < |code| && code[o] == op
    ensures Decode(code, o) == if op == EXACTN then Exact(s) else CharSet(op == CHARSET_NOT, s)
  {
    var frag := [op, |s|] + s;
    AtByte(code, o, frag, 0);
    AtByte(code, o, frag, 1);
    AtSplit(code, o, [op, |s|], s);
  }

  lemma DecodeMemory(code: seq<byte>, o: nat, op: byte, reg: byte, inner: byte)
    requires At(code, o, [op, reg, inner]) && (op == START_MEMORY || op == STOP_MEMORY)
    ensures o + 3 <= |code| && code[o] == op && Decode(code, o) == Memory
  {
    AtByte(code, o, [op, reg, inner], 0);
  }

  lemma DecodeSimple(code: seq<byte>, o: nat, op: byte)
    requires At(code, o, [op]) && op in {ANYCHAR, BEGLINE, ENDLINE, PUSH_DUMMY_FAILURE}
    ensures o < |code| && code[o] == op && Decode(code, o) ==
      if op == ANYCHAR then AnyChar else if op == BEGLINE then LineStart
      else if op == ENDLINE then LineEnd else PushDummy
  {
    AtByte(code, o, [op], 0);
  }
}
