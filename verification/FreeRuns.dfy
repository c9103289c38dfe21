/** Runs of code in which forks are free choices, one instruction at a time. */
module FreeRuns {
  import opened Bytes
  import opened Bytecode
  import Ere

  // ----- one instruction under free choice -----

  /** Being at `pc`, `i` accepts exactly what being at `pc'`, `i'` accepts. */
  ghost predicate Same(code: seq<byte>, text: seq<byte>, pc: int, i: nat, pc': int, i': nat) {
    forall j: nat :: AccFrom(code, text, pc, i, j) <==> AccFrom(code, text, pc', i', j)
  }

  ghost predicate Dead(code: seq<byte>, text: seq<byte>, pc: int, i: nat) {
    forall j: nat :: !AccFrom(code, text, pc, i, j)
  }

  /** Whether an instruction other than a jump lets the match go on at `i`. */
  predicate Passes(instr: Instr, text: seq<byte>, i: nat) {
    match instr
    case Exact(s) => i + |s| <= |text| && text[i..i + |s|] == s
    case AnyChar => i < |text| && Eats(instr, text[i])
    case CharSet(_, _) => i < |text| && Eats(instr, text[i])
    case LineStart => Ere.AtLineStart(text, i)
    case LineEnd => Ere.AtLineEnd(text, i)
    case _ => true
  }

  function Consumed(instr: Instr): nat {
    match instr
    case Exact(s) => |s|
    case AnyChar => 1
    case CharSet(_, _) => 1
    case _ => 0
  }

  ghost predicate OneStep(code: seq<byte>, text: seq<byte>, pc: nat, i: nat, j: nat)
    requires pc < |code|
  {
    var instr := Decode(code, pc);
    if instr.Bad? then false
    else if instr.Jump? then AccFrom(code, text, instr.target, i, j)
    else if instr.Fork? then AccFrom(code, text, pc + 3, i, j) || AccFrom(code, text, instr.target, i, j)
    else Passes(instr, text, i) && AccFrom(code, text, pc + instr.Length(), i + Consumed(instr), j)
  }

  /** The same, with the number of instructions left after it. */
  ghost predicate OneStepIn(code: seq<byte>, text: seq<byte>, pc: nat, i: nat, j: nat, n: nat)
    requires pc < |code|
  {
    var instr := Decode(code, pc);
    if instr.Bad? then false
    else if instr.Jump? then Acc(code, text, instr.target, i, j, n)
    else if instr.Fork? then Acc(code, text, pc + 3, i, j, n) || Acc(code, text, instr.target, i, j, n)
    else Passes(instr, text, i) && Acc(code, text, pc + instr.Length(), i + Consumed(instr), j, n)
  }

  lemma AccStep(code: seq<byte>, text: seq<byte>, pc: nat, i: nat, j: nat, n: nat)
    requires pc < |code|
    ensures Acc(code, text, pc, i, j, n) <==> n > 0 && OneStepIn(code, text, pc, i, j, n - 1)
  {
    hide Decode;
  }

  lemma Unfold(code: seq<byte>, text: seq<byte>, pc: nat, i: nat, j: nat)
    requires pc < |code|
    ensures AccFrom(code, text, pc, i, j) <==> OneStep(code, text, pc, i, j)
  {
    hide Acc, Decode, Passes;
    var instr := Decode(code, pc);
    if AccFrom(code, text, pc, i, j) {
      var n: nat :| Acc(code, text, pc, i, j, n);
      AccStep(code, text, pc, i, j, n);
    }
    if OneStep(code, text, pc, i, j) {
      var to', k := pc + instr.Length(), i + Consumed(instr);
      if instr.Jump? || (instr.Fork? && !AccFrom(code, text, pc + 3, i, j)) {
        to' := instr.target;
      }
      var n: nat :| Acc(code, text, to', k, j, n);
      AccStep(code, text, pc, i, j, n + 1);
    }
  }

  /** An instruction that is no jump leads on, or nowhere. */
  lemma PlainStep(code: seq<byte>, text: seq<byte>, pc: nat, i: nat)
    requires pc < |code|
    ensures var instr := Decode(code, pc);
      instr != Bad && !instr.Jump? && !instr.Fork? ==>
        if Passes(instr, text, i) then Same(code, text, pc, i, pc + instr.Length(), i + Consumed(instr))
        else Dead(code, text, pc, i)
  {
    forall j: nat {
      Unfold(code, text, pc, i, j);
    }
  }

  lemma JumpStep(code: seq<byte>, text: seq<byte>, pc: nat, i: nat)
    requires pc < |code| && Decode(code, pc).Jump?
    ensures Same(code, text, pc, i, Decode(code, pc).target, i)
  {
    forall j: nat {
      Unfold(code, text, pc, i, j);
    }
  }

  lemma EndStep(code: seq<byte>, text: seq<byte>, i: nat, j: nat)
    ensures AccFrom(code, text, |code|, i, j) <==> i == j
  {
    if i == j {
      assert Acc(code, text, |code|, i, j, 0);
    }
  }

  /** Runs stay within the text. */
  lemma {:induction false} RunInside(code: seq<byte>, text: seq<byte>, pc: int, i: nat, j: nat, n: nat)
    requires Acc(code, text, pc, i, j, n) && i <= |text|
    ensures i <= j <= |text|
    decreases n
  {
    if n > 0 {
      var instr := Decode(code, pc);
      if instr.Jump? || (instr.Fork? && Acc(code, text, instr.target, i, j, n - 1)) {
        RunInside(code, text, instr.target, i, j, n - 1);
      } else {
        RunInside(code, text, pc + instr.Length(), i + Consumed(instr), j, n - 1);
      }
    }
  }

  // ----- from one place to another -----

  /** One instruction, forks being free choices, leads from `pc` at `i` to `to` at `k`. */
  ghost predicate Goes(code: seq<byte>, text: seq<byte>, pc: nat, i: nat, to': nat, k: nat) {
    && pc < |code|
    && var instr := Decode(code, pc);
    match instr
    case Bad => false
    case Jump(t) => to' == t && k == i
    case Fork(t) => (to' == pc + 3 || to' == t) && k == i
    case _ => Passes(instr, text, i) && to' == pc + instr.Length() && k == i + Consumed(instr)
  }

  ghost predicate GoesIn(code: seq<byte>, text: seq<byte>, pc: nat, i: nat, to': nat, k: nat, n: nat)
    decreases n
  {
    if n == 0 then pc == to' && i == k
    else exists x: nat, m: nat :: GoesIn(code, text, pc, i, x, m, n - 1) && Goes(code, text, x, m, to', k)
  }

  lemma GoesAccepted(code: seq<byte>, text: seq<byte>, pc: nat, i: nat, to': nat, k: nat, j: nat)
    requires Goes(code, text, pc, i, to', k) && AccFrom(code, text, to', k, j)
    ensures AccFrom(code, text, pc, i, j)
  {
    hide AccFrom, Decode, Passes;
    Unfold(code, text, pc, i, j);
  }

  /** What is accepted from a place is accepted from wherever the place is reached from. */
  lemma {:induction false} GoesInAccepted(code: seq<byte>, text: seq<byte>, pc: nat, i: nat, to': nat, k: nat, n: nat,
                                          j: nat)
    requires GoesIn(code, text, pc, i, to', k, n) && AccFrom(code, text, to', k, j)
    ensures AccFrom(code, text, pc, i, j)
    decreases n
  {
    hide AccFrom, Goes;
    if n > 0 {
      var x: nat, m: nat :| GoesIn(code, text, pc, i, x, m, n - 1) && Goes(code, text, x, m, to', k);
      GoesAccepted(code, text, x, m, to', k, j);
      GoesInAccepted(code, text, pc, i, x, m, n - 1, j);
    }
  }
}
