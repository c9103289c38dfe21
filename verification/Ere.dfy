/** Extended regular expressions: syntax trees and what they match.

    Branches and alternatives grow on the right, which is how the pattern is read. */
module Ere {
  import opened Bytes

  datatype Op = Star | Plus | Opt

  datatype Atom =
    | Chr(c: byte, escaped: bool)
    | Dot
    | Bracket(spelling: seq<byte>, negated: bool, members: set<byte>)
    | Group(alts: Alts)
    | Bol
    | Eol

  datatype Piece = Once(atom: Atom) | Rep(piece: Piece, op: Op)
  datatype Branch = Empty | Snoc(init: Branch, last: Piece)
  datatype Alts = One(only: Branch) | More(others: Alts, branch: Branch)

  const NEWLINE: byte := 10

  // ----- meaning: `x` can match text[i..k] -----

  predicate AtLineStart(text: seq<byte>, i: nat) {
    i == 0 || (i <= |text| && text[i - 1] == NEWLINE)
  }

  predicate AtLineEnd(text: seq<byte>, i: nat) {
    i == |text| || (i < |text| && text[i] == NEWLINE)
  }

  ghost predicate AtomMatches(a: Atom, text: seq<byte>, i: nat, k: nat)
    decreases a, 0, 0
  {
    match a
    case Chr(c, _) => i < |text| && text[i] == c && k == i + 1
    case Dot => i < |text| && text[i] != NEWLINE && k == i + 1
    case Bracket(_, negated, members) =>
      i < |text| && (text[i] in members) != negated && k == i + 1
    case Group(alts) => AltsMatch(alts, text, i, k)
    case Bol => k == i && AtLineStart(text, i)
    case Eol => k == i && AtLineEnd(text, i)
  }

  ghost predicate PieceMatches(p: Piece, text: seq<byte>, i: nat, k: nat)
    decreases p, 0, 0
  {
    match p
    case Once(a) => AtomMatches(a, text, i, k)
    case Rep(q, Star) => exists n: nat :: Repeats(q, text, i, k, n)
    case Rep(q, Plus) => exists n: nat :: n >= 1 && Repeats(q, text, i, k, n)
    case Rep(q, Opt) => i == k || PieceMatches(q, text, i, k)
  }

  /** `n` consecutive matches of `p`. */
  ghost predicate Repeats(p: Piece, text: seq<byte>, i: nat, k: nat, n: nat)
    decreases p, 1, n
  {
    if n == 0 then i == k
    else exists m: nat :: PieceMatches(p, text, i, m) && Repeats(p, text, m, k, n - 1)
  }

  ghost predicate BranchMatches(b: Branch, text: seq<byte>, i: nat, k: nat)
    decreases b, 0, 0
  {
    match b
    case Empty => i == k
    case Snoc(init, last) =>
      exists m: nat :: BranchMatches(init, text, i, m) && PieceMatches(last, text, m, k)
  }

  ghost predicate AltsMatch(r: Alts, text: seq<byte>, i: nat, k: nat)
    decreases r, 0, 0
  {
    match r
    case One(b) => BranchMatches(b, text, i, k)
    case More(others, b) => AltsMatch(others, text, i, k) || BranchMatches(b, text, i, k)
  }

  // ----- runs of repetition operators -----

  function RepAll(p: Piece, ops: seq<Op>): Piece {
    if ops == [] then p else Rep(RepAll(p, ops[..|ops| - 1]), ops[|ops| - 1])
  }

  function ZeroOk(ops: seq<Op>): bool {
    exists k :: 0 <= k < |ops| && ops[k] != Plus
  }

  function ManyOk(ops: seq<Op>): bool {
    exists k :: 0 <= k < |ops| && ops[k] != Opt
  }

  lemma RunAllows(ops: seq<Op>)
    requires ops != []
    ensures ZeroOk(ops) || ManyOk(ops)
  {
    assert ops[0] != Plus || ops[0] != Opt;
  }

  /** What a run of operators collapses to. */
  ghost predicate CollapsedMatches(p: Piece, zero: bool, many: bool, text: seq<byte>, i: nat, k: nat) {
    exists n: nat :: (n == 0 ==> zero) && (n > 1 ==> many) && Repeats(p, text, i, k, n)
  }

  lemma {:induction false} RepeatsJoin(p: Piece, text: seq<byte>, i: nat, m: nat, k: nat, a: nat, b: nat)
    requires Repeats(p, text, i, m, a) && Repeats(p, text, m, k, b)
    ensures Repeats(p, text, i, k, a + b)
    decreases a
  {
    if a > 0 {
      var x: nat :| PieceMatches(p, text, i, x) && Repeats(p, text, x, m, a - 1);
      RepeatsJoin(p, text, x, m, k, a - 1, b);
    }
  }

  lemma OneRepeat(p: Piece, text: seq<byte>, i: nat, k: nat)
    ensures Repeats(p, text, i, k, 1) <==> PieceMatches(p, text, i, k)
  {
    if PieceMatches(p, text, i, k) {
      assert Repeats(p, text, k, k, 0);
    }
  }

  /** Repetitions of a collapsed run are repetitions of its operand. */
  lemma {:induction false} FlattenRepeats(p: Piece, q: Piece, zero: bool, many: bool,
                                          text: seq<byte>, i: nat, k: nat, n: nat) returns (r: nat)
    requires Repeats(q, text, i, k, n)
    requires forall x: nat, y: nat :: PieceMatches(q, text, x, y) <==> CollapsedMatches(p, zero, many, text, x, y)
    ensures Repeats(p, text, i, k, r)
    ensures !zero ==> r >= n
    ensures !many ==> r <= n
    decreases n
  {
    if n == 0 {
      r := 0;
    } else {
      var m: nat :| PieceMatches(q, text, i, m) && Repeats(q, text, m, k, n - 1);
      assert CollapsedMatches(p, zero, many, text, i, m);
      var a: nat :| (a == 0 ==> zero) && (a > 1 ==> many) && Repeats(p, text, i, m, a);
      var b := FlattenRepeats(p, q, zero, many, text, m, k, n - 1);
      RepeatsJoin(p, text, i, m, k, a, b);
      r := a + b;
    }
  }

  /** A nonempty run such as `+?*` means: zero matches if some operator is not `+`,
      several matches if some operator is not `?`. */
  lemma {:induction false} RunCollapses(p: Piece, ops: seq<Op>, text: seq<byte>, i: nat, k: nat)
    requires ops != []
    ensures PieceMatches(RepAll(p, ops), text, i, k)
       <==> CollapsedMatches(p, ZeroOk(ops), ManyOk(ops), text, i, k)
    decreases |ops|
  {
    var front, op := ops[..|ops| - 1], ops[|ops| - 1];
    var q := RepAll(p, front);
    var fz, fm := ZeroOk(front), ManyOk(front);
    RunFlags(ops);
    forall x: nat, y: nat
      ensures PieceMatches(q, text, x, y) <==> CollapsedMatches(p, fz, fm, text, x, y)
    {
      if front == [] {
        OneRepeat(p, text, x, y);
      } else {
        RunCollapses(p, front, text, x, y);
      }
    }
    RunStep(p, q, fz, fm, op, text, i, k);
  }

  lemma RunFlags(ops: seq<Op>)
    requires |ops| > 0
    ensures ZeroOk(ops) == (ZeroOk(ops[..|ops| - 1]) || ops[|ops| - 1] != Plus)
    ensures ManyOk(ops) == (ManyOk(ops[..|ops| - 1]) || ops[|ops| - 1] != Opt)
  {
    var front := ops[..|ops| - 1];
    if ZeroOk(front) {
      var j :| 0 <= j < |front| && front[j] != Plus;
      assert ops[j] != Plus;
    }
    if ManyOk(front) {
      var j :| 0 <= j < |front| && front[j] != Opt;
      assert ops[j] != Opt;
    }
    if ZeroOk(ops) && ops[|ops| - 1] == Plus {
      var j :| 0 <= j < |ops| && ops[j] != Plus;
      assert front[j] != Plus;
    }
    if ManyOk(ops) && ops[|ops| - 1] == Opt {
      var j :| 0 <= j < |ops| && ops[j] != Opt;
      assert front[j] != Opt;
    }
  }

  /** One more operator on an already collapsed run. */
  lemma RunStep(p: Piece, q: Piece, fz: bool, fm: bool, op: Op, text: seq<byte>, i: nat, k: nat)
    requires forall x: nat, y: nat :: PieceMatches(q, text, x, y) <==> CollapsedMatches(p, fz, fm, text, x, y)
    ensures PieceMatches(Rep(q, op), text, i, k)
       <==> CollapsedMatches(p, fz || op != Plus, fm || op != Opt, text, i, k)
  {
    var zero, many := fz || op != Plus, fm || op != Opt;
    if PieceMatches(Rep(q, op), text, i, k) {
      if op == Opt && i == k {
        assert Repeats(p, text, i, k, 0);
      } else {
        var n: nat;
        match op {
          case Opt =>
            OneRepeat(q, text, i, k);
            n := 1;
          case Star => assert PieceMatches(Rep(q, Star), text, i, k); n :| Repeats(q, text, i, k, n);
          case Plus => assert PieceMatches(Rep(q, Plus), text, i, k); n :| n >= 1 && Repeats(q, text, i, k, n);
        }
        var r := FlattenRepeats(p, q, fz, fm, text, i, k, n);
        assert (r == 0 ==> zero) && (r > 1 ==> many);
      }
    }
    if CollapsedMatches(p, zero, many, text, i, k) {
      var n: nat :| (n == 0 ==> zero) && (n > 1 ==> many) && Repeats(p, text, i, k, n);
      OperandRepeats(p, q, fz, fm, op, text, i, k, n);
    }
  }

  lemma OperandRepeats(p: Piece, q: Piece, fz: bool, fm: bool, op: Op, text: seq<byte>, i: nat, k: nat, n: nat)
    requires forall x: nat, y: nat :: PieceMatches(q, text, x, y) <==> CollapsedMatches(p, fz, fm, text, x, y)
    requires Repeats(p, text, i, k, n) && (n == 0 ==> fz || op != Plus) && (n > 1 ==> fm || op != Opt)
    ensures PieceMatches(Rep(q, op), text, i, k)
  {
    if n == 0 {
      if op == Star {
        assert Repeats(q, text, i, k, 0);
      } else if op == Plus {
        assert CollapsedMatches(p, fz, fm, text, i, k);
        OneRepeat(q, text, i, k);
      }
    } else if n == 1 || fm {
      assert CollapsedMatches(p, fz, fm, text, i, k);
      OneRepeat(q, text, i, k);
    } else {
      EachOnce(p, q, fz, fm, text, i, k, n);
    }
  }

  lemma {:induction false} EachOnce(p: Piece, q: Piece, fz: bool, fm: bool, text: seq<byte>, i: nat, k: nat, n: nat)
    requires forall x: nat, y: nat :: PieceMatches(q, text, x, y) <==> CollapsedMatches(p, fz, fm, text, x, y)
    requires Repeats(p, text, i, k, n)
    ensures Repeats(q, text, i, k, n)
    decreases n
  {
    if n > 0 {
      var m: nat :| PieceMatches(p, text, i, m) && Repeats(p, text, m, k, n - 1);
      OneRepeat(p, text, i, m);
      assert CollapsedMatches(p, fz, fm, text, i, m);
      EachOnce(p, q, fz, fm, text, m, k, n - 1);
    }
  }
}
