/** Patterns on which the code does not do what it should: loops given up too early, and a map of first
    bytes made from a byte that is not part of the code. */
module Pitfalls {
  import opened Answering
  import opened BracketLists
  import opened Bytecode
  import opened Bytes
  import opened CodeMeaning
  import opened CodeShape
  import opened CodeTree
  import opened Ere
  import opened EreGrammar
  import EreParser
  import opened Fastmap
  import opened Judgement
  import opened LoopCode
  import opened LoopDepth
  import opened LoopForms
  import opened LoopSafety
  import opened LoopTrust
  import opened Machine
  import opened MatcherState
  import opened MatcherSteps
  import opened Numbering
  import opened PastTheEnd
  import opened PopDecision
  import opened Rewriting

  // ----- a loop over one instruction, and one more after it -----

  predicate OneCharacter(instr: Instr, c: byte) {
    instr == Exact([c]) || (instr.CharSet? && Eats(instr, c))
  }

  /** The code of a loop over `body`, which is `n` bytes long, and then `follow`. */
  predicate LoopThen(code: seq<byte>, n: nat, body: Instr, follow: Instr) {
    && n + 6 < |code|
    && code[0] == ON_FAILURE_JUMP && Target(code, 0) == n + 6
    && Decode(code, 3) == body && body.Length() == n && code[3] in {EXACTN, CHARSET, CHARSET_NOT}
    && code[n + 3] == MAYBE_POP_JUMP && Target(code, n + 3) == 0
    && Decode(code, n + 6) == follow && n + 6 + follow.Length() == |code|
    && code[n + 6] in {EXACTN, CHARSET, CHARSET_NOT}
  }

  /** If a judgement is wrong, the loop takes the character that what follows it needs, and never gives it
      back: a text of one character is accepted, but not found. */
  lemma LoopPrunes(code: seq<byte>, n: nat, body: Instr, follow: Instr, c: byte)
    requires LoopThen(code, n, body, follow) && OneCharacter(body, c) && OneCharacter(follow, c) && Judged(body, follow)
    ensures Accepts(code, [c], 0, 1) && Runs([c], 0, First(code, 0), 6, NoMatch)
  {
    LoopAccepts(code, n, body, follow, c);
    hide Judged, Decode, Target, Moves, Resumes, Runs, Backs, Pops;
    var text, first := [c], First(code, 0);
    var once := first.(p := 3, stack := [Point(n + 6, 0, {})]);
    var taken := once.(p := n + 3, d := 1);
    var popped := taken.(p := 0, stack := [], code := code[n + 3 := POP_FAILURE_JUMP]);
    var again := popped.(p := 3, stack := [Point(n + 6, 1, {})]);
    var last := popped.(p := n + 6);
    LoopMoves(code, n, body, follow, c);
    LoopMovesAgain(code, n, body, follow, c);
    LeadingItself(text, 0, first, 6);
    Stepped(text, 0, first, 6, first, 6, once, true);
    Stepped(text, 0, first, 6, once, 5, taken, true);
    Stepped(text, 0, first, 6, taken, 4, popped, true);
    Stepped(text, 0, first, 6, popped, 3, again, true);
    Stepped(text, 0, first, 6, again, 2, again, false);
    Resumed(text, 0, first, 6, again, 2, last);
    Stepped(text, 0, first, 6, last, 1, last, false);
    Refused(text, 0, first, 6, last, 1, NoMatch, last);
  }

  lemma LoopAccepts(code: seq<byte>, n: nat, body: Instr, follow: Instr, c: byte)
    requires LoopThen(code, n, body, follow) && OneCharacter(follow, c)
    ensures Accepts(code, [c], 0, 1)
  {
    var text := [c];
    assert Acc(code, text, |code|, 1, 1, 0);
    assert text[0..1] == [c];
    assert Acc(code, text, n + 6, 0, 1, 1);
    assert Acc(code, text, 0, 0, 1, 2);
  }

  /** Once round the loop, until its failure point is dropped. */
  lemma LoopMoves(code: seq<byte>, n: nat, body: Instr, follow: Instr, c: byte)
    requires LoopThen(code, n, body, follow) && OneCharacter(body, c) && Judged(body, follow)
    ensures var text, first := [c], First(code, 0);
      var once := first.(p := 3, stack := [Point(n + 6, 0, {})]);
      var taken := once.(p := n + 3, d := 1);
      var popped := taken.(p := 0, stack := [], code := code[n + 3 := POP_FAILURE_JUMP]);
      Moves(text, first, once, true) && Moves(text, once, taken, true) && Moves(text, taken, popped, true)
  {
    hide Judged, Decode, Target;
    var text := [c];
    assert text[0..1] == [c];
    assert [] + [Point(n + 6, 0, {})] == [Point(n + 6, 0, {})];
    assert [Point(n + 6, 0, {})][..0] == [];
    assert Follow(code, n + 6) == n + 6;
    assert Pops(code, n + 3);
  }

  /** And once more, with the text used up. */
  lemma LoopMovesAgain(code: seq<byte>, n: nat, body: Instr, follow: Instr, c: byte)
    requires LoopThen(code, n, body, follow) && OneCharacter(body, c) && OneCharacter(follow, c)
    ensures var text, now := [c], code[n + 3 := POP_FAILURE_JUMP];
      var popped := Config(now, 0, 1, {}, [], false, 0);
      var again := popped.(p := 3, stack := [Point(n + 6, 1, {})]);
      var last := popped.(p := n + 6);
      && Moves(text, popped, again, true) && Moves(text, again, again, false) && Resumes(again, last, true)
      && Moves(text, last, last, false) && Resumes(last, last, false)
  {
    var text, now := [c], code[n + 3 := POP_FAILURE_JUMP];
    OtherDecode(code, n + 3, POP_FAILURE_JUMP, 3);
    OtherDecode(code, n + 3, POP_FAILURE_JUMP, n + 6);
    SameTarget(code, now, 0);
    hide Decode, Target, Judged, Moves, Resumes;
    var popped := Config(now, 0, 1, {}, [], false, 0);
    var again := popped.(p := 3, stack := [Point(n + 6, 1, {})]);
    var last := popped.(p := n + 6);
    Forks(text, popped, n + 6);
    UsedUp(text, again, body);
    UsedUp(text, last, follow);
    BackTo(again, last);
    NoWayBack(last);
  }

  lemma Forks(text: seq<byte>, c: Config, t: nat)
    requires c.p + 3 <= |c.code| && c.code[c.p] == ON_FAILURE_JUMP && Target(c.code, c.p) == t && c.stack == []
    ensures Moves(text, c, c.(p := c.p + 3, stack := [Point(t, c.d, c.idle)]), true)
  {
    assert [] + [Point(t, c.d, c.idle)] == [Point(t, c.d, c.idle)];
  }

  lemma UsedUp(text: seq<byte>, c: Config, instr: Instr)
    requires c.p < |c.code| && c.code[c.p] in {EXACTN, CHARSET, CHARSET_NOT} && Decode(c.code, c.p) == instr
    requires (instr.Exact? && instr.bytes != []) || instr.CharSet?
    requires c.d >= |text|
    ensures Moves(text, c, c, false)
  {
    hide Decode;
  }

  lemma BackTo(c: Config, c': Config)
    requires |c.stack| == 1 && c.stack[0] == Point(c'.p, c'.d, c.idle) && c' == c.(p := c'.p, d := c'.d, stack := [])
    requires c'.p < |c.code| && c.code[c'.p] in {EXACTN, CHARSET, CHARSET_NOT}
    ensures Resumes(c, c', true)
  {
    assert c.stack[..0] == [];
  }

  lemma NoWayBack(c: Config)
    requires c.stack == []
    ensures Resumes(c, c, false)
  {
    hide Skipped;
  }

  lemma SameTarget(code: seq<byte>, now: seq<byte>, p: nat)
    requires |now| == |code| && p + 3 <= |code| && now[p + 1] == code[p + 1] && now[p + 2] == code[p + 2]
    ensures Target(now, p) == Target(code, p)
  {
  }

  /** Changing an opcode changes no other instruction. */
  lemma OtherDecode(code: seq<byte>, k: nat, op: byte, x: nat)
    requires k < |code| && x < |code| && Decode(code, x) != Bad && (k < x || x + Decode(code, x).Length() <= k)
    requires code[x] in {EXACTN, CHARSET, CHARSET_NOT}
    ensures Decode(code[k := op], x) == Decode(code, x)
  {
    var now, end := code[k := op], x + Decode(code, x).Length();
    assert now[x + 2..end] == code[x + 2..end];
  }

  // ----- patterns of that form -----

  /** What a node of one instruction is compiled to. */
  function InstrOf(n: Node): Instr {
    match n
    case Text(chars) => Exact(TextBytes(chars))
    case Set(_, negated, _, bitmap) => CharSet(negated, bitmap)
    case _ => Bad
  }

  /** `b*f` */
  function StarThen(b: Node, f: Node): Choice {
    Sole(Add(Add(NoNode, Repeated(b, [Star])), f))
  }

  lemma UnitInstr(n: Node, code: seq<byte>, o: nat)
    requires (n.Text? || n.Set?) && NodeOk(n) && At(code, o, NodeCode(n))
    ensures o < |code| && Decode(code, o) == InstrOf(n) && InstrOf(n).Length() == |NodeCode(n)|
    ensures code[o] in {EXACTN, CHARSET, CHARSET_NOT}
  {
    hide Decode, Represents;
    match n {
      case Text(chars) => DecodeCounted(code, o, EXACTN, TextBytes(chars));
      case Set(_, negated, _, bitmap) => SetInstr(n, code, o);
    }
  }

  lemma SetInstr(n: Node, code: seq<byte>, o: nat)
    requires n.Set? && NodeOk(n) && At(code, o, NodeCode(n))
    ensures o < |code| && Decode(code, o) == InstrOf(n) && code[o] in {CHARSET, CHARSET_NOT}
  {
    hide Decode;
    DecodeCounted(code, o, if n.negated then CHARSET_NOT else CHARSET, n.bitmap);
  }

  lemma StarThenOk(b: Node, f: Node)
    requires NodeOk(b) && NodeOk(f) && Repeatable(b)
    ensures ChoiceOk(StarThen(b, f))
  {
    hide Represents;
    var ns := Add(NoNode, Repeated(b, [Star]));
    assert NodeOk(Repeated(b, [Star]));
    assert NodesOk(NoNode) && NodesOk(ns) && NodesOk(Add(ns, f));
  }

  lemma StarThenCode(b: Node, f: Node)
    requires (b.Text? || b.Set?) && (f.Text? || f.Set?) && NodeOk(b) && NodeOk(f)
    ensures |ChoiceCode(StarThen(b, f))| < JUMP_LIMIT
    ensures LoopThen(ChoiceCode(StarThen(b, f)), |NodeCode(b)|, InstrOf(b), InstrOf(f))
  {
    hide Represents, Decode, NodeCode, Target, ChoiceCode, At, RepeatCode, NodeOk, InstrOf;
    var code, body := ChoiceCode(StarThen(b, f)), NodeCode(b);
    assert ZeroOk([Star]) && ManyOk([Star]) by { assert [Star][0] == Star; }
    StarThenParts(b, f);
    UnitSize(b);
    UnitSize(f);
    RepeatParts(code, 0, body, true, true);
    DecodeJump(code, 0, ON_FAILURE_JUMP, |body| + 3);
    DecodeJump(code, |body| + 3, MAYBE_POP_JUMP, -|body| - 6);
    UnitInstr(b, code, 3);
    UnitInstr(f, code, |body| + 6);
  }

  lemma UnitSize(n: Node)
    requires (n.Text? || n.Set?) && NodeOk(n)
    ensures 2 <= |NodeCode(n)| <= 257
  {
    hide InBitmap;
  }

  lemma StarThenParts(b: Node, f: Node)
    requires ZeroOk([Star]) && ManyOk([Star])
    ensures var code := ChoiceCode(StarThen(b, f));
      && At(code, 0, RepeatCode(NodeCode(b), true, true)) && At(code, |NodeCode(b)| + 6, NodeCode(f))
      && |code| == |NodeCode(b)| + 6 + |NodeCode(f)|
  {
    hide At, ZeroOk, ManyOk, RepeatCode;
    var code, loop := ChoiceCode(StarThen(b, f)), RepeatCode(NodeCode(b), true, true);
    LoopLength(NodeCode(b));
    var ns := Add(NoNode, Repeated(b, [Star]));
    assert NodeCode(Repeated(b, [Star])) == loop;
    assert NodesCode(ns) == NodesCode(NoNode) + loop == [] + loop == loop;
    assert code == NodesCode(Add(ns, f)) == loop + NodeCode(f);
    ItselfAt(code);
    AtSplit(code, 0, loop, NodeCode(f));
  }

  lemma LoopLength(body: seq<byte>)
    ensures |RepeatCode(body, true, true)| == |body| + 6
  {
  }

  lemma ItselfAt(code: seq<byte>)
    ensures At(code, 0, code)
  {
  }

  /** The machine never matches the character, although the expression does. */
  ghost predicate Overlooked(tree: Choice, c: byte) {
    && AltsMatch(ExpandChoice(tree), [c], 0, 1)
    && Runs([c], 0, First(ChoiceCode(tree), 0), 6, NoMatch)
    && forall fuel: nat, r :: Runs([c], 0, First(ChoiceCode(tree), 0), fuel, r) ==> !r.Matched?
  }

  /** A wrong judgement makes it overlook a text of one character. */
  lemma JudgedWrongly(b: Node, f: Node, c: byte)
    requires (b.Text? || b.Set?) && (f.Text? || f.Set?) && NodeOk(b) && NodeOk(f)
    requires OneCharacter(InstrOf(b), c) && OneCharacter(InstrOf(f), c) && Judged(InstrOf(b), InstrOf(f))
    ensures Overlooked(StarThen(b, f), c)
  {
    var tree := StarThen(b, f);
    var code := ChoiceCode(tree);
    assert Repeatable(b);
    StarThenCode(b, f);
    StarThenOk(b, f);
    hide ChoiceOk, NodeOk, ChoiceCode, Judged, LoopThen, Accepts, AltsMatch, Runs, Shape, OneCharacter, Neat;
    LoopPrunes(code, |NodeCode(b)|, InstrOf(b), InstrOf(f), c);
    CodeAcceptsMeaning(tree, [c], 0, 1);
    var starts := StarThenShaped(b, f);
    forall fuel: nat, r | Runs([c], 0, First(code, 0), fuel, r)
      ensures !r.Matched?
    {
      if r.Matched? {
        OnlyAnswer(Job(code, starts, [c], 0), fuel, r, 6, NoMatch);
      }
    }
  }

  lemma StarThenShaped(b: Node, f: Node) returns (starts: set<nat>)
    requires (b.Text? || b.Set?) && (f.Text? || f.Set?) && Repeatable(b) && ChoiceOk(StarThen(b, f))
    requires |ChoiceCode(StarThen(b, f))| < JUMP_LIMIT
    ensures var code := ChoiceCode(StarThen(b, f)); Shape(code, 0, |code|, starts, {}) && Neat(code, starts)
    ensures var code := ChoiceCode(StarThen(b, f)); forall t :: Closes(code, starts, t) ==> TightAt(code, t)
  {
    hide ChoiceOk, ChoiceCode, Shape, ExpandChoice, TightAt;
    starts := CodeShaped(StarThen(b, f));
    NoneGrouped(b, f);
    PlainTight(StarThen(b, f), starts);
  }

  /** There is only the one loop. */
  lemma OnlyLoop(code: seq<byte>, starts: set<nat>, n: nat, body: Instr, follow: Instr, t: nat)
    requires LoopThen(code, n, body, follow) && Shape(code, 0, |code|, starts, {}) && Closes(code, starts, t)
    ensures t == n + 3 && Follow(code, t + 3) == n + 6
  {
    hide Shape, Target;
    EndIsStart(code, 0, |code|, starts, {});
    InstructionOk(code, starts, 0);
    InstructionOk(code, starts, 3);
    InstructionOk(code, starts, n + 3);
    InstructionOk(code, starts, n + 6);
  }

  /** For patterns `b*f` over single characters that is all there is to it: some character is overlooked exactly
      when one of the two comparisons goes wrong. */
  lemma OverlooksExactly(b: Node, f: Node)
    requires (b.Text? || b.Set?) && (f.Text? || f.Set?) && NodeOk(b) && NodeOk(f)
    requires (b.Text? ==> |b.chars| == 1) && (f.Text? ==> |f.chars| == 1) && (f.Set? ==> !f.negated)
    ensures (exists c: byte :: Overlooked(StarThen(b, f), c)) <==> Mistaken(InstrOf(b), InstrOf(f))
  {
    hide Represents, Overlooked, Judged;
    MapsAreShort(b);
    MapsAreShort(f);
    MistakenExactly(InstrOf(b), InstrOf(f));
    if Mistaken(InstrOf(b), InstrOf(f)) {
      var c: byte :| Starts(InstrOf(b), c) && Admits(InstrOf(f), c);
      hide NodeOk, InBitmap;
      JudgedWrongly(b, f, c);
    } else if c: byte :| Overlooked(StarThen(b, f), c) {
      NothingOverlooked(b, f, c);
    }
  }

  /** So the condition on loops is exact for them. */
  lemma OverlooksUnlessSafe(b: Node, f: Node)
    requires (b.Text? || b.Set?) && (f.Text? || f.Set?) && NodeOk(b) && NodeOk(f)
    requires (b.Text? ==> |b.chars| == 1) && (f.Text? ==> |f.chars| == 1) && (f.Set? ==> !f.negated)
    ensures (exists c: byte :: Overlooked(StarThen(b, f), c)) <==> !SafeLoops(ExpandChoice(StarThen(b, f)))
  {
    hide Overlooked, ExpandChoice, SafeLoops, Misjudged, Mistaken, NodeOk;
    OverlooksExactly(b, f);
    SafeStar(b, f);
    MisjudgedExactly(b, f);
  }

  lemma SafeStar(b: Node, f: Node)
    requires (b.Text? || b.Set?) && (f.Text? || f.Set?) && NodeOk(b) && NodeOk(f) && Repeatable(b)
    ensures PieceOf(b).Once? && !PieceOf(b).atom.Group?
    ensures SafeLoops(ExpandChoice(StarThen(b, f))) <==> !Misjudged(PieceOf(b).atom, PieceAhead(PieceOf(f), Nothing))
  {
    hide Misjudged, RepAll;
    var star, next := Repeated(b, [Star]), PieceAhead(PieceOf(f), Nothing);
    var ns := Add(NoNode, star);
    assert ExpandChoice(StarThen(b, f)) == One(Expand(Add(ns, f)));
    OncePiece(b);
    AheadNodes(ns, f, Nothing);
    AheadNodes(NoNode, star, next);
    AheadRepeated(b, [Star], next);
    assert ManyOk([Star]) by { assert [Star][0] != Opt; }
  }

  lemma MisjudgedExactly(b: Node, f: Node)
    requires (b.Text? || b.Set?) && (f.Text? || f.Set?) && NodeOk(b) && NodeOk(f)
    requires (b.Text? ==> |b.chars| == 1) && (f.Text? ==> |f.chars| == 1) && (f.Set? ==> !f.negated)
    ensures PieceOf(b).Once? && Comparable(InstrOf(b), InstrOf(f))
    ensures Misjudged(PieceOf(b).atom, PieceAhead(PieceOf(f), Nothing)) <==> Mistaken(InstrOf(b), InstrOf(f))
  {
    hide Bit;
    if b.Set? {
      if |b.bitmap| == 32 {
        FullMap(b.bitmap, b.members);
      }
      if m: byte :| m in b.members && 248 <= m {
        assert InBitmap(b.bitmap, m);
      }
    }
  }

  lemma MapsAreShort(n: Node)
    requires (n.Text? || n.Set?) && NodeOk(n)
    ensures ShortMap(InstrOf(n))
  {
    hide InBitmap;
  }

  lemma NothingOverlooked(b: Node, f: Node, c: byte)
    requires (b.Text? || b.Set?) && (f.Text? || f.Set?) && NodeOk(b) && NodeOk(f) && Repeatable(b)
    requires Judged(InstrOf(b), InstrOf(f)) ==> Disjoint(InstrOf(b), InstrOf(f))
    ensures !Overlooked(StarThen(b, f), c)
  {
    hide NodeCode, ChoiceCode, AltsMatch, Judged, Disjoint, Shape, Runs, Accepts, Represents;
    var tree := StarThen(b, f);
    if Overlooked(tree, c) {
      var starts := RightUnlessMistaken(b, f, [c], 0, 6, NoMatch);
      StarThenOk(b, f);
      CodeAcceptsMeaning(tree, [c], 0, 1);
      assert false;
    }
  }

  /** Otherwise every answer, on any text, is right. */
  lemma RightUnlessMistaken(b: Node, f: Node, text: seq<byte>, start: nat, n: nat, r: Outcome)
    returns (starts: set<nat>)
    requires (b.Text? || b.Set?) && (f.Text? || f.Set?) && NodeOk(b) && NodeOk(f) && Repeatable(b) && start <= |text|
    requires Judged(InstrOf(b), InstrOf(f)) ==> Disjoint(InstrOf(b), InstrOf(f))
    requires Runs(text, start, First(ChoiceCode(StarThen(b, f)), start), n, r)
    ensures Right(Job(ChoiceCode(StarThen(b, f)), starts, text, start), r) && |ChoiceCode(StarThen(b, f))| < JUMP_LIMIT
    ensures Sure(Job(ChoiceCode(StarThen(b, f)), starts, text, start))
  {
    hide NodeCode, ChoiceCode, Judged, Disjoint, Shape, Runs, Represents;
    hide NodeOk, LoopThen, ChoiceOk, Right, Sure, Neat, TightAt;
    StarThenCode(b, f);
    StarThenOk(b, f);
    starts := StarThenShaped(b, f);
    FairLoop(ChoiceCode(StarThen(b, f)), starts, |NodeCode(b)|, InstrOf(b), InstrOf(f));
    RightWhenFair(Job(ChoiceCode(StarThen(b, f)), starts, text, start), n, r);
  }

  lemma FairLoop(code: seq<byte>, starts: set<nat>, n: nat, body: Instr, follow: Instr)
    requires LoopThen(code, n, body, follow) && Shape(code, 0, |code|, starts, {})
    requires forall t :: Closes(code, starts, t) ==> TightAt(code, t)
    requires Judged(body, follow) ==> Disjoint(body, follow)
    ensures forall t :: Closes(code, starts, t) ==> Trusted(code, starts, t)
  {
    hide Shape, Judged, Disjoint, Decode, Target;
    forall t | Closes(code, starts, t)
      ensures Trusted(code, starts, t)
    {
      OnlyLoop(code, starts, n, body, follow, t);
    }
  }

  lemma RightWhenFair(job: Job, n: nat, r: Outcome)
    requires Shape(job.code, 0, |job.code|, job.starts, {}) && Neat(job.code, job.starts) && job.start <= |job.text|
    requires forall t :: Closes(job.code, job.starts, t) ==> Trusted(job.code, job.starts, t)
    requires Runs(job.text, job.start, First(job.code, job.start), n, r)
    ensures Sure(job) && Right(job, r)
  {
    hide Shape, Neat, Trusted, Sure, Runs, Right, Running, Rewritten;
    SureWhen(job);
    Init(job);
    Unchanged(job.code, job.starts);
    RunsRight(job, First(job.code, job.start), n, r);
  }

  lemma NoneGrouped(b: Node, f: Node)
    requires (b.Text? || b.Set?) && (f.Text? || f.Set?) && Repeatable(b)
    ensures PlainLoops(ExpandChoice(StarThen(b, f)))
  {
    hide RepAll;
    var ns := Add(NoNode, Repeated(b, [Star]));
    OncePiece(b);
    RepeatedPiece(b, [Star]);
    RunPlain(PieceOf(b).atom, [Star]);
    PlainAdd(NoNode, Repeated(b, [Star]));
    PlainAdd(ns, f);
    assert ExpandChoice(StarThen(b, f)) == One(Expand(Add(ns, f)));
  }

  lemma PlainAdd(init: Nodes, last: Node)
    requires BranchPlain(Expand(init)) && (last.Text? || PiecePlain(PieceOf(last)))
    ensures BranchPlain(Expand(Add(init, last)))
  {
    hide Expand, AddChars;
    ExpandLast(init, last);
    if last.Text? {
      PlainChars(Expand(init), last.chars);
    }
  }

  // ----- the two patterns -----

  /** Only such a tree has such an expression. */
  lemma OnlyStarThen(tree: Choice, p: Atom, q: Atom) returns (b: Node, f: Node)
    requires ChoiceOk(tree) && ExpandChoice(tree) == One(Snoc(Snoc(Empty, Rep(Once(p), Star)), Once(q)))
    requires (p.Chr? || p.Bracket?) && (q.Chr? || q.Bracket?)
    ensures tree == StarThen(b, f) && NodeOk(b) && NodeOk(f)
    ensures (b.Text? || b.Set?) && PieceOf(b) == Once(p) && (b.Text? ==> |b.chars| == 1)
    ensures (f.Text? || f.Set?) && PieceOf(f) == Once(q) && (f.Text? ==> |f.chars| == 1)
  {
    hide Represents;
    var ns := tree.nodes;
    f := ns.last;
    var ns' := ns.init;
    LastNode(Expand(ns'), f, Snoc(Empty, Rep(Once(p), Star)), q);
    assert ns'.Add?;
    var loop := ns'.last;
    assert NodesOk(ns) && NodesOk(ns') && NodeOk(loop) && NodesOk(ns'.init);
    LoopNode(Expand(ns'.init), loop, p);
    b := loop.body;
    assert Expand(ns'.init) == Empty;
    NothingExpands(ns'.init);
  }

  lemma NothingExpands(ns: Nodes)
    requires NodesOk(ns) && Expand(ns) == Empty
    ensures ns == NoNode
  {
    hide Represents, AddChars;
    if ns.Add? && ns.last.Text? {
      CharsLast(Expand(ns.init), ns.last.chars);
    }
  }

  lemma CharsBefore(before: Branch, chars: seq<TextChar>)
    requires chars != []
    ensures AddChars(before, chars).Snoc?
    ensures |chars| == 1 ==> AddChars(before, chars).init == before
    ensures |chars| > 1 ==> AddChars(before, chars).init.Snoc? && AddChars(before, chars).init.last.Once?
  {
    var init := chars[..|chars| - 1];
    assert AddChars(before, chars).init == AddChars(before, init);
  }

  lemma RepAllRep(p: Piece, ops: seq<Op>)
    ensures if ops == [] then RepAll(p, ops) == p
      else RepAll(p, ops) == Rep(RepAll(p, ops[..|ops| - 1]), ops[|ops| - 1])
  {
  }

  lemma LastNode(before: Branch, n: Node, rest: Branch, q: Atom)
    requires NodeOk(n) && ExpandNode(before, n) == Snoc(rest, Once(q)) && (q.Chr? || q.Bracket?)
    requires rest.Snoc? && rest.last.Rep?
    ensures before == rest && (n.Text? || n.Set?) && PieceOf(n) == Once(q) && (n.Text? ==> |n.chars| == 1)
  {
    hide Represents, AddChars, RepAll;
    if n.Text? {
      CharsBefore(before, n.chars);
      CharsLast(before, n.chars);
    } else if n.Repeated? {
      RepAllRep(PieceOf(n.body), n.ops);
    }
  }

  lemma CharsLast(before: Branch, chars: seq<TextChar>)
    requires chars != []
    ensures AddChars(before, chars).Snoc?
    ensures AddChars(before, chars).last == Once(Chr(chars[|chars| - 1].c, chars[|chars| - 1].escaped))
  {
  }

  lemma LoopNode(before: Branch, n: Node, p: Atom)
    requires NodeOk(n) && ExpandNode(before, n) == Snoc(Empty, Rep(Once(p), Star)) && (p.Chr? || p.Bracket?)
    ensures n.Repeated? && n.ops == [Star] && before == Empty && NodeOk(n.body) && PieceOf(n.body) == Once(p)
    ensures (n.body.Text? || n.body.Set?) && (n.body.Text? ==> |n.body.chars| == 1)
  {
    hide Represents, AddChars, RepAll;
    if n.Text? {
      CharsLast(before, n.chars);
    } else if n.Repeated? {
      OneStar(PieceOf(n.body), n.ops, Once(p));
      LoopBody(n.body, p);
    }
  }

  lemma OneStar(q: Piece, ops: seq<Op>, p: Piece)
    requires ops != [] && RepAll(q, ops) == Rep(p, Star) && p.Once?
    ensures ops == [Star] && q == p
  {
    var front := ops[..|ops| - 1];
    RepAllRep(q, ops);
    RepAllRep(q, front);
    hide RepAll;
    assert ops == front + [ops[|ops| - 1]];
  }

  lemma LoopBody(n: Node, p: Atom)
    requires NodeOk(n) && Repeatable(n) && PieceOf(n) == Once(p) && (p.Chr? || p.Bracket?)
    ensures (n.Text? || n.Set?) && (n.Text? ==> |n.chars| == 1)
  {
    hide Represents;
  }

  const A: Atom := Chr(97, false)

  function TwoCharacters(c: byte, d: byte): Atom {
    Bracket([EreParser.LBRACKET, c, d, EreParser.RBRACKET], false, {c, d})
  }

  lemma ReadTwo(c: byte, d: byte)
    requires c == 97 && d in {98, 255}
    ensures PlainAtom(TwoCharacters(c, d))
  {
    var items := [Lone(c), Lone(d)];
    assert items[1..] == [Lone(d)] && items[1..][1..] == [] && items[0] == Lone(c) && items[1] == Lone(d);
    assert SpellItems(items[1..]) == [d] + SpellItems([]) == [d];
    assert SpellItems(items) == [c] + SpellItems(items[1..]) == [c, d];
    assert SpellList(items, false) == [EreParser.LBRACKET, c, d, EreParser.RBRACKET];
    assert ListClear(items, false) && Upward(items) && Chosen(items, {c, d});
  }

  lemma ReadStarThen(p: Atom, q: Atom)
    requires PlainAtom(p) && PlainAtom(q) && (p.Chr? || p.Bracket?) && (q.Chr? || q.Bracket?)
    requires NoDotStarNewline(SpellAtom(p) + [EreParser.STAR] + SpellAtom(q))
    ensures EreParser.Parse(SpellAtom(p) + [EreParser.STAR] + SpellAtom(q)) ==
      EreParser.Parsed(One(Snoc(Snoc(Empty, Rep(Once(p), Star)), Once(q))))
  {
    SignsNotPlain();
    hide PlainAtom, SpellAtom;
    var loop := Rep(Once(p), Star);
    var b := Snoc(Snoc(Empty, loop), Once(q));
    assert SpellPiece(loop) == SpellAtom(p) + [EreParser.STAR];
    assert SpellBranch(Snoc(Empty, loop)) == [] + SpellPiece(loop) == SpellPiece(loop);
    assert SpellBranch(b) == SpellPiece(loop) + SpellAtom(q);
    assert PlainPiece(Once(p));
    assert PlainPiece(loop) && BaseOf(loop) == BaseOf(Once(p)) == p;
    assert PlainPiece(Once(q));
    assert PlainBranch(Snoc(Empty, loop));
    assert PlainBranch(b);
    PlainReadBack(One(b));
  }

  /** `a*[ab]` does not match `a`: the length of the literal is taken for its first character. */
  lemma LiteralMisread(tree: Choice)
    requires ChoiceOk(tree)
    requires EreParser.Parse([97, EreParser.STAR, EreParser.LBRACKET, 97, 98, EreParser.RBRACKET]) ==
      EreParser.Parsed(ExpandChoice(tree))
    ensures Overlooked(tree, 97)
  {
    var q := TwoCharacters(97, 98);
    assert SpellAtom(A) + [EreParser.STAR] + SpellAtom(q) ==
      [97, EreParser.STAR, EreParser.LBRACKET, 97, 98, EreParser.RBRACKET];
    ReadTwo(97, 98);
    ReadStarThen(A, q);
    hide ChoiceOk, Overlooked, PlainAtom, EreParser.Parse, ExpandChoice, Represents;
    var b, f := OnlyStarThen(tree, A, q);
    MapOf(f, 97);
    MapOf(f, 1);
    assert TextBytes(b.chars) == [97];
    JudgedWrongly(b, f, 97);
  }

  lemma MapOf(n: Node, c: byte)
    requires n.Set? && NodeOk(n)
    ensures InBitmap(n.bitmap, c) <==> c in n.members
    ensures |n.bitmap| <= 32 && (255 in n.members ==> |n.bitmap| == 32)
  {
    assert InBitmap(n.bitmap, 255) <==> 255 in n.members;
  }

  /** `[a\377]*a` does not match `a`: the size of the full map is cut to nothing. */
  lemma FullMapMisread(tree: Choice)
    requires ChoiceOk(tree)
    requires EreParser.Parse([EreParser.LBRACKET, 97, 255, EreParser.RBRACKET, EreParser.STAR, 97]) ==
      EreParser.Parsed(ExpandChoice(tree))
    ensures Overlooked(tree, 97)
  {
    var p := TwoCharacters(97, 255);
    assert SpellAtom(p) + [EreParser.STAR] + SpellAtom(A) ==
      [EreParser.LBRACKET, 97, 255, EreParser.RBRACKET, EreParser.STAR, 97];
    ReadTwo(97, 255);
    ReadStarThen(p, A);
    hide ChoiceOk, Overlooked, PlainAtom, EreParser.Parse, ExpandChoice, Represents;
    var b, f := OnlyStarThen(tree, p, A);
    MapOf(b, 97);
    assert TextBytes(f.chars) == [97];
    JudgedWrongly(b, f, 97);
  }

  // ----- an empty alternative at the end -----

  /** `n|` */
  function OrNothing(n: Node): Choice {
    Or(Sole(Add(NoNode, n)), NoNode)
  }

  lemma OrNothingSize(n: Node)
    ensures |ChoiceCode(OrNothing(n))| == |NodeCode(n)| + 6
  {
    var body := NodeCode(n);
    assert NodesCode(Add(NoNode, n)) == [] + body == body && NodesCode(NoNode) == [];
    assert OpenCode(Sole(Add(NoNode, n)), JumpCode(JUMP_PAST_ALT, 0)) ==
      OpenAlternative(body, JumpCode(JUMP_PAST_ALT, 0));
  }

  lemma {:induction false} NoGroups(tree: Choice)
    requires ChoiceGroups(tree) == 0
    ensures ChoiceNumbered(tree, 0)
  {
    if tree.Or? {
      NoGroups(tree.init);
    }
    NoGroupsIn(tree.nodes);
  }

  lemma {:induction false} NoGroupsIn(ns: Nodes)
    requires NodesGroups(ns) == 0
    ensures NodesNumbered(ns, 0)
  {
    if ns.Add? {
      NoGroupsIn(ns.init);
      NotNumbered(ns.last);
    }
  }

  lemma {:induction false} NotNumbered(n: Node)
    requires NodeGroups(n) == 0
    ensures NodeNumbered(n, 0)
  {
    if n.Repeated? {
      NotNumbered(n.body);
    }
  }

  /** The analysis looks past the end of the code of `a*|`. */
  lemma EmptyAfterLoop(tree: Choice)
    requires ChoiceOk(tree)
    requires EreParser.Parse([97, EreParser.STAR, EreParser.BAR]) == EreParser.Parsed(ExpandChoice(tree))
    ensures LooksPast(ChoiceCode(tree))
  {
    var loop := Rep(Once(A), Star);
    ReadOrNothing(loop, [97, EreParser.STAR]);
    assert [97, EreParser.STAR] + [EreParser.BAR] == [97, EreParser.STAR, EreParser.BAR];
    hide ChoiceOk, EreParser.Parse, ChoiceCode, NodeCode, LooksPast;
    var n := OnlyOrNothing(tree, loop);
    LoopNode(Empty, n, A);
    LoopIsLong(n);
    EmptyLast(tree, n, loop);
    assert PiecePassable(loop);
    assert AltsPassable(One(Snoc(Empty, loop)));
  }

  lemma EmptyLast(tree: Choice, n: Node, p: Piece)
    requires ChoiceOk(tree) && tree == OrNothing(n) && ExpandChoice(tree) == More(One(Snoc(Empty, p)), Empty)
    requires |NodeCode(n)| < 1000 && (p == Once(A) || p == Rep(Once(A), Star))
    ensures LooksPast(ChoiceCode(tree)) <==> AltsPassable(One(Snoc(Empty, p)))
  {
    OrNothingSize(n);
    hide ChoiceOk, ChoiceCode, NodeCode, LooksPast, AltsPassable;
    ChoiceExpandGroups(tree);
    assert PieceGroups(p) == 0;
    assert AltsGroups(One(Snoc(Empty, p))) == 0;
    NoGroups(tree);
    LooksPastExactly(tree);
  }

  lemma LoopIsLong(n: Node)
    requires n.Repeated? && n.ops == [Star] && n.body.Text? && |n.body.chars| == 1
    ensures |NodeCode(n)| == 9
  {
    assert ZeroOk([Star]) && ManyOk([Star]) by { assert [Star][0] == Star; }
    LoopLength(NodeCode(n.body));
  }

  /** Not so for `a|`. */
  lemma EmptyAfterCharacter(tree: Choice)
    requires ChoiceOk(tree) && EreParser.Parse([97, EreParser.BAR]) == EreParser.Parsed(ExpandChoice(tree))
    ensures !LooksPast(ChoiceCode(tree))
  {
    ReadOrNothing(Once(A), [97]);
    assert [97] + [EreParser.BAR] == [97, EreParser.BAR];
    hide ChoiceOk, EreParser.Parse, ChoiceCode, NodeCode, LooksPast;
    var n := OnlyOrNothing(tree, Once(A));
    CharacterNode(n);
    EmptyLast(tree, n, Once(A));
    assert !PiecePassable(Once(A));
    assert !AltsPassable(One(Snoc(Empty, Once(A))));
  }

  lemma CharacterNode(n: Node)
    requires NodeOk(n) && ExpandNode(Empty, n) == Snoc(Empty, Once(A))
    ensures n.Text? && |n.chars| == 1 && |NodeCode(n)| == 3
  {
    hide Represents, AddChars, RepAll;
    if n.Text? {
      CharsBefore(Empty, n.chars);
    } else if n.Repeated? {
      RepAllRep(PieceOf(n.body), n.ops);
    }
  }

  lemma ReadOrNothing(p: Piece, spelled: seq<byte>)
    requires (p == Once(A) && spelled == [97]) || (p == Rep(Once(A), Star) && spelled == [97, EreParser.STAR])
    ensures EreParser.Parse(spelled + [EreParser.BAR]) == EreParser.Parsed(More(One(Snoc(Empty, p)), Empty))
  {
    var b := Snoc(Empty, p);
    assert SpellAtom(A) == [97];
    assert SpellPiece(Once(A)) == [97];
    assert SpellPiece(p) == spelled;
    assert SpellBranch(b) == [] + spelled == spelled;
    assert SpellAlts(One(b)) == spelled;
    assert SpellAlts(More(One(b), Empty)) == spelled + [EreParser.BAR] + [] == spelled + [EreParser.BAR];
    assert PlainPiece(Once(A)) && PlainPiece(p);
    assert PlainBranch(b) && PlainAlts(One(b)) && PlainAlts(More(One(b), Empty));
    PlainReadBack(More(One(b), Empty));
  }

  lemma OnlyOrNothing(tree: Choice, p: Piece) returns (n: Node)
    requires ChoiceOk(tree) && ExpandChoice(tree) == More(One(Snoc(Empty, p)), Empty)
    requires p == Once(A) || p == Rep(Once(A), Star)
    ensures tree == OrNothing(n) && NodeOk(n) && ExpandNode(Empty, n) == Snoc(Empty, p)
  {
    hide Represents, AddChars, RepAll;
    assert tree.Or? && ExpandChoice(tree.init) == One(Snoc(Empty, p)) && Expand(tree.nodes) == Empty;
    assert tree.init.Sole?;
    var ns := tree.init.nodes;
    assert Expand(ns) == Snoc(Empty, p);
    assert ChoiceOk(tree.init) && NodesOk(ns) && NodesOk(tree.nodes);
    NothingExpands(tree.nodes);
    n := ns.last;
    assert NodesOk(ns.init) && NodeOk(n);
    OnlyOne(Expand(ns.init), n, p);
    NothingExpands(ns.init);
  }

  lemma OnlyOne(before: Branch, n: Node, p: Piece)
    requires NodeOk(n) && ExpandNode(before, n) == Snoc(Empty, p)
    ensures before == Empty
  {
    hide Represents, AddChars;
    if n.Text? {
      CharsBefore(before, n.chars);
    }
  }
}
