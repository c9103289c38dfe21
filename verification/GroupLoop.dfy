/** A loop over a group that closes a pattern drops an alternative saved inside the group: `(a?(ab)?)*` stops short
    of the end of `ab`. */
module GroupLoop {
  import opened Answering
  import opened Bytecode
  import opened Bytes
  import opened CodeMeaning
  import opened CodeShape
  import opened CodeTree
  import opened Ere
  import opened EreGrammar
  import EreParser
  import opened Machine
  import opened MatcherState

  const A: TextChar := TextChar(97, false)
  const B: TextChar := TextChar(98, false)
  const INNER: Choice := Sole(Add(NoNode, Text([A, B])))
  const BODY: Choice :=
    Sole(Add(Add(NoNode, Repeated(Text([A]), [Opt])), Repeated(Grouped(2, 0, INNER), [Opt])))
  const TREE: Choice := Sole(Add(NoNode, Repeated(Grouped(1, 1, BODY), [Star])))

  const CODE: seq<byte> := [
    ON_FAILURE_JUMP, 28, 0, START_MEMORY, 1, 1, ON_FAILURE_JUMP, 3, 0, EXACTN, 1, 97,
    ON_FAILURE_JUMP, 10, 0, START_MEMORY, 2, 0, EXACTN, 2, 97, 98, STOP_MEMORY, 2, 0, STOP_MEMORY, 1, 1,
    MAYBE_POP_JUMP, 225, 255]

  const TEXT: seq<byte> := [97, 98]

  const OPTION: Node := Repeated(Text([A]), [Opt])
  const GROUPED: Node := Repeated(Grouped(2, 0, INNER), [Opt])
  const LOOP: Node := Repeated(Grouped(1, 1, BODY), [Star])

  lemma TreeOk()
    ensures ChoiceOk(TREE)
  {
    var a, ab := Text([A]), Text([A, B]);
    assert NodeOk(a) && NodeOk(ab) && NodesOk(NoNode);
    assert NodesOk(Add(NoNode, ab));
    assert ChoiceOk(INNER);
    assert NodeOk(OPTION) && NodeOk(GROUPED);
    assert NodesOk(Add(NoNode, OPTION));
    assert NodesOk(Add(Add(NoNode, OPTION), GROUPED));
    assert ChoiceOk(BODY);
    assert NodeOk(LOOP);
    assert NodesOk(Add(NoNode, LOOP));
  }

  lemma Flags()
    ensures ZeroOk([Opt]) && !ManyOk([Opt]) && ZeroOk([Star]) && ManyOk([Star])
  {
    assert [Opt][0] == Opt && [Star][0] == Star;
  }

  lemma OneNode(n: Node)
    ensures ChoiceCode(Sole(Add(NoNode, n))) == NodesCode(Add(NoNode, n)) == NodeCode(n)
  {
    assert NodesCode(NoNode) + NodeCode(n) == NodeCode(n);
  }

  const INNER_CODE: seq<byte> := [START_MEMORY, 2, 0, EXACTN, 2, 97, 98, STOP_MEMORY, 2, 0]

  lemma OptionCode()
    ensures NodeCode(OPTION) == [ON_FAILURE_JUMP, 3, 0, EXACTN, 1, 97]
  {
    Flags();
    assert NodeCode(Text([A])) == [EXACTN, 1, 97];
  }

  lemma GroupedCode()
    ensures NodeCode(GROUPED) == [ON_FAILURE_JUMP, 10, 0] + INNER_CODE
  {
    Flags();
    OneNode(Text([A, B]));
    assert NodeCode(Text([A, B])) == [EXACTN, 2, 97, 98];
    assert NodeCode(Grouped(2, 0, INNER)) == INNER_CODE;
    hide NodeCode;
    assert GROUPED.body == Grouped(2, 0, INNER);
  }

  const GROUP_CODE: seq<byte> := [
    START_MEMORY, 1, 1, ON_FAILURE_JUMP, 3, 0, EXACTN, 1, 97, ON_FAILURE_JUMP, 10, 0, START_MEMORY, 2, 0,
    EXACTN, 2, 97, 98, STOP_MEMORY, 2, 0, STOP_MEMORY, 1, 1]

  lemma TreeCode()
    ensures ChoiceCode(TREE) == CODE
  {
    hide ZeroOk, ManyOk, ChoiceCode, RepeatCode, NodeCode;
    OneNode(LOOP);
    RepeatedCode(Grouped(1, 1, BODY), [Star]);
    GroupCode();
    StarCode();
    Flags();
  }

  const BODY_CODE: seq<byte> := [
    ON_FAILURE_JUMP, 3, 0, EXACTN, 1, 97, ON_FAILURE_JUMP, 10, 0, START_MEMORY, 2, 0,
    EXACTN, 2, 97, 98, STOP_MEMORY, 2, 0]

  lemma GroupCode()
    ensures NodeCode(Grouped(1, 1, BODY)) == GROUP_CODE
  {
    hide ChoiceCode, NodeCode;
    BodyCode();
    GroupParts(BODY);
    assert [START_MEMORY, 1, 1] + (BODY_CODE + ([] + [STOP_MEMORY, 1, 1])) == GROUP_CODE;
  }

  lemma GroupParts(body: Choice)
    requires body.Sole?
    ensures NodeCode(Grouped(1, 1, body)) == [START_MEMORY, 1, 1] + (ChoiceCode(body) + ([] + [STOP_MEMORY, 1, 1]))
  {
    hide ChoiceCode;
  }

  lemma StarCode()
    ensures RepeatCode(GROUP_CODE, true, true) == CODE
  {
    hide RepeatCode, JumpCode;
    Jumps();
    AroundBody(GROUP_CODE, [ON_FAILURE_JUMP, 28, 0], [MAYBE_POP_JUMP, 225, 255]);
    Around();
  }

  lemma Jumps()
    ensures [ON_FAILURE_JUMP, 28, 0] == JumpCode(ON_FAILURE_JUMP, |GROUP_CODE| + 3)
    ensures [MAYBE_POP_JUMP, 225, 255] == JumpCode(MAYBE_POP_JUMP, -|GROUP_CODE| - 6)
  {
    assert |GROUP_CODE| == 25;
  }

  lemma Around()
    ensures [ON_FAILURE_JUMP, 28, 0] + (GROUP_CODE + [MAYBE_POP_JUMP, 225, 255]) == CODE
  {
  }

  lemma AroundBody(body: seq<byte>, fork: seq<byte>, back: seq<byte>)
    requires fork == JumpCode(ON_FAILURE_JUMP, |body| + 3) && back == JumpCode(MAYBE_POP_JUMP, -|body| - 6)
    ensures RepeatCode(body, true, true) == fork + (body + back)
  {
    hide JumpCode;
    assert [] + (fork + (body + back)) == fork + (body + back);
  }

  lemma BodyCode()
    ensures ChoiceCode(BODY) == BODY_CODE
  {
    BodyParts();
    OptionCode();
    GroupedCode();
    hide NodeCode, ChoiceCode;
    assert [ON_FAILURE_JUMP, 3, 0, EXACTN, 1, 97] + ([ON_FAILURE_JUMP, 10, 0] + INNER_CODE) == BODY_CODE;
  }

  lemma BodyParts()
    ensures ChoiceCode(BODY) == NodeCode(OPTION) + NodeCode(GROUPED)
  {
    OneNode(OPTION);
    hide NodeCode;
    assert NodesCode(Add(Add(NoNode, OPTION), GROUPED)) == NodesCode(Add(NoNode, OPTION)) + NodeCode(GROUPED);
  }

  /** Whatever the closing jump has become. */
  predicate Almost(code: seq<byte>) {
    |code| == 31 && forall k :: 0 <= k < 31 && k != 28 ==> code[k] == CODE[k]
  }

  lemma Opcodes(code: seq<byte>)
    requires Almost(code)
    ensures |code| == 31 && code[0] == code[6] == code[12] == ON_FAILURE_JUMP && code[9] == code[18] == EXACTN
    ensures code[3] == code[15] == START_MEMORY && code[22] == code[25] == STOP_MEMORY && code[4] == code[26]
  {
  }

  lemma Arguments(code: seq<byte>)
    requires Almost(code)
    ensures |code| == 31 && code[1] == 28 && code[7] == 3 && code[13] == 10 && code[29] == 225 && code[30] == 255
    ensures code[2] == code[8] == code[14] == 0
    ensures code[4] == 1 && code[16] == 2 && code[10] == 1 && code[11] == 97 && code[19] == 2 && code[20] == 97
    ensures code[21] == 98
  {
  }

  /** Forks and the marks of groups. */
  lemma Places(code: seq<byte>)
    requires Almost(code)
    ensures |code| == 31 && code[0] == code[6] == code[12] == ON_FAILURE_JUMP
    ensures Target(code, 0) == 31 && Target(code, 6) == 12 && Target(code, 12) == 25 && Target(code, 28) == 0
    ensures code[3] == code[15] == START_MEMORY && code[22] == code[25] == STOP_MEMORY
    ensures code[4] == code[26] == 1 && code[16] == 2
  {
    Opcodes(code);
    Arguments(code);
  }

  /** The instructions that are not forks. */
  lemma Pieces(code: seq<byte>)
    requires Almost(code)
    ensures |code| == 31
    ensures Decode(code, 3) == Decode(code, 15) == Decode(code, 22) == Decode(code, 25) == Memory
    ensures code[9] == code[18] == EXACTN && Decode(code, 9) == Exact([97]) && Decode(code, 18) == Exact([97, 98])
  {
    Opcodes(code);
    Arguments(code);
    hide Almost;
    assert code[11..12] == [97] && code[20..22] == [97, 98];
  }

  lemma ForkDecodes(code: seq<byte>)
    requires Almost(code)
    ensures |code| == 31 && Decode(code, 0) == Fork(31) && Decode(code, 6) == Fork(12) && Decode(code, 12) == Fork(25)
  {
    Places(code);
    hide Target;
  }

  // ----- the pattern -----

  const PATTERN: seq<byte> :=
    [EreParser.LPAREN, 97, EreParser.QUESTION, EreParser.LPAREN, 97, 98, EreParser.RPAREN, EreParser.QUESTION,
     EreParser.RPAREN, EreParser.STAR]

  const JUST_A: Piece := Once(Chr(97, false))
  const AB: Alts := One(Snoc(Snoc(Empty, JUST_A), Once(Chr(98, false))))
  const TURN: Alts := One(Snoc(Snoc(Empty, Rep(JUST_A, Opt)), Rep(Once(Group(AB)), Opt)))
  const WHOLE: Alts := One(Snoc(Empty, Rep(Once(Group(TURN)), Star)))

  lemma OneOperator(p: Piece, op: Op)
    ensures RepAll(p, [op]) == Rep(p, op)
  {
    assert [op][..0] == [];
  }

  /** The tree is that of the pattern. */
  lemma TreeExpands()
    ensures ExpandChoice(TREE) == WHOLE
  {
    InnerExpands();
    OneOperator(JUST_A, Opt);
    OneOperator(Once(Group(AB)), Opt);
    assert PieceOf(Text([A])) == JUST_A && PieceOf(Grouped(2, 0, INNER)) == Once(Group(AB));
    assert PieceOf(OPTION) == Rep(JUST_A, Opt) && PieceOf(GROUPED) == Rep(Once(Group(AB)), Opt);
    assert Expand(Add(NoNode, OPTION)) == Snoc(Empty, PieceOf(OPTION));
    assert Expand(Add(Add(NoNode, OPTION), GROUPED)) == Snoc(Snoc(Empty, PieceOf(OPTION)), PieceOf(GROUPED));
    assert ExpandChoice(BODY) == TURN;
    OneOperator(Once(Group(TURN)), Star);
    assert PieceOf(LOOP) == Rep(Once(Group(TURN)), Star);
    assert Expand(Add(NoNode, LOOP)) == Snoc(Empty, PieceOf(LOOP));
  }

  lemma InnerExpands()
    ensures ExpandChoice(INNER) == AB
  {
    assert [A, B][..1] == [A] && [A][..0] == [];
    assert AddChars(Empty, [A]) == Snoc(Empty, JUST_A);
    assert AddChars(Empty, [A, B]) == Snoc(Snoc(Empty, JUST_A), Once(Chr(98, false)));
    assert Expand(Add(NoNode, Text([A, B]))) == AddChars(Empty, [A, B]);
  }

  lemma PatternRead()
    ensures EreParser.Parse(PATTERN) == EreParser.Parsed(WHOLE)
  {
    PlainParts();
    PatternSpelled();
    NoDots();
    hide SpellAlts, PlainAlts;
    PlainReadBack(WHOLE);
  }

  lemma NoDots()
    ensures NoDotStarNewline(PATTERN)
  {
    assert PATTERN[8] == EreParser.RPAREN;
    assert forall p :: 0 <= p < 9 ==> PATTERN[p] != EreParser.STAR;
  }

  lemma PlainParts()
    ensures PlainAlts(WHOLE)
  {
    assert PlainPiece(JUST_A) && PlainPiece(Once(Chr(98, false)));
    assert PlainBranch(Snoc(Empty, JUST_A));
    assert PlainAlts(AB);
    assert PlainPiece(Rep(JUST_A, Opt)) && PlainPiece(Rep(Once(Group(AB)), Opt));
    assert PlainBranch(Snoc(Empty, Rep(JUST_A, Opt)));
    assert PlainAlts(TURN);
    assert PlainPiece(Once(Group(TURN)));
    assert PlainPiece(Rep(Once(Group(TURN)), Star));
  }

  lemma PatternSpelled()
    ensures SpellAlts(WHOLE) == PATTERN
  {
    assert SpellPiece(JUST_A) == [97] && SpellPiece(Once(Chr(98, false))) == [98];
    assert SpellBranch(Snoc(Empty, JUST_A)) == [97];
    assert SpellAlts(AB) == [97, 98];
    assert SpellPiece(Rep(JUST_A, Opt)) == [97, EreParser.QUESTION];
    assert SpellBranch(Snoc(Empty, Rep(JUST_A, Opt))) == [97, EreParser.QUESTION];
    var group := [EreParser.LPAREN, 97, 98, EreParser.RPAREN, EreParser.QUESTION];
    assert SpellPiece(Rep(Once(Group(AB)), Opt)) == group;
    assert SpellAlts(TURN) == [97, EreParser.QUESTION] + group;
  }

  // ----- single steps, as part of a run -----

  /** What is answered from there with `n` more steps is answered from the start. */
  ghost predicate Comes(c: Config, n: nat) {
    Almost(c.code) && Leading(TEXT, 0, First(CODE, 0), 20, c, n)
  }

  /** With no match yet. */
  function Here(code: seq<byte>, p: nat, d: nat, idle: set<byte>, stack: seq<FailurePoint>): Config {
    Config(code, p, d, idle, stack, false, 0)
  }

  lemma Forks(code: seq<byte>, p: nat, d: nat, idle: set<byte>, stack: seq<FailurePoint>, n: nat, t: nat)
    requires Comes(Here(code, p, d, idle, stack), n + 1) && p + 3 <= |code|
    requires code[p] == ON_FAILURE_JUMP && Target(code, p) == t
    ensures Comes(Here(code, p + 3, d, idle, stack + [Point(t, d, idle)]), n)
  {
    hide Leading, Runs, Almost, Target;
    Stepped(TEXT, 0, First(CODE, 0), 20, Here(code, p, d, idle, stack), n + 1,
            Here(code, p + 3, d, idle, stack + [Point(t, d, idle)]), true);
  }

  lemma Begins(code: seq<byte>, p: nat, d: nat, idle: set<byte>, stack: seq<FailurePoint>, n: nat)
    requires Comes(Here(code, p, d, idle, stack), n + 1) && p + 1 < |code|
    requires code[p] == START_MEMORY && Decode(code, p) == Memory
    ensures Comes(Here(code, p + 3, d, idle + {code[p + 1]}, stack), n)
  {
    hide Leading, Runs, Almost, Decode;
    Stepped(TEXT, 0, First(CODE, 0), 20, Here(code, p, d, idle, stack), n + 1,
            Here(code, p + 3, d, idle + {code[p + 1]}, stack), true);
  }

  lemma Ends(code: seq<byte>, p: nat, d: nat, idle: set<byte>, stack: seq<FailurePoint>, n: nat)
    requires Comes(Here(code, p, d, idle, stack), n + 1) && p + 1 < |code|
    requires code[p] == STOP_MEMORY && code[p + 1] !in idle
    ensures Comes(Here(code, p + 3, d, idle, stack), n)
  {
    hide Leading, Runs, Almost, Decode, Forced;
    Stepped(TEXT, 0, First(CODE, 0), 20, Here(code, p, d, idle, stack), n + 1,
            Here(code, p + 3, d, idle, stack), true);
  }

  lemma Consumes(code: seq<byte>, p: nat, d: nat, idle: set<byte>, stack: seq<FailurePoint>, n: nat, s: seq<byte>)
    requires Comes(Here(code, p, d, idle, stack), n + 1) && p < |code|
    requires code[p] == EXACTN && Decode(code, p) == Exact(s) && s != []
    requires d + |s| <= |TEXT| && TEXT[d..d + |s|] == s
    ensures Comes(Here(code, p + 2 + |s|, d + |s|, {}, stack), n)
  {
    hide Leading, Runs, Almost, Decode;
    Stepped(TEXT, 0, First(CODE, 0), 20, Here(code, p, d, idle, stack), n + 1,
            Here(code, p + 2 + |s|, d + |s|, {}, stack), true);
  }

  /** The literal is not there, and matching goes on at the failure point on top. */
  lemma GoesBack(code: seq<byte>, p: nat, d: nat, idle: set<byte>, stack: seq<FailurePoint>, n: nat, s: seq<byte>,
                 top: FailurePoint)
    requires Comes(Here(code, p, d, idle, stack + [top]), n + 1) && p < |code|
    requires code[p] == EXACTN && Decode(code, p) == Exact(s)
    requires !(d + |s| <= |TEXT| && TEXT[d..d + |s|] == s)
    requires top.Point? && !Skipped(code, top)
    ensures Comes(Here(code, top.place, top.position, top.idle, stack), n)
  {
    hide Leading, Runs, Almost, Decode, Skipped;
    var c := Here(code, p, d, idle, stack + [top]);
    Stepped(TEXT, 0, First(CODE, 0), 20, c, n + 1, c, false);
    Back(c, n, stack, top);
  }

  lemma Back(c: Config, n: nat, rest: seq<FailurePoint>, top: FailurePoint)
    requires Almost(c.code) && BackLeading(TEXT, 0, First(CODE, 0), 20, c, n + 1)
    requires c.stack == rest + [top] && top.Point? && !Skipped(c.code, top)
    ensures Comes(c.(p := top.place, d := top.position, idle := top.idle, stack := rest), n)
  {
    hide Leading, BackLeading, Almost, Skipped;
    var c' := c.(p := top.place, d := top.position, idle := top.idle, stack := rest);
    assert c.stack[..|rest|] == rest;
    Resumed(TEXT, 0, First(CODE, 0), 20, c, n + 1, c');
  }

  /** At the end of the pattern, but not of the text, a match is remembered and the next point gone back to. */
  lemma Finds(c: Config, n: nat, rest: seq<FailurePoint>, top: FailurePoint)
    requires Comes(c, n + 1) && c.p == 31 && c.d != |TEXT| && c.stack == rest + [top] && top.Point? && top.place == 31
    ensures Comes(Kept(c).(d := top.position, idle := top.idle, stack := rest), n)
  {
    hide Leading, BackLeading;
    Ended(TEXT, 0, First(CODE, 0), 20, c, n + 1);
    Back(Kept(c), n, rest, top);
  }

  // ----- the run -----

  const OUT: FailurePoint := Point(31, 0, {})
  const WITHOUT: FailurePoint := Point(12, 0, {1})
  const AGAIN: FailurePoint := Point(31, 1, {})

  /** Into the group, to `a`. */
  lemma ToLetter(code: seq<byte>, d: nat, stack: seq<FailurePoint>, n: nat)
    requires Comes(Here(code, 0, d, {}, stack), n + 3) && Almost(code)
    ensures Comes(Here(code, 9, d, {1}, stack + [Point(31, d, {})] + [Point(12, d, {1})]), n)
  {
    Places(code);
    Pieces(code);
    hide Decode, Target, Comes, Almost, Here;
    var one := stack + [Point(31, d, {})];
    Forks(code, 0, d, {}, stack, n + 2, 31);
    Begins(code, 3, d, {}, one, n + 1);
    assert {} + {code[4]} == {1};
    Forks(code, 6, d, {1}, one, n, 12);
  }

  /** `ab` is not to be found, and not needed. */
  lemma NoInner(code: seq<byte>, idle: set<byte>, stack: seq<FailurePoint>, n: nat)
    requires Comes(Here(code, 12, 1, idle, stack), n + 3) && Almost(code)
    ensures Comes(Here(code, 25, 1, idle, stack), n)
  {
    Places(code);
    Pieces(code);
    hide Decode, Target, Comes, Almost, Here;
    Forks(code, 12, 1, idle, stack, n + 2, 25);
    Begins(code, 15, 1, idle, stack + [Point(25, 1, idle)], n + 1);
    GoesBack(code, 18, 1, idle + {code[16]}, stack, n, [97, 98], Point(25, 1, idle));
  }

  /** Once through the group, which has matched `a`. */
  lemma FirstTurn(code: seq<byte>)
    requires Comes(Here(code, 0, 0, {}, []), 20) && Almost(code)
    ensures Comes(Here(code, 28, 1, {}, [OUT, WITHOUT]), 12)
  {
    Places(code);
    Pieces(code);
    hide Decode, Target, Comes, Almost, Here;
    ToLetter(code, 0, [], 17);
    assert [] + [Point(31, 0, {})] + [Point(12, 0, {1})] == [OUT, WITHOUT];
    assert TEXT[0..1] == [97];
    Consumes(code, 9, 0, {1}, [OUT, WITHOUT], 16, [97]);
    NoInner(code, {}, [OUT, WITHOUT], 13);
    Ends(code, 25, 1, {}, [OUT, WITHOUT], 12);
  }

  /** The closing jump, with nothing after it, drops what is on top: that the group could have done without `a`. */
  lemma Dropped(code: seq<byte>)
    requires Comes(Here(code, 28, 1, {}, [OUT, WITHOUT]), 12) && Almost(code) && code[28] == MAYBE_POP_JUMP
    ensures Comes(Here(code[28 := POP_FAILURE_JUMP], 0, 1, {}, [OUT]), 11)
  {
    Places(code);
    hide Decode, Target, Leading;
    var c, c' := Here(code, 28, 1, {}, [OUT, WITHOUT]), Here(code[28 := POP_FAILURE_JUMP], 0, 1, {}, [OUT]);
    assert c.stack[..1] == [OUT];
    assert Decides(c, c');
    Stepped(TEXT, 0, First(CODE, 0), 20, c, 12, c', true);
  }

  /** Once more, the group matching nothing. */
  lemma SecondTurn(code: seq<byte>)
    requires Comes(Here(code, 0, 1, {}, [OUT]), 11) && Almost(code)
    ensures Comes(Here(code, 25, 1, {1}, [OUT, AGAIN]), 4)
  {
    Places(code);
    Pieces(code);
    hide Decode, Target, Comes, Almost, Here;
    ToLetter(code, 1, [OUT], 8);
    assert [OUT] + [Point(31, 1, {})] == [OUT, AGAIN];
    assert TEXT[1..2] == [98];
    GoesBack(code, 9, 1, {1}, [OUT, AGAIN], 7, [97], Point(12, 1, {1}));
    NoInner(code, {1}, [OUT, AGAIN], 4);
  }

  /** So the loop is left. */
  lemma Leaves(c: Config, n: nat)
    requires Comes(c, n + 1) && c.p == 25 && c.code[28] == POP_FAILURE_JUMP && 1 in c.idle
    ensures Comes(c.(p := 31), n)
  {
    hide Decode, Target, Leading;
    Places(c.code);
    var top := Point(31, c.d, c.idle);
    var c' := c.(stack := c.stack + [top]);
    assert Forced(c.code, 25, 31);
    assert LeavesLoop(c, c');
    Stepped(TEXT, 0, First(CODE, 0), 20, c, n + 1, c', false);
    Back(c', n, c.stack, top);
  }

  lemma AtStart()
    ensures Comes(Here(CODE, 0, 0, {}, []), 20) && Almost(CODE) && CODE[28] == MAYBE_POP_JUMP
  {
    hide Leading;
    LeadingItself(TEXT, 0, First(CODE, 0), 20);
  }

  lemma Finishes(code: seq<byte>)
    requires Comes(Here(code, 25, 1, {1}, [OUT, AGAIN]), 4) && Almost(code) && code[28] == POP_FAILURE_JUMP
    ensures Runs(TEXT, 0, First(CODE, 0), 20, Matched(1))
  {
    hide Leading, Runs;
    Leaves(Here(code, 25, 1, {1}, [OUT, AGAIN]), 3);
    var c1 := Here(code, 31, 1, {1}, [OUT, AGAIN]);
    assert [OUT, AGAIN] == [OUT] + [AGAIN] && [OUT] == [] + [OUT];
    Finds(c1, 2, [OUT], AGAIN);
    var c2 := Kept(c1).(idle := {}, stack := [OUT]);
    Finds(c2, 1, [], OUT);
    Answered(TEXT, 0, First(CODE, 0), 20, Kept(c2).(d := 0, stack := []), 1, Matched(1));
  }

  /** With so much fuel it does answer. */
  lemma AnswersOne()
    ensures Runs(TEXT, 0, First(CODE, 0), 20, Matched(1))
  {
    hide Runs, Comes, Leading;
    AtStart();
    FirstTurn(CODE);
    Dropped(CODE);
    var now := CODE[28 := POP_FAILURE_JUMP];
    SecondTurn(now);
    Finishes(now);
  }

  /** The expression matches all of `ab`, but the matcher answers with one character, whatever its fuel. */
  lemma StopsShort(n: nat, r: Outcome)
    requires Runs(TEXT, 0, First(ChoiceCode(TREE), 0), n, r)
    ensures EreParser.Parse(PATTERN) == EreParser.Parsed(ExpandChoice(TREE)) && ChoiceOk(TREE)
    ensures AltsMatch(ExpandChoice(TREE), TEXT, 0, 2)
    ensures r == Matched(1) || r == OutOfFuel
  {
    TreeOk();
    TreeCode();
    TreeExpands();
    PatternRead();
    WholeMatches();
    hide AltsMatch, Accepts, Runs, ChoiceOk, ChoiceCode, Shape;
    CodeAcceptsMeaning(TREE, TEXT, 0, 2);
    AnswersOne();
    if r != OutOfFuel {
      var starts := CodeShaped(TREE);
      OnlyAnswer(Job(ChoiceCode(TREE), starts, TEXT, 0), n, r, 20, Matched(1));
    }
  }

  /** Without `a`, and with `ab`. */
  lemma WholeMatches()
    ensures Accepts(CODE, TEXT, 0, 2)
  {
    hide Decode;
    Pieces(CODE);
    ForkDecodes(CODE);
    assert TEXT[0..2] == [97, 98];
    assert Acc(CODE, TEXT, 31, 2, 2, 0);
    assert Acc(CODE, TEXT, 0, 2, 2, 1);
    assert Decode(CODE, 28) == Jump(0) by { ClosingJump(); }
    assert Acc(CODE, TEXT, 28, 2, 2, 2);
    assert Acc(CODE, TEXT, 25, 2, 2, 3);
    assert Acc(CODE, TEXT, 22, 2, 2, 4);
    assert Acc(CODE, TEXT, 18, 0, 2, 5);
    assert Acc(CODE, TEXT, 15, 0, 2, 6);
    assert Acc(CODE, TEXT, 12, 0, 2, 7);
    assert Acc(CODE, TEXT, 6, 0, 2, 8);
    assert Acc(CODE, TEXT, 3, 0, 2, 9);
    assert Acc(CODE, TEXT, 0, 0, 2, 10);
  }

  lemma ClosingJump()
    ensures Decode(CODE, 28) == Jump(0)
  {
    Places(CODE);
  }
}
