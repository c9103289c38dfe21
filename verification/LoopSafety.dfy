/** Which patterns the matcher decides rightly about: for every loop, from what it is over and from what comes
    after it. */
module LoopSafety {
  import opened Bytes
  import opened Ere

  /** What comes next in a pattern, as far as the matcher looks at the end of a loop: nothing, a character or the
      end of a line, a list that is not negated, or what it compares nothing with. */
  datatype Ahead = Nothing | Char(c: byte) | List(members: set<byte>) | Other

  function AtomAhead(a: Atom, next: Ahead): Ahead {
    match a
    case Chr(c, _) => Char(c)
    case Eol => Char(NEWLINE)
    case Bracket(_, false, members) => List(members)
    case Group(alts) => AltsAhead(alts, next)
    case _ => Other
  }

  /** No operator but `+`, so that what is repeated begins the code. */
  predicate OnlyPlus(p: Piece) {
    match p
    case Once(_) => true
    case Rep(q, op) => op == Plus && OnlyPlus(q)
  }

  function PieceAhead(p: Piece, next: Ahead): Ahead {
    match p
    case Once(a) => AtomAhead(a, next)
    case Rep(q, _) => if OnlyPlus(p) then PieceAhead(q, Other) else Other
  }

  function BranchAhead(b: Branch, next: Ahead): Ahead {
    match b
    case Empty => next
    case Snoc(init, last) => BranchAhead(init, PieceAhead(last, next))
  }

  function AltsAhead(r: Alts, next: Ahead): Ahead {
    match r
    case One(b) => BranchAhead(b, next)
    case More(_, _) => Other
  }

  // ----- loops -----

  /** Two comparisons go wrong. The length of a character, one, is looked for in the list in its place; and a list
      that needs the whole of its map is taken to have no character at all. */
  predicate Misjudged(a: Atom, next: Ahead) {
    match next
    case List(members) => a.Chr? && 1 !in members && a.c in members
    case Char(c) => a.Bracket? && !a.negated && c in a.members && exists m: byte :: m in a.members && 248 <= m
    case _ => false
  }

  /** What is thrown away after a turn of a loop over `a` is not needed: with nothing after the loop, a group must
      begin and end its turn with the same thing saved last. */
  predicate LoopSafe(a: Atom, next: Ahead) {
    match a
    case Group(alts) => next.Nothing? ==> alts.More? || AltsForkless(alts)
    case _ => !Misjudged(a, next)
  }

  function Base(p: Piece): Atom {
    match p
    case Once(a) => a
    case Rep(q, _) => Base(q)
  }

  predicate AtomSafe(a: Atom, next: Ahead) {
    a.Group? ==> AltsSafe(a.alts, if a.alts.More? then Other else next)
  }

  predicate PieceSafe(p: Piece, next: Ahead) {
    match p
    case Once(a) => AtomSafe(a, next)
    case Rep(q, op) =>
      if op == Opt then PieceSafe(q, next) else LoopSafe(Base(q), next) && PieceSafe(q, Other)
  }

  predicate BranchSafe(b: Branch, next: Ahead) {
    match b
    case Empty => true
    case Snoc(init, last) => PieceSafe(last, next) && BranchSafe(init, PieceAhead(last, next))
  }

  /** No loop of the alternatives is decided wrongly, when `next` follows them. */
  predicate AltsSafe(r: Alts, next: Ahead) {
    match r
    case One(b) => BranchSafe(b, next)
    case More(others, b) => AltsSafe(others, Other) && BranchSafe(b, next)
  }

  /** A whole pattern is followed by nothing. */
  predicate SafeLoops(r: Alts) {
    AltsSafe(r, Nothing)
  }

  // ----- runs of operators -----

  lemma {:induction false} RunAhead(a: Atom, ops: seq<Op>, next: Ahead)
    requires ops != []
    ensures PieceAhead(RepAll(Once(a), ops), next) == if ZeroOk(ops) then Other else AtomAhead(a, Other)
    ensures OnlyPlus(RepAll(Once(a), ops)) == !ZeroOk(ops)
    decreases |ops|
  {
    var front := ops[..|ops| - 1];
    RunFlags(ops);
    if front == [] {
      assert RepAll(Once(a), front) == Once(a) && !ZeroOk(front);
      assert RepAll(Once(a), ops) == Rep(Once(a), ops[0]) && PieceAhead(Once(a), Other) == AtomAhead(a, Other);
      assert OnlyPlus(Once(a)) && ZeroOk(ops) == (ops[0] != Plus);
    } else {
      RunAhead(a, front, Other);
    }
  }

  /** Only one loop is made of a run of operators. */
  lemma {:induction false} RunSafe(a: Atom, ops: seq<Op>, next: Ahead)
    ensures PieceSafe(RepAll(Once(a), ops), next) <==>
      if ManyOk(ops) then LoopSafe(a, next) && AtomSafe(a, Other) else AtomSafe(a, next)
    ensures Base(RepAll(Once(a), ops)) == a
    decreases |ops|
  {
    if ops != [] {
      var front := ops[..|ops| - 1];
      RunSafe(a, front, next);
      RunSafe(a, front, Other);
      RunFlags(ops);
    }
  }

  lemma {:induction false} RunPlain(a: Atom, ops: seq<Op>)
    ensures PiecePlain(RepAll(Once(a), ops)) <==> (ManyOk(ops) ==> !a.Group?) && (a.Group? ==> PlainLoops(a.alts))
    ensures Base(RepAll(Once(a), ops)) == a
    decreases |ops|
  {
    if ops != [] {
      RunPlain(a, ops[..|ops| - 1]);
      RunFlags(ops);
    }
  }

  // ----- groups that save nothing -----

  predicate PieceForkless(p: Piece) {
    p.Once? && (p.atom.Group? ==> AltsForkless(p.atom.alts))
  }

  predicate BranchForkless(b: Branch) {
    match b
    case Empty => true
    case Snoc(init, last) => BranchForkless(init) && PieceForkless(last)
  }

  /** No operators and no alternatives. */
  predicate AltsForkless(r: Alts) {
    match r
    case One(b) => BranchForkless(b)
    case More(_, _) => false
  }

  // ----- patterns that are safe as they stand -----

  predicate PiecePlain(p: Piece) {
    match p
    case Once(a) => a.Group? ==> PlainLoops(a.alts)
    case Rep(q, op) => (op != Opt ==> !Base(q).Group?) && PiecePlain(q)
  }

  predicate BranchPlain(b: Branch) {
    match b
    case Empty => true
    case Snoc(init, last) => BranchPlain(init) && PiecePlain(last)
  }

  /** `*` and `+` only after characters, `.` and lists. */
  predicate PlainLoops(r: Alts) {
    match r
    case One(b) => BranchPlain(b)
    case More(others, b) => PlainLoops(others) && BranchPlain(b)
  }

  predicate PieceListless(p: Piece) {
    match p
    case Once(a) => !a.Bracket? && (a.Group? ==> WithoutLists(a.alts))
    case Rep(q, _) => PieceListless(q)
  }

  predicate BranchListless(b: Branch) {
    match b
    case Empty => true
    case Snoc(init, last) => BranchListless(init) && PieceListless(last)
  }

  /** No list of characters anywhere. */
  predicate WithoutLists(r: Alts) {
    match r
    case One(b) => BranchListless(b)
    case More(others, b) => WithoutLists(others) && BranchListless(b)
  }

  predicate PieceLoopless(p: Piece) {
    match p
    case Once(a) => a.Group? ==> WithoutLoops(a.alts)
    case Rep(q, op) => op == Opt && PieceLoopless(q)
  }

  predicate BranchLoopless(b: Branch) {
    match b
    case Empty => true
    case Snoc(init, last) => BranchLoopless(init) && PieceLoopless(last)
  }

  /** No `*` and no `+` anywhere. */
  predicate WithoutLoops(r: Alts) {
    match r
    case One(b) => BranchLoopless(b)
    case More(others, b) => WithoutLoops(others) && BranchLoopless(b)
  }

  lemma {:induction false} LooplessSafe(r: Alts, next: Ahead)
    requires WithoutLoops(r)
    ensures AltsSafe(r, next) && PlainLoops(r)
    decreases r, 0
  {
    match r {
      case One(b) => BranchLooplessSafe(b, next);
      case More(others, b) =>
        LooplessSafe(others, Other);
        BranchLooplessSafe(b, next);
    }
  }

  lemma {:induction false} BranchLooplessSafe(b: Branch, next: Ahead)
    requires BranchLoopless(b)
    ensures BranchSafe(b, next) && BranchPlain(b)
    decreases b, 0
  {
    if b.Snoc? {
      PieceLooplessSafe(b.last, next);
      BranchLooplessSafe(b.init, PieceAhead(b.last, next));
    }
  }

  lemma {:induction false} PieceLooplessSafe(p: Piece, next: Ahead)
    requires PieceLoopless(p)
    ensures PieceSafe(p, next) && PiecePlain(p)
    decreases p, 0
  {
    match p {
      case Once(Group(alts)) => LooplessSafe(alts, if alts.More? then Other else next);
      case Once(_) =>
      case Rep(q, _) => PieceLooplessSafe(q, next);
    }
  }

  /** Without lists there is nothing to be misjudged, and a group under `?` only is no loop. */
  lemma {:induction false} ListlessSafe(r: Alts, next: Ahead)
    requires WithoutLists(r) && PlainLoops(r) && !next.List?
    ensures AltsSafe(r, next) && !AltsAhead(r, next).List?
    decreases r, 0
  {
    match r {
      case One(b) => BranchListlessSafe(b, next);
      case More(others, b) =>
        ListlessSafe(others, Other);
        BranchListlessSafe(b, next);
    }
  }

  lemma {:induction false} BranchListlessSafe(b: Branch, next: Ahead)
    requires BranchListless(b) && BranchPlain(b) && !next.List?
    ensures BranchSafe(b, next) && !BranchAhead(b, next).List?
    decreases b, 0
  {
    if b.Snoc? {
      PieceListlessSafe(b.last, next);
      BranchListlessSafe(b.init, PieceAhead(b.last, next));
    }
  }

  lemma {:induction false} PieceListlessSafe(p: Piece, next: Ahead)
    requires PieceListless(p) && PiecePlain(p) && !next.List?
    ensures PieceSafe(p, next) && !PieceAhead(p, next).List? && !Base(p).Bracket?
    decreases p, 0
  {
    match p {
      case Once(Group(alts)) =>
        ListlessSafe(alts, if alts.More? then Other else next);
        assert alts.More? ==> AltsAhead(alts, next) == Other;
      case Once(_) =>
      case Rep(q, op) =>
        PieceListlessSafe(q, next);
        PieceListlessSafe(q, Other);
    }
  }

  /** Patterns for which the condition need not be worked out. */
  lemma SafeAsTheyStand(r: Alts)
    ensures WithoutLoops(r) || (PlainLoops(r) && WithoutLists(r)) ==> SafeLoops(r)
    ensures WithoutLoops(r) ==> PlainLoops(r)
  {
    if WithoutLoops(r) {
      LooplessSafe(r, Nothing);
    }
    if PlainLoops(r) && WithoutLists(r) {
      ListlessSafe(r, Nothing);
    }
  }
}
