/** Expressions written out. What the parser reads spells the pattern it was read from, and every
    expression of a plain form, written out, is read back. */
module EreGrammar {
  import opened Bytes
  import opened BracketLists
  import opened Bytecode
  import opened Ere
  import opened EreParser

  function SpellOp(op: Op): byte {
    match op
    case Star => STAR
    case Plus => PLUS
    case Opt => QUESTION
  }

  function SpellAtom(a: Atom): (s: Text)
    ensures s != [] || a.Bracket?
  {
    match a
    case Chr(c, escaped) => if escaped then [BACKSLASH, c] else [c]
    case Dot => [EreParser.DOT]
    case Bracket(spelling, _, _) => spelling
    case Group(alts) => [LPAREN] + SpellAlts(alts) + [RPAREN]
    case Bol => [HAT]
    case Eol => [DOLLAR]
  }

  function SpellPiece(p: Piece): Text {
    match p
    case Once(a) => SpellAtom(a)
    case Rep(q, op) => SpellPiece(q) + [SpellOp(op)]
  }

  function SpellBranch(b: Branch): Text {
    match b
    case Empty => []
    case Snoc(init, last) => SpellBranch(init) + SpellPiece(last)
  }

  function SpellAlts(r: Alts): Text {
    match r
    case One(b) => SpellBranch(b)
    case More(others, b) => SpellAlts(others) + [BAR] + SpellBranch(b)
  }

  function SpellZip(z: Zip): Text {
    match z
    case Top(f) => SpellAlts(FrameAlts(f))
    case In(outer, f) => SpellZip(outer) + [LPAREN] + SpellAlts(FrameAlts(f))
  }

  // ----- what is read spells the pattern -----

  function SpellToken(t: Token): Text {
    match t
    case Unit(a) => SpellAtom(a)
    case Repeat(op) => [SpellOp(op)]
    case Open => [LPAREN]
    case Close => [RPAREN]
    case Bar => [BAR]
  }

  lemma LexSpells(pattern: Text, p: nat)
    requires p < |pattern| && Lex(pattern, p).Lexed?
    ensures var Lexed(token, next) := Lex(pattern, p); SpellToken(token) == pattern[p..next]
  {
    hide MembersFrom;
  }

  lemma SpellAdd(z: Zip, p: Piece)
    ensures SpellZip(AddPiece(z, p)) == SpellZip(z) + SpellPiece(p)
  {
    var f := z.frame;
    var before := if f.finished.Some? then SpellAlts(f.finished.value) + [BAR] else [];
    assert SpellAlts(FrameAlts(f)) == before + SpellBranch(f.branch);
    assert SpellAlts(FrameAlts(f.(branch := Snoc(f.branch, p)))) == before + (SpellBranch(f.branch) + SpellPiece(p));
  }

  /** What is inside the parentheses being closed becomes one piece. */
  lemma SpellClose(z: Zip)
    requires z.In?
    ensures SpellZip(AddPiece(z.outer, Once(Group(FrameAlts(z.frame))))) == SpellZip(z) + [RPAREN]
  {
    SpellAdd(z.outer, Once(Group(FrameAlts(z.frame))));
    hide SpellAlts, SpellBranch;
  }

  lemma SpellRepeat(z: Zip, op: Op)
    requires z.frame.branch.Snoc?
    ensures var Snoc(init, last) := z.frame.branch;
      SpellZip(WithBranch(z, Snoc(init, Rep(last, op)))) == SpellZip(z) + [SpellOp(op)]
  {
    var Snoc(init, last) := z.frame.branch;
    var z0 := WithBranch(z, init);
    SpellAdd(z0, last);
    SpellAdd(z0, Rep(last, op));
    assert AddPiece(z0, last) == z;
    assert AddPiece(z0, Rep(last, op)) == WithBranch(z, Snoc(init, Rep(last, op)));
  }

  lemma SpellOpen(z: Zip)
    ensures SpellZip(In(z, Frame(None, Empty))) == SpellZip(z) + [LPAREN]
    ensures SpellZip(NextBranch(z)) == SpellZip(z) + [BAR]
  {
  }

  /** Whatever pattern is parsed, the expression found spells it. */
  lemma {:induction false} ParsedSpells(pattern: Text, p: nat, z: Zip, t: Alts)
    requires p <= |pattern| && ParseFrom(pattern, p, z) == Parsed(t) && SpellZip(z) == pattern[..p]
    ensures SpellAlts(t) == pattern
    decreases |pattern| - p
  {
    hide Lex, SpellAlts, SpellBranch;
    if p < |pattern| {
      LexSpells(pattern, p);
      var Lexed(token, next) := Lex(pattern, p);
      assert pattern[..next] == pattern[..p] + pattern[p..next];
      match token {
        case Unit(atom) =>
          SpellAdd(z, Once(atom));
          ParsedSpells(pattern, next, AddPiece(z, Once(atom)), t);
        case Repeat(op) =>
          SpellRepeat(z, op);
          var Snoc(init, last) := z.frame.branch;
          ParsedSpells(pattern, next, WithBranch(z, Snoc(init, Rep(last, op))), t);
        case Open =>
          SpellOpen(z);
          ParsedSpells(pattern, next, In(z, Frame(None, Empty)), t);
        case Bar =>
          SpellOpen(z);
          ParsedSpells(pattern, next, NextBranch(z), t);
        case Close =>
          SpellClose(z);
          ParsedSpells(pattern, next, AddPiece(z.outer, Once(Group(FrameAlts(z.frame)))), t);
      }
    }
  }

  /** So no two patterns are read as the same expression. */
  lemma ParseSpells(pattern: Text)
    ensures Parse(pattern).Parsed? ==> SpellAlts(Parse(pattern).alts) == pattern
  {
    if Parse(pattern).Parsed? {
      ParsedSpells(pattern, 0, EreParser.START, Parse(pattern).alts);
    }
  }

  // ----- plain expressions are read back -----

  predicate Special(c: byte) {
    c in {HAT, DOLLAR, STAR, PLUS, QUESTION, EreParser.DOT, LBRACKET, LPAREN, RPAREN, BAR, LBRACE, BACKSLASH}
  }

  /** A list of characters and upward ranges, written without ambiguity. */
  ghost predicate PlainList(spelling: Text, negated: bool, members: set<byte>) {
    exists items: seq<Item> ::
      ListClear(items, negated) && Upward(items) && spelling == SpellList(items, negated) && Chosen(items, members)
  }

  /** Characters with a meaning are escaped, and a bracket expression is spelled as its list. */
  ghost predicate PlainAtom(a: Atom) {
    match a
    case Chr(c, escaped) => if escaped then !GnuEscape(c) else !Special(c)
    case Bracket(spelling, negated, members) => PlainList(spelling, negated, members)
    case Group(alts) => PlainAlts(alts)
    case _ => true
  }

  /** The two signs that elsewhere are characters like any other. */
  const HAT_ITSELF := Chr(HAT, false)
  const DOLLAR_ITSELF := Chr(DOLLAR, false)

  /** Anchors are not repeated. */
  ghost predicate PlainPiece(p: Piece) {
    match p
    case Once(a) => PlainAtom(a) || a == HAT_ITSELF || a == DOLLAR_ITSELF
    case Rep(q, _) => PlainPiece(q) && q != Once(Bol) && q != Once(Eol)
  }

  function BaseOf(p: Piece): Atom {
    match p
    case Once(a) => a
    case Rep(q, _) => BaseOf(q)
  }

  /** After this a `^` is a character: an opening parenthesis or a bar, even an escaped one, would make it an anchor. */
  predicate HatCanFollow(s: Text) {
    s != [] && s[|s| - 1] != LPAREN && s[|s| - 1] != BAR
  }

  /** As an anchor `^` comes first in a branch, and `$` last; as characters they do not. */
  ghost predicate PlainBranch(b: Branch) {
    match b
    case Empty => true
    case Snoc(init, last) =>
      && PlainBranch(init) && PlainPiece(last)
      && (last == Once(Bol) ==> init == Empty)
      && (BaseOf(last) == HAT_ITSELF ==> HatCanFollow(SpellBranch(init)))
      && (init.Snoc? ==> init.last != Once(Eol))
  }

  ghost predicate EndsPlain(b: Branch) {
    b.Snoc? ==> b.last != Once(DOLLAR_ITSELF)
  }

  ghost predicate PlainAlts(r: Alts) {
    match r
    case One(b) => PlainBranch(b) && EndsPlain(b)
    case More(others, b) => PlainAlts(others) && PlainBranch(b) && EndsPlain(b)
  }

  /** A branch can begin, or end, here. */
  predicate BranchStart(pattern: Text, p: nat) {
    p == 0 || (p <= |pattern| && (pattern[p - 1] == LPAREN || pattern[p - 1] == BAR))
  }

  predicate BranchEnd(pattern: Text, p: nat) {
    p == |pattern| || (p < |pattern| && (pattern[p] == RPAREN || pattern[p] == BAR))
  }

  predicate NoDotStarNewline(pattern: Text) {
    forall p :: 0 <= p < |pattern| ==> !DotStarNewline(pattern, p)
  }

  function AltsFrame(r: Alts): Frame {
    match r
    case One(b) => Frame(None, b)
    case More(others, b) => Frame(Some(others), b)
  }

  /** A bracket expression means the same wherever it stands. */
  lemma {:induction false} MembersShift(sp: Text, pattern: Text, o: nat, first: nat, x: nat, acc: set<byte>)
    requires At(pattern, o, sp) && 1 <= first <= x <= |sp| && MembersFrom(sp, first, x, acc).Members?
    requires sp[0] == LBRACKET && (first == 1 || (first == 2 && sp[1] == HAT))
    ensures var m := MembersFrom(sp, first, x, acc);
      MembersFrom(pattern, first + o, x + o, acc) == Members(m.members, m.next + o)
    decreases |sp| - x, 1
  {
    assert forall k :: 0 <= k < |sp| ==> pattern[o + k] == sp[k];
    var c := sp[x];
    if c == RBRACKET && x != first {
    } else {
      assert x + 1 < |sp|;
      HyphenShift(sp, pattern, o, first, x);
      if LoneHyphenIsRange(sp, x) {
        RangeShift(sp, pattern, o, first, x - 1, x + 1, acc);
      } else if sp[x + 1] == DASH && Peek(sp, x + 2) != RBRACKET {
        assert x + 2 < |sp|;
        RangeShift(sp, pattern, o, first, x, x + 2, acc);
      } else {
        MembersShift(sp, pattern, o, first, x + 1, acc + {c});
      }
    }
  }

  lemma HyphenShift(sp: Text, pattern: Text, o: nat, first: nat, x: nat)
    requires At(pattern, o, sp) && 1 <= first <= x && x + 1 < |sp|
    requires sp[0] == LBRACKET && (first == 1 || (first == 2 && sp[1] == HAT))
    ensures LoneHyphenIsRange(sp, x) <==> LoneHyphenIsRange(pattern, x + o)
  {
    assert forall k :: 0 <= k < |sp| ==> pattern[o + k] == sp[k];
    assert pattern[o + (x - 1)] == sp[x - 1];
    if x >= 2 {
      assert pattern[o + (x - 2)] == sp[x - 2];
    }
  }

  lemma {:induction false} RangeShift(sp: Text, pattern: Text, o: nat, first: nat, lo: nat, hi: nat, acc: set<byte>)
    requires At(pattern, o, sp) && 1 <= first && first <= hi <= |sp| && lo < hi
    requires RangeFrom(sp, first, lo, hi, acc).Members?
    requires sp[0] == LBRACKET && (first == 1 || (first == 2 && sp[1] == HAT))
    ensures var m := RangeFrom(sp, first, lo, hi, acc);
      RangeFrom(pattern, first + o, lo + o, hi + o, acc) == Members(m.members, m.next + o)
    decreases |sp| - hi, 0
  {
    assert forall k :: 0 <= k < |sp| ==> pattern[o + k] == sp[k];
    MembersShift(sp, pattern, o, first, hi + 1, acc + ByteRange(sp[lo], sp[hi]));
  }

  lemma BracketShift(sp: Text, pattern: Text, o: nat)
    requires At(pattern, o, sp) && sp != [] && sp[0] == LBRACKET
    requires LexBracket(sp, 0).Lexed? && LexBracket(sp, 0).next == |sp|
    ensures LexBracket(pattern, o) == Lexed(LexBracket(sp, 0).token, o + |sp|)
  {
    hide MembersFrom;
    assert forall k :: 0 <= k < |sp| ==> pattern[o + k] == sp[k];
    var first := if sp[1] == HAT then 2 else 1;
    MembersShift(sp, pattern, o, first, first, {});
    assert sp[0..|sp|] == sp == pattern[o..o + |sp|];
  }

  lemma ListToken(spelling: Text, negated: bool, members: set<byte>)
    requires PlainList(spelling, negated, members)
    ensures |spelling| > 1 && spelling[0] == LBRACKET
    ensures LexBracket(spelling, 0) == Lexed(Unit(Bracket(spelling, negated, members)), |spelling|)
  {
    hide LexBracket, ListClear;
    var items: seq<Item> :| ListClear(items, negated) && Upward(items) && spelling == SpellList(items, negated)
                            && Chosen(items, members);
    var read := ListRead(items, negated);
    assert members == read;
  }

  /** A plain atom that is not a group is one token. */
  lemma AtomToken(a: Atom, pattern: Text, p: nat)
    requires PlainAtom(a) && !a.Group? && At(pattern, p, SpellAtom(a)) && SpellAtom(a) != []
    requires a == Bol ==> BranchStart(pattern, p)
    requires a == Eol ==> BranchEnd(pattern, p + 1)
    ensures p < |pattern| && Lex(pattern, p) == Lexed(Unit(a), p + |SpellAtom(a)|)
  {
    hide MembersFrom, LexBracket;
    AtByte(pattern, p, SpellAtom(a), 0);
    match a {
      case Bracket(sp, negated, members) =>
        ListToken(sp, negated, members);
        BracketShift(sp, pattern, p);
      case Chr(c, escaped) => if escaped { AtByte(pattern, p, SpellAtom(a), 1); }
      case _ =>
    }
  }

  lemma SignStep(pattern: Text, p: nat, z: Zip)
    requires p < |pattern|
    ensures pattern[p] == LPAREN ==> ParseFrom(pattern, p, z) == ParseFrom(pattern, p + 1, In(z, Frame(None, Empty)))
    ensures pattern[p] == BAR ==> ParseFrom(pattern, p, z) == ParseFrom(pattern, p + 1, NextBranch(z))
    ensures pattern[p] == RPAREN && z.In? ==>
      ParseFrom(pattern, p, z) == ParseFrom(pattern, p + 1, AddPiece(z.outer, Once(Group(FrameAlts(z.frame)))))
  {
  }

  lemma {:induction false} AtomBack(a: Atom, pattern: Text, p: nat, z: Zip)
    requires PlainAtom(a) && At(pattern, p, SpellAtom(a)) && NoDotStarNewline(pattern)
    requires a == Bol ==> BranchStart(pattern, p) && z.frame.branch == Empty
    requires a == Eol ==> BranchEnd(pattern, p + 1)
    ensures ParseFrom(pattern, p, z) == ParseFrom(pattern, p + |SpellAtom(a)|, AddPiece(z, Once(a)))
    decreases a, 0
  {
    hide ParseFrom, At, PlainAlts, SpellAlts, Lex;
    if a.Group? {
      var body := SpellAlts(a.alts);
      AtSplit(pattern, p, [LPAREN] + body, [RPAREN]);
      AtSplit(pattern, p, [LPAREN], body);
      AtByte(pattern, p, [LPAREN], 0);
      AtByte(pattern, p + 1 + |body|, [RPAREN], 0);
      var inner := In(z, Frame(None, Empty));
      SignStep(pattern, p, z);
      AltsBack(a.alts, pattern, p + 1, inner);
      SignStep(pattern, p + 1 + |body|, inner.(frame := AltsFrame(a.alts)));
      assert FrameAlts(AltsFrame(a.alts)) == a.alts;
    } else {
      LeafBack(a, pattern, p, z);
    }
  }

  lemma LeafBack(a: Atom, pattern: Text, p: nat, z: Zip)
    requires PlainAtom(a) && !a.Group? && At(pattern, p, SpellAtom(a)) && NoDotStarNewline(pattern)
    requires a == Bol ==> BranchStart(pattern, p) && z.frame.branch == Empty
    requires a == Eol ==> BranchEnd(pattern, p + 1)
    ensures ParseFrom(pattern, p, z) == ParseFrom(pattern, p + |SpellAtom(a)|, AddPiece(z, Once(a)))
  {
    hide At, MembersFrom, LexBracket, Lex;
    AtomToken(a, pattern, p);
  }

  /** What follows does not make a `$` an anchor. */
  lemma {:induction false} PieceFirst(q: Piece)
    requires PlainPiece(q)
    ensures var s := SpellPiece(q); s != [] && s[0] != RPAREN && s[0] != BAR
  {
    match q
    case Once(a) =>
      if a.Bracket? {
        ListToken(a.spelling, a.negated, a.members);
      }
    case Rep(inner, _) => PieceFirst(inner);
  }

  /** Where they are no anchors. */
  lemma SignBack(a: Atom, pattern: Text, p: nat, z: Zip)
    requires a == HAT_ITSELF || a == DOLLAR_ITSELF
    requires At(pattern, p, SpellAtom(a)) && NoDotStarNewline(pattern)
    requires a == HAT_ITSELF ==> !BranchStart(pattern, p)
    requires a == DOLLAR_ITSELF ==> !BranchEnd(pattern, p + 1)
    ensures ParseFrom(pattern, p, z) == ParseFrom(pattern, p + |SpellAtom(a)|, AddPiece(z, Once(a)))
  {
    AtByte(pattern, p, SpellAtom(a), 0);
  }

  lemma {:induction false} PieceBack(q: Piece, pattern: Text, p: nat, z: Zip)
    requires PlainPiece(q) && At(pattern, p, SpellPiece(q)) && NoDotStarNewline(pattern)
    requires q == Once(Bol) ==> BranchStart(pattern, p) && z.frame.branch == Empty
    requires q == Once(Eol) ==> BranchEnd(pattern, p + 1)
    requires BaseOf(q) == HAT_ITSELF ==> !BranchStart(pattern, p)
    requires q == Once(DOLLAR_ITSELF) ==> !BranchEnd(pattern, p + 1)
    ensures ParseFrom(pattern, p, z) == ParseFrom(pattern, p + |SpellPiece(q)|, AddPiece(z, q))
    decreases q, 0
  {
    hide Lex, PlainAtom;
    match q {
      case Once(a) =>
        if PlainAtom(a) {
          SignsNotPlain();
          AtomBack(a, pattern, p, z);
        } else {
          SignBack(a, pattern, p, z);
        }
      case Rep(inner, op) =>
        var s := SpellPiece(inner);
        AtSplit(pattern, p, s, [SpellOp(op)]);
        AtByte(pattern, p + |s|, [SpellOp(op)], 0);
        PieceBack(inner, pattern, p, z);
        OpToken(pattern, p + |s|, op);
        assert HasAtom(Snoc(z.frame.branch, inner));
    }
  }

  lemma SignsNotPlain()
    ensures !PlainAtom(HAT_ITSELF) && !PlainAtom(DOLLAR_ITSELF)
  {
  }

  lemma OpToken(pattern: Text, p: nat, op: Op)
    requires p < |pattern| && pattern[p] == SpellOp(op)
    ensures Lex(pattern, p) == Lexed(Repeat(op), p + 1)
  {
  }

  lemma {:induction false} BranchBack(b: Branch, pattern: Text, p: nat, z: Zip)
    requires PlainBranch(b) && At(pattern, p, SpellBranch(b)) && NoDotStarNewline(pattern)
    requires BranchStart(pattern, p) && z.frame.branch == Empty
    requires b.Snoc? && b.last == Once(Eol) ==> BranchEnd(pattern, p + |SpellBranch(b)|)
    requires b.Snoc? && b.last == Once(DOLLAR_ITSELF) ==> !BranchEnd(pattern, p + |SpellBranch(b)|)
    ensures ParseFrom(pattern, p, z) == ParseFrom(pattern, p + |SpellBranch(b)|, WithBranch(z, b))
    decreases b, 0
  {
    hide ParseFrom, PlainPiece, At;
    match b {
      case Empty =>
      case Snoc(init, last) =>
        AtSplit(pattern, p, SpellBranch(init), SpellPiece(last));
        var s := SpellBranch(init);
        PieceFirst(last);
        AtByte(pattern, p + |s|, SpellPiece(last), 0);
        BranchBack(init, pattern, p, z);
        if s != [] {
          AtByte(pattern, p, s, |s| - 1);
        }
        PieceBack(last, pattern, p + |s|, WithBranch(z, init));
    }
  }

  lemma {:induction false} AltsBack(r: Alts, pattern: Text, p: nat, z: Zip)
    requires PlainAlts(r) && At(pattern, p, SpellAlts(r)) && NoDotStarNewline(pattern)
    requires BranchStart(pattern, p) && BranchEnd(pattern, p + |SpellAlts(r)|) && z.frame == Frame(None, Empty)
    ensures ParseFrom(pattern, p, z) == ParseFrom(pattern, p + |SpellAlts(r)|, z.(frame := AltsFrame(r)))
    decreases r, 0
  {
    hide PlainBranch, SpellBranch, ParseFrom, At;
    match r {
      case One(b) => BranchBack(b, pattern, p, z);
      case More(others, b) =>
        var s, t := SpellAlts(others), SpellBranch(b);
        AtSplit(pattern, p, s + [BAR], t);
        AtSplit(pattern, p, s, [BAR]);
        AtByte(pattern, p + |s|, [BAR], 0);
        AltsBack(others, pattern, p, z);
        SignStep(pattern, p + |s|, z.(frame := AltsFrame(others)));
        BranchBack(b, pattern, p + |s| + 1, NextBranch(z.(frame := AltsFrame(others))));
    }
  }

  /** Every plain expression, written out, is read back as itself. */
  lemma PlainReadBack(r: Alts)
    requires PlainAlts(r) && NoDotStarNewline(SpellAlts(r))
    ensures Parse(SpellAlts(r)) == Parsed(r)
  {
    var pattern := SpellAlts(r);
    assert At(pattern, 0, pattern);
    AltsBack(r, pattern, 0, EreParser.START);
    assert FrameAlts(AltsFrame(r)) == r;
  }
}
