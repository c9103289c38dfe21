/** Reading a pattern, one token at a time, under the syntax bits a2ps selects. */
module EreParser {
  import opened Bytes
  import opened Ere

  datatype Error = EESCAPE | EBRACK | ERANGE | EPAREN | ERPAREN | BADRPT | ESIZE

  datatype Option<T> = None | Some(value: T)

  /** Characters the pattern syntax gives a meaning to. */
  const HAT: byte := '^' as int
  const DOLLAR: byte := '$' as int
  const STAR: byte := '*' as int
  const PLUS: byte := '+' as int
  const QUESTION: byte := '?' as int
  const DOT: byte := '.' as int
  const LBRACKET: byte := '[' as int
  const RBRACKET: byte := ']' as int
  const LPAREN: byte := '(' as int
  const RPAREN: byte := ')' as int
  const BAR: byte := '|' as int
  const LBRACE: byte := '{' as int
  const BACKSLASH: byte := '\\' as int
  const DASH: byte := '-' as int
  const COLON: byte := ':' as int

  type Text = seq<byte>

  predicate IsOp(c: byte) {
    c == STAR || c == PLUS || c == QUESTION
  }

  function OpOf(c: byte): (op: Op)
    requires IsOp(c)
  {
    if c == STAR then Star else if c == PLUS then Plus else Opt
  }

  predicate OpAt(pattern: Text, p: nat) {
    p < |pattern| && IsOp(pattern[p])
  }

  /** The byte at `p`; a pattern is followed by its NUL terminator. */
  function Peek(pattern: Text, p: nat): byte {
    if p < |pattern| then pattern[p] else 0
  }

  // ----- tokens -----

  datatype Token = Unit(atom: Atom) | Open | Close | Bar | Repeat(op: Op)
  datatype Lexed =
    | Lexed(token: Token, next: nat)
    | LexError(error: Error)
    | Unmodelled

  /** Escapes that are GNU operators or back-references: w W < > b B ` ' 1..9. */
  predicate GnuEscape(c: byte) {
    c in {'w' as int, 'W' as int, '<' as int, '>' as int, 'b' as int, 'B' as int, '`' as int, '\'' as int}
    || '1' as int <= c <= '9' as int
  }

  predicate HatIsAnchor(pattern: Text, p: nat)
    requires p < |pattern|
  {
    p == 0 || pattern[p - 1] == LPAREN || pattern[p - 1] == BAR
  }

  predicate DollarIsAnchor(pattern: Text, p: nat)
    requires p < |pattern|
  {
    p + 1 == |pattern| || pattern[p + 1] == RPAREN || pattern[p + 1] == BAR
  }

  /** The token that starts at `p`. */
  function Lex(pattern: Text, p: nat): (r: Lexed)
    requires p < |pattern|
    ensures r.Lexed? ==> p < r.next <= |pattern|
  {
    var c := pattern[p];
    if c == HAT && HatIsAnchor(pattern, p) then Lexed(Unit(Bol), p + 1)
    else if c == DOLLAR && DollarIsAnchor(pattern, p) then Lexed(Unit(Eol), p + 1)
    else if IsOp(c) then Lexed(Repeat(OpOf(c)), p + 1)
    else if c == DOT then Lexed(Unit(Dot), p + 1)
    else if c == LBRACKET then LexBracket(pattern, p)
    else if c == LPAREN then Lexed(Open, p + 1)
    else if c == RPAREN then Lexed(Close, p + 1)
    else if c == BAR then Lexed(Token.Bar, p + 1)
    else if c == LBRACE then Unmodelled
    else if c == BACKSLASH then
      if p + 1 == |pattern| then LexError(EESCAPE)
      else if GnuEscape(pattern[p + 1]) then Unmodelled
      else Lexed(Unit(Chr(pattern[p + 1], true)), p + 2)
    else Lexed(Unit(Chr(c, false)), p + 1)
  }

  // ----- bracket expressions -----

  datatype Members =
    | Members(members: set<byte>, next: nat)
    | BadMembers(error: Error)
    | UnmodelledMembers

  predicate Between(lo: byte, x: byte, hi: byte) {
    lo <= x <= hi
  }

  function ByteRange(lo: byte, hi: byte): set<byte> {
    set x: byte | Between(lo, x, hi)
  }

  function LexBracket(pattern: Text, p: nat): (r: Lexed)
    requires p < |pattern| && pattern[p] == LBRACKET
    ensures r.Lexed? ==> p < r.next <= |pattern| && r.token.Unit? && r.token.atom.Bracket?
  {
    if p + 1 == |pattern| then LexError(EBRACK)
    else
      var negated := pattern[p + 1] == HAT;
      var first := if negated then p + 2 else p + 1;
      match MembersFrom(pattern, first, first, {})
      case Members(members, next) => Lexed(Unit(Bracket(pattern[p..next], negated, members)), next)
      case BadMembers(e) => LexError(e)
      case UnmodelledMembers => Unmodelled
  }

  /** A hyphen reached on its own is a range operator unless it opens or closes the list. */
  predicate LoneHyphenIsRange(pattern: Text, p: nat)
    requires p < |pattern|
  {
    && pattern[p] == DASH
    && !(p >= 1 && pattern[p - 1] == LBRACKET)
    && !(p >= 2 && pattern[p - 2] == LBRACKET && pattern[p - 1] == HAT)
    && Peek(pattern, p + 1) != RBRACKET
  }

  /** The list from `p` on, with `acc` already collected; `first` is where the list began. */
  function MembersFrom(pattern: Text, first: nat, p: nat, acc: set<byte>): (r: Members)
    requires 1 <= first <= p <= |pattern|
    ensures r.Members? ==> p < r.next <= |pattern| && acc <= r.members
    decreases |pattern| - p
  {
    if p == |pattern| then BadMembers(EBRACK)
    else
      var c := pattern[p];
      if c == RBRACKET && p != first then Members(acc, p + 1)
      else if LoneHyphenIsRange(pattern, p) then RangeFrom(pattern, first, p - 1, p + 1, acc)
      else if Peek(pattern, p + 1) == DASH && Peek(pattern, p + 2) != RBRACKET then
        RangeFrom(pattern, first, p, p + 2, acc)
      else if c == LBRACKET && Peek(pattern, p + 1) == COLON then UnmodelledMembers
      else MembersFrom(pattern, first, p + 1, acc + {c})
  }

  /** A range from the character at `lo` to the one at `hi`. */
  function RangeFrom(pattern: Text, first: nat, lo: nat, hi: nat, acc: set<byte>): (r: Members)
    requires 1 <= first && first <= hi <= |pattern| && lo < hi
    ensures r.Members? ==> hi < r.next <= |pattern| && acc <= r.members
    decreases |pattern| - hi
  {
    if hi == |pattern| then BadMembers(ERANGE)
    else if pattern[lo] > pattern[hi] then BadMembers(ERANGE)
    else MembersFrom(pattern, first, hi + 1, acc + ByteRange(pattern[lo], pattern[hi]))
  }

  // ----- parsing -----

  /** What is known inside one pair of parentheses: finished alternatives and the current branch. */
  datatype Frame = Frame(finished: Option<Alts>, branch: Branch)
  datatype Zip = Top(frame: Frame) | In(outer: Zip, frame: Frame)

  datatype Parsed = Parsed(alts: Alts) | Failed(error: Error) | OutOfFragment

  const START := Top(Frame(None, Empty))

  function FrameAlts(f: Frame): Alts {
    match f.finished
    case None => One(f.branch)
    case Some(done) => More(done, f.branch)
  }

  function WithBranch(z: Zip, b: Branch): Zip {
    z.(frame := z.frame.(branch := b))
  }

  function AddPiece(z: Zip, p: Piece): Zip {
    WithBranch(z, Snoc(z.frame.branch, p))
  }

  function NextBranch(z: Zip): Zip {
    z.(frame := Frame(Some(FrameAlts(z.frame)), Empty))
  }

  /** Whether the branch holds anything but `^`. */
  predicate HasAtom(b: Branch) {
    b.Snoc? && (b.last != Once(Bol) || HasAtom(b.init))
  }

  /** `.*` before a newline character gets special code. */
  predicate DotStarNewline(pattern: Text, p: nat)
    requires p < |pattern|
  {
    pattern[p] == STAR && p > 0 && pattern[p - 1] == DOT && Peek(pattern, p + 1) == NEWLINE
  }

  /** Parse the rest of the pattern from `p`, given what has been read. */
  function ParseFrom(pattern: Text, p: nat, z: Zip): Parsed
    requires p <= |pattern|
    decreases |pattern| - p
  {
    if p == |pattern| then
      if z.Top? then Parsed(FrameAlts(z.frame)) else Failed(EPAREN)
    else
      match Lex(pattern, p)
      case Unmodelled => OutOfFragment
      case LexError(e) => Failed(e)
      case Lexed(token, next) =>
        match token
        case Unit(atom) =>
          if atom == Bol && HasAtom(z.frame.branch) then OutOfFragment
          else ParseFrom(pattern, next, AddPiece(z, Once(atom)))
        case Repeat(op) =>
          if !HasAtom(z.frame.branch) then Failed(BADRPT)
          else if DotStarNewline(pattern, p) then OutOfFragment
          else
            var Snoc(init, last) := z.frame.branch;
            ParseFrom(pattern, next, WithBranch(z, Snoc(init, Rep(last, op))))
        case Open => ParseFrom(pattern, next, In(z, Frame(None, Empty)))
        case Bar => ParseFrom(pattern, next, NextBranch(z))
        case Close =>
          if z.Top? then Failed(ERPAREN)
          else ParseFrom(pattern, next, AddPiece(z.outer, Once(Group(FrameAlts(z.frame)))))
  }

  function Parse(pattern: Text): Parsed {
    ParseFrom(pattern, 0, START)
  }
}
