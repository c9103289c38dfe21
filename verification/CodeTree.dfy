/** The structure the one-pass compiler gives its code: nodes, the bytes each stands for,
    and the expression each is the translation of. */
module CodeTree {
  import opened Bytes
  import opened Ere
  import opened Bytecode

  datatype TextChar = TextChar(c: byte, escaped: bool)

  datatype Node =
    | Text(chars: seq<TextChar>)      // one `exactn`: a merged run of literal characters
    | Simple(atom: Atom)              // `.` and the anchors
    | Set(spelling: seq<byte>, negated: bool, members: set<byte>, bitmap: seq<byte>)
    | Grouped(reg: nat, inner: nat, choice: Choice)
    | Repeated(body: Node, ops: seq<Op>)

  datatype Nodes = NoNode | Add(init: Nodes, last: Node)
  datatype Choice = Sole(nodes: Nodes) | Or(init: Choice, nodes: Nodes)

  const MAX_REGNUM := 255

  ghost predicate Represents(bitmap: seq<byte>, members: set<byte>) {
    |bitmap| <= 32 && forall c: byte :: InBitmap(bitmap, c) <==> c in members
  }

  /** Without zero bytes at the end. */
  predicate Trimmed(bitmap: seq<byte>) {
    bitmap != [] ==> bitmap[|bitmap| - 1] != 0
  }

  // ----- well-formed trees -----

  ghost predicate NodeOk(n: Node) {
    match n
    case Text(chars) => 1 <= |chars| <= 255
    case Simple(atom) => atom in {Dot, Bol, Eol}
    case Set(_, _, members, bitmap) => Represents(bitmap, members) && Trimmed(bitmap)
    case Grouped(_, _, choice) => ChoiceOk(choice)
    case Repeated(body, ops) => ops != [] && Repeatable(body) && NodeOk(body)
  }

  /** What a repetition operator may follow: one atom, and in particular one character. */
  predicate Repeatable(n: Node) {
    match n
    case Text(chars) => |chars| == 1
    case Simple(atom) => atom == Dot
    case Set(_, _, _, _) => true
    case Grouped(_, _, _) => true
    case Repeated(_, _) => false
  }

  ghost predicate NodesOk(ns: Nodes) {
    match ns
    case NoNode => true
    case Add(init, last) => NodesOk(init) && NodeOk(last)
  }

  ghost predicate ChoiceOk(ch: Choice) {
    match ch
    case Sole(ns) => NodesOk(ns)
    case Or(init, ns) => ChoiceOk(init) && NodesOk(ns)
  }

  // ----- bytes -----

  function TextBytes(chars: seq<TextChar>): (s: seq<byte>)
    ensures |s| == |chars|
  {
    seq(|chars|, k requires 0 <= k < |chars| => chars[k].c)
  }

  function MemoryCode(op: byte, reg: nat, inner: nat): seq<byte> {
    if reg <= MAX_REGNUM then [op, reg, inner % 256] else []
  }

  function SimpleCode(atom: Atom): seq<byte> {
    match atom
    case Dot => [ANYCHAR]
    case Bol => [BEGLINE]
    case _ => [ENDLINE]
  }

  function RepeatCode(body: seq<byte>, zero: bool, many: bool): seq<byte> {
    if many then
      (if zero then [] else JumpCode(DUMMY_FAILURE_JUMP, 3))
      + (JumpCode(ON_FAILURE_JUMP, |body| + 3) + (body + JumpCode(MAYBE_POP_JUMP, -|body| - 6)))
    else JumpCode(ON_FAILURE_JUMP, |body|) + body
  }

  function NodeCode(n: Node): seq<byte> {
    match n
    case Text(chars) => [EXACTN, |chars| % 256] + TextBytes(chars)
    case Simple(atom) => SimpleCode(atom)
    case Set(_, negated, _, bitmap) => [if negated then CHARSET_NOT else CHARSET, |bitmap| % 256] + bitmap
    case Grouped(reg, inner, choice) =>
      MemoryCode(START_MEMORY, reg, inner)
      + (ChoiceCode(choice)
         + ((if choice.Or? then [PUSH_DUMMY_FAILURE] else []) + MemoryCode(STOP_MEMORY, reg, inner)))
    case Repeated(body, ops) => RepeatCode(NodeCode(body), ZeroOk(ops), ManyOk(ops))
  }

  lemma RepeatedCode(body: Node, ops: seq<Op>)
    ensures NodeCode(Repeated(body, ops)) == RepeatCode(NodeCode(body), ZeroOk(ops), ManyOk(ops))
  {
  }

  function NodesCode(ns: Nodes): seq<byte> {
    match ns
    case NoNode => []
    case Add(init, last) => NodesCode(init) + NodeCode(last)
  }

  /** Finished alternatives: each may fail over to the next, each but the last ends with a jump
      to the jump that ends its successor; the last ends with the three bytes `hole`. */
  function OpenCode(ch: Choice, hole: seq<byte>): seq<byte> {
    match ch
    case Sole(ns) => OpenAlternative(NodesCode(ns), hole)
    case Or(init, ns) =>
      OpenCode(init, JumpCode(JUMP_PAST_ALT, |NodesCode(ns)| + 3)) + OpenAlternative(NodesCode(ns), hole)
  }

  function OpenAlternative(body: seq<byte>, hole: seq<byte>): seq<byte> {
    JumpCode(ON_FAILURE_JUMP, |body| + 3) + (body + hole)
  }

  function ChoiceCode(ch: Choice): seq<byte> {
    match ch
    case Sole(ns) => NodesCode(ns)
    case Or(init, ns) => OpenCode(init, JumpCode(JUMP_PAST_ALT, |NodesCode(ns)|)) + NodesCode(ns)
  }

  // ----- the expression a tree translates -----

  function PieceOf(n: Node): Piece
    decreases n, 0
  {
    match n
    case Text(chars) => if chars == [] then Once(Dot) else Once(Chr(chars[0].c, chars[0].escaped))
    case Simple(atom) => Once(atom)
    case Set(spelling, negated, members, _) => Once(Bracket(spelling, negated, members))
    case Grouped(_, _, choice) => Once(Group(ExpandChoice(choice)))
    case Repeated(body, ops) => RepAll(PieceOf(body), ops)
  }

  function AddChars(b: Branch, chars: seq<TextChar>): Branch {
    if chars == [] then b
    else Snoc(AddChars(b, chars[..|chars| - 1]),
              Once(Chr(chars[|chars| - 1].c, chars[|chars| - 1].escaped)))
  }

  function ExpandNode(b: Branch, n: Node): Branch
    decreases n, 1
  {
    if n.Text? then AddChars(b, n.chars) else Snoc(b, PieceOf(n))
  }

  function Expand(ns: Nodes): Branch {
    match ns
    case NoNode => Empty
    case Add(init, last) => ExpandNode(Expand(init), last)
  }

  function ExpandChoice(ch: Choice): Alts {
    match ch
    case Sole(ns) => One(Expand(ns))
    case Or(init, ns) => More(ExpandChoice(init), Expand(ns))
  }
}
