/** How groups are numbered: one after another, as they are opened, and each with the count of the groups in it. */
module Numbering {
  import opened Bytes
  import opened CodeTree
  import opened CompilerState
  import opened Ere

  // ----- how many groups there are -----

  function PieceGroups(p: Piece): nat {
    match p
    case Once(Group(alts)) => 1 + AltsGroups(alts)
    case Once(_) => 0
    case Rep(q, _) => PieceGroups(q)
  }

  function BranchGroups(b: Branch): nat {
    match b
    case Empty => 0
    case Snoc(init, last) => BranchGroups(init) + PieceGroups(last)
  }

  /** The groups of an expression, at any depth. */
  function AltsGroups(r: Alts): nat {
    match r
    case One(b) => BranchGroups(b)
    case More(others, b) => AltsGroups(others) + BranchGroups(b)
  }

  function NodeGroups(n: Node): nat {
    match n
    case Grouped(_, _, choice) => 1 + ChoiceGroups(choice)
    case Repeated(body, _) => NodeGroups(body)
    case _ => 0
  }

  function NodesGroups(ns: Nodes): nat {
    match ns
    case NoNode => 0
    case Add(init, last) => NodesGroups(init) + NodeGroups(last)
  }

  function ChoiceGroups(ch: Choice): nat {
    match ch
    case Sole(ns) => NodesGroups(ns)
    case Or(init, ns) => ChoiceGroups(init) + NodesGroups(ns)
  }

  lemma {:induction false} RepAllGroups(p: Piece, ops: seq<Op>)
    ensures PieceGroups(RepAll(p, ops)) == PieceGroups(p)
    decreases |ops|
  {
    if ops != [] {
      RepAllGroups(p, ops[..|ops| - 1]);
    }
  }

  lemma {:induction false} AddCharsGroups(b: Branch, chars: seq<TextChar>)
    ensures BranchGroups(AddChars(b, chars)) == BranchGroups(b)
    decreases |chars|
  {
    if chars != [] {
      AddCharsGroups(b, chars[..|chars| - 1]);
    }
  }

  lemma {:induction false} NodeExpandGroups(n: Node)
    requires NodeOk(n)
    ensures PieceGroups(PieceOf(n)) == NodeGroups(n)
    decreases n, 0
  {
    match n {
      case Grouped(_, _, choice) => ChoiceExpandGroups(choice);
      case Repeated(body, ops) =>
        NodeExpandGroups(body);
        RepAllGroups(PieceOf(body), ops);
      case _ =>
    }
  }

  lemma {:induction false} NodesExpandGroups(ns: Nodes)
    requires NodesOk(ns)
    ensures BranchGroups(Expand(ns)) == NodesGroups(ns)
    decreases ns, 1
  {
    if ns.Add? {
      NodesExpandGroups(ns.init);
      NodeExpandGroups(ns.last);
      if ns.last.Text? {
        AddCharsGroups(Expand(ns.init), ns.last.chars);
      }
    }
  }

  /** A tree has the groups of its expression. */
  lemma {:induction false} ChoiceExpandGroups(ch: Choice)
    requires ChoiceOk(ch)
    ensures AltsGroups(ExpandChoice(ch)) == ChoiceGroups(ch)
    decreases ch, 2
  {
    NodesExpandGroups(ch.nodes);
    if ch.Or? {
      ChoiceExpandGroups(ch.init);
    }
  }

  // ----- in the order in which they are opened -----

  /** The groups are those after the first `before` of the pattern. */
  predicate NodeNumbered(n: Node, before: nat) {
    match n
    case Grouped(reg, inner, choice) =>
      reg == before + 1 && inner == ChoiceGroups(choice) && ChoiceNumbered(choice, reg)
    case Repeated(body, _) => NodeNumbered(body, before)
    case _ => true
  }

  predicate NodesNumbered(ns: Nodes, before: nat) {
    match ns
    case NoNode => true
    case Add(init, last) => NodesNumbered(init, before) && NodeNumbered(last, before + NodesGroups(init))
  }

  predicate ChoiceNumbered(ch: Choice, before: nat) {
    match ch
    case Sole(ns) => NodesNumbered(ns, before)
    case Or(init, ns) => ChoiceNumbered(init, before) && NodesNumbered(ns, before + ChoiceGroups(init))
  }

  // ----- while the pattern is read -----

  function FinishedGroups(f: CodeFrame): nat {
    if f.finished.Some? then ChoiceGroups(f.finished.value) else 0
  }

  /** The groups opened before the innermost open one, and that one. */
  function GroupsBefore(z: CodeZip): nat
    decreases z, 0
  {
    if z.CodeTop? then 0 else ZipGroups(z.outer) + 1
  }

  /** The groups opened so far. */
  function ZipGroups(z: CodeZip): nat
    decreases z, 1
  {
    GroupsBefore(z) + FinishedGroups(z.frame) + NodesGroups(z.frame.nodes)
  }

  predicate ZipNumbered(z: CodeZip) {
    && (z.frame.finished.Some? ==> ChoiceNumbered(z.frame.finished.value, GroupsBefore(z)))
    && NodesNumbered(z.frame.nodes, GroupsBefore(z) + FinishedGroups(z.frame))
    && (z.CodeIn? ==> z.reg == GroupsBefore(z) && ZipNumbered(z.outer))
  }

  /** As many groups have been opened as there are numbers given out. */
  predicate Counted(z: CodeZip, regnum: nat) {
    ZipNumbered(z) && ZipGroups(z) == regnum
  }

  /** Only the innermost branch has changed. */
  lemma CountedWith(z: CodeZip, ns: Nodes, regnum: nat)
    requires Counted(z, regnum) && NodesGroups(ns) == NodesGroups(z.frame.nodes)
    requires NodesNumbered(ns, GroupsBefore(z) + FinishedGroups(z.frame))
    ensures Counted(WithNodes(z, ns), regnum)
  {
    var z' := WithNodes(z, ns);
    assert GroupsBefore(z') == GroupsBefore(z) && FinishedGroups(z'.frame) == FinishedGroups(z.frame);
  }

  lemma CountedAdd(z: CodeZip, n: Node, regnum: nat)
    requires Counted(z, regnum) && (n.Text? || n.Simple? || n.Set?)
    ensures Counted(AddNode(z, n), regnum)
  {
    CountedWith(z, Add(z.frame.nodes, n), regnum);
  }

  lemma CountedText(z: CodeZip, chars: seq<TextChar>, regnum: nat)
    requires Counted(z, regnum) && z.frame.nodes.Add? && z.frame.nodes.last.Text?
    ensures Counted(WithNodes(z, Add(z.frame.nodes.init, Text(chars))), regnum)
  {
    CountedWith(z, Add(z.frame.nodes.init, Text(chars)), regnum);
  }

  lemma CountedRepeated(z: CodeZip, ops: seq<Op>, regnum: nat)
    requires Counted(z, regnum) && z.frame.nodes.Add?
    ensures Counted(WithNodes(z, Add(z.frame.nodes.init, Repeated(z.frame.nodes.last, ops))), regnum)
  {
    CountedWith(z, Add(z.frame.nodes.init, Repeated(z.frame.nodes.last, ops)), regnum);
  }

  lemma CountedNext(z: CodeZip, hole: seq<byte>, regnum: nat)
    requires Counted(z, regnum)
    ensures Counted(NextAlternative(z, hole), regnum)
  {
    var z' := NextAlternative(z, hole);
    assert GroupsBefore(z') == GroupsBefore(z);
    assert FinishedGroups(z'.frame) == FinishedGroups(z.frame) + NodesGroups(z.frame.nodes);
    FrameNumbered(z);
  }

  lemma FrameNumbered(z: CodeZip)
    requires ZipNumbered(z)
    ensures ChoiceNumbered(FrameChoice(z.frame), GroupsBefore(z))
    ensures ChoiceGroups(FrameChoice(z.frame)) == FinishedGroups(z.frame) + NodesGroups(z.frame.nodes)
  {
  }

  lemma CountedOpen(z: CodeZip, regnum: nat)
    requires Counted(z, regnum)
    ensures Counted(OpenGroup(z, regnum + 1), regnum + 1)
  {
    assert GroupsBefore(OpenGroup(z, regnum + 1)) == regnum + 1;
  }

  /** The groups in a group are those opened since. */
  lemma CountedClose(z: CodeZip, regnum: nat)
    requires Counted(z, regnum) && z.CodeIn?
    ensures z.reg <= regnum && Counted(CloseGroup(z, regnum - z.reg), regnum)
  {
    FrameNumbered(z);
    var outer, node := z.outer, Grouped(z.reg, regnum - z.reg, FrameChoice(z.frame));
    var ns := Add(outer.frame.nodes, node);
    var before := GroupsBefore(outer) + FinishedGroups(outer.frame);
    assert ZipNumbered(outer) && z.reg == ZipGroups(outer) + 1;
    assert NodeGroups(node) == regnum + 1 - z.reg;
    assert NodeNumbered(node, before + NodesGroups(outer.frame.nodes));
    assert NodesNumbered(ns, before);
    var z' := WithNodes(outer, ns);
    assert GroupsBefore(z') == GroupsBefore(outer) && FinishedGroups(z'.frame) == FinishedGroups(outer.frame);
  }

  /** When all has been read, the groups of the tree are numbered from one. */
  lemma CountedTree(z: CodeZip, regnum: nat)
    requires Counted(z, regnum) && z.CodeTop?
    ensures ChoiceNumbered(FrameChoice(z.frame), 0)
  {
    FrameNumbered(z);
  }
}
