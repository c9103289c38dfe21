/** What the compiler's buffer holds between two tokens: the code of finished nodes, with three
    undecided bytes after the last finished alternative of every open group. */
module CompilerState {
  import opened Bytes
  import opened Bytecode
  import opened CodeTree
  import opened EreParser

  import Ere

  /** `hole` is whatever lies in the space reserved for the jump after the last alternative. */
  datatype CodeFrame = CodeFrame(finished: Option<Choice>, hole: seq<byte>, nodes: Nodes)
  datatype CodeZip = CodeTop(frame: CodeFrame) | CodeIn(outer: CodeZip, reg: nat, frame: CodeFrame)

  const CODE_START := CodeTop(CodeFrame(None, [], NoNode))

  ghost predicate FrameOk(f: CodeFrame) {
    NodesOk(f.nodes) && (f.finished.Some? ==> ChoiceOk(f.finished.value) && |f.hole| == 3)
  }

  ghost predicate ZipOk(z: CodeZip) {
    FrameOk(z.frame) && (z.CodeIn? ==> ZipOk(z.outer))
  }

  function FinishedCode(f: CodeFrame): seq<byte> {
    if f.finished.Some? then OpenCode(f.finished.value, f.hole) else []
  }

  /** Everything up to and including the innermost open parenthesis. */
  function Outside(z: CodeZip): seq<byte>
    decreases z, 0
  {
    if z.CodeTop? then [] else ZipCode(z.outer) + MemoryCode(START_MEMORY, z.reg, 0)
  }

  /** Everything before the current branch. */
  function PrefixCode(z: CodeZip): seq<byte>
    decreases z, 1
  {
    Outside(z) + FinishedCode(z.frame)
  }

  function ZipCode(z: CodeZip): seq<byte>
    decreases z, 2
  {
    PrefixCode(z) + NodesCode(z.frame.nodes)
  }

  /** Where the reserved space is, or -1. */
  function FixupOf(z: CodeZip): int {
    if z.frame.finished.Some? then |PrefixCode(z)| - 3 else -1
  }

  // ----- what has been parsed -----

  function ExpandFrame(f: CodeFrame): Frame {
    Frame(if f.finished.Some? then Some(ExpandChoice(f.finished.value)) else None, Expand(f.nodes))
  }

  function ExpandZip(z: CodeZip): Zip {
    if z.CodeTop? then Top(ExpandFrame(z.frame)) else In(ExpandZip(z.outer), ExpandFrame(z.frame))
  }

  predicate HasNode(ns: Nodes) {
    ns.Add? && (ns.last != Simple(Ere.Bol) || HasNode(ns.init))
  }

  // ----- moves -----

  function WithNodes(z: CodeZip, ns: Nodes): CodeZip {
    z.(frame := z.frame.(nodes := ns))
  }

  function AddNode(z: CodeZip, n: Node): CodeZip {
    WithNodes(z, Add(z.frame.nodes, n))
  }

  function FrameChoice(f: CodeFrame): Choice {
    if f.finished.Some? then Or(f.finished.value, f.nodes) else Sole(f.nodes)
  }

  function NextAlternative(z: CodeZip, hole: seq<byte>): CodeZip {
    z.(frame := CodeFrame(Some(FrameChoice(z.frame)), hole, NoNode))
  }

  function OpenGroup(z: CodeZip, reg: nat): CodeZip {
    CodeIn(z, reg, CodeFrame(None, [], NoNode))
  }

  function CloseGroup(z: CodeZip, inner: nat): CodeZip
    requires z.CodeIn?
  {
    AddNode(z.outer, Grouped(z.reg, inner, FrameChoice(z.frame)))
  }

  // ----- what the moves do to the code -----

  lemma WithNodesCode(z: CodeZip, ns: Nodes)
    ensures PrefixCode(WithNodes(z, ns)) == PrefixCode(z)
    ensures ZipCode(WithNodes(z, ns)) == PrefixCode(z) + NodesCode(ns)
  {
  }

  lemma WithNodesOk(z: CodeZip, ns: Nodes)
    requires ZipOk(z) && NodesOk(ns)
    ensures ZipOk(WithNodes(z, ns)) && FixupOf(WithNodes(z, ns)) == FixupOf(z)
  {
    WithNodesCode(z, ns);
  }

  lemma AddNodeCode(z: CodeZip, n: Node)
    ensures ZipCode(AddNode(z, n)) == ZipCode(z) + NodeCode(n)
    ensures PrefixCode(AddNode(z, n)) == PrefixCode(z)
  {
    WithNodesCode(z, Add(z.frame.nodes, n));
    Associative(PrefixCode(z), NodesCode(z.frame.nodes), NodeCode(n));
  }

  /** Exchanging the last node. */
  lemma ReplaceLast(z: CodeZip, n: Node)
    requires z.frame.nodes.Add?
    ensures var Add(init, last) := z.frame.nodes;
      var at := |ZipCode(z)| - |NodeCode(last)|;
      && at >= 0 && ZipCode(z)[at..] == NodeCode(last)
      && ZipCode(WithNodes(z, Add(init, n))) == ZipCode(z)[..at] + NodeCode(n)
      && PrefixCode(WithNodes(z, Add(init, n))) == PrefixCode(z)
  {
    hide PrefixCode;
    var Add(init, last) := z.frame.nodes;
    WithNodesCode(z, Add(init, last));
    assert WithNodes(z, Add(init, last)) == z;
    WithNodesCode(z, Add(init, n));
    Associative(PrefixCode(z), NodesCode(init), NodeCode(last));
    Associative(PrefixCode(z), NodesCode(init), NodeCode(n));
  }

  /** One more character in the last `exactn`: its count grows and the character follows. */
  lemma ReplaceText(z: CodeZip, init: Nodes, chars: seq<TextChar>, c: TextChar)
    requires z.frame.nodes == Add(init, Text(chars)) && 1 <= |chars| <= 254
    ensures var z' := WithNodes(z, Add(init, Text(chars + [c])));
      var count := |ZipCode(z)| - |chars| - 1;
      && count > 0 && ZipCode(z)[count] == |chars|
      && ZipCode(z') == ZipCode(z)[count := |chars| + 1] + [c.c]
      && PrefixCode(z') == PrefixCode(z)
  {
    hide PrefixCode;
    var front := PrefixCode(z) + NodesCode(init);
    var text := TextBytes(chars);
    WithNodesCode(z, Add(init, Text(chars)));
    WithNodesCode(z, Add(init, Text(chars + [c])));
    assert WithNodes(z, z.frame.nodes) == z;
    Associative(PrefixCode(z), NodesCode(init), [EXACTN, |chars|] + text);
    Associative(PrefixCode(z), NodesCode(init), [EXACTN, |chars| + 1] + (text + [c.c]));
    assert TextBytes(chars + [c]) == text + [c.c];
    assert (front + ([EXACTN, |chars|] + text))[|front| + 1 := |chars| + 1] + [c.c]
      == front + ([EXACTN, |chars| + 1] + (text + [c.c]));
  }

  /** The reserved space is the tail of the finished alternatives. */
  lemma {:induction false} OpenCodeEnds(ch: Choice, hole: seq<byte>)
    ensures OpenCode(ch, hole) == OpenCode(ch, []) + hole
  {
    var body := NodesCode(ch.nodes);
    var head := JumpCode(ON_FAILURE_JUMP, |body| + 3);
    assert head + (body + hole) == head + (body + []) + hole;
  }

  /** Everything before the reserved space. */
  function BeforeHole(z: CodeZip): seq<byte>
    requires z.frame.finished.Some?
  {
    Outside(z) + OpenCode(z.frame.finished.value, [])
  }

  lemma PrefixEnds(z: CodeZip)
    requires z.frame.finished.Some?
    ensures PrefixCode(z) == BeforeHole(z) + z.frame.hole
  {
    OpenCodeEnds(z.frame.finished.value, z.frame.hole);
  }

  /** The finished alternatives once the space after them jumps `d` bytes past itself. */
  function PatchedPrefix(z: CodeZip, d: int): seq<byte> {
    if z.frame.finished.Some? then BeforeHole(z) + JumpCode(JUMP_PAST_ALT, d) else PrefixCode(z)
  }

  lemma NoHole(z: CodeZip, d: int)
    ensures z.frame.finished.None? ==> PatchedPrefix(z, d) == PrefixCode(z)
  {
  }

  /** Storing a jump into the reserved space. */
  lemma PatchPrefix(z: CodeZip, d: int, rest: seq<byte>)
    requires z.frame.finished.Some? && |z.frame.hole| == 3
    ensures var at := |PrefixCode(z)| - 3;
      && at == FixupOf(z) >= 0
      && (PrefixCode(z) + rest)[..at] + JumpCode(JUMP_PAST_ALT, d) + (PrefixCode(z) + rest)[at + 3..]
         == PatchedPrefix(z, d) + rest
  {
    hide PrefixCode, OpenCode;
    PrefixEnds(z);
    var before, whole := BeforeHole(z), PrefixCode(z) + rest;
    assert whole == before + z.frame.hole + rest;
    assert whole[..|before|] == before && whole[|before| + 3..] == rest;
  }

  lemma NextPrefix(z: CodeZip, hole: seq<byte>)
    ensures PrefixCode(NextAlternative(z, hole)) == Outside(z) + OpenCode(FrameChoice(z.frame), hole)
    ensures ZipCode(NextAlternative(z, hole)) == PrefixCode(NextAlternative(z, hole))
  {
  }

  lemma PatchedFinished(z: CodeZip, d: int)
    requires z.frame.finished.Some?
    ensures Outside(z) + OpenCode(z.frame.finished.value, JumpCode(JUMP_PAST_ALT, d)) == PatchedPrefix(z, d)
  {
    var head := OpenCode(z.frame.finished.value, []);
    OpenCodeEnds(z.frame.finished.value, JumpCode(JUMP_PAST_ALT, d));
    Associative(Outside(z), head, JumpCode(JUMP_PAST_ALT, d));
  }

  lemma NextAlternativeCode(z: CodeZip, hole: seq<byte>)
    ensures var body := NodesCode(z.frame.nodes);
      ZipCode(NextAlternative(z, hole)) == PatchedPrefix(z, |body| + 3) + OpenAlternative(body, hole)
    ensures PrefixCode(NextAlternative(z, hole)) == ZipCode(NextAlternative(z, hole))
  {
    hide PrefixCode, ZipCode, Outside, OpenAlternative;
    var body := NodesCode(z.frame.nodes);
    NextPrefix(z, hole);
    if z.frame.finished.Some? {
      PatchedFinished(z, |body| + 3);
      var patched := OpenCode(z.frame.finished.value, JumpCode(JUMP_PAST_ALT, |body| + 3));
      Associative(Outside(z), patched, OpenAlternative(body, hole));
    } else {
      PrefixWithoutFinished(z);
    }
  }

  lemma PrefixWithoutFinished(z: CodeZip)
    requires z.frame.finished.None?
    ensures PrefixCode(z) == Outside(z)
  {
  }

  lemma OpenGroupCode(z: CodeZip, reg: nat)
    ensures ZipCode(OpenGroup(z, reg)) == ZipCode(z) + MemoryCode(START_MEMORY, reg, 0)
    ensures PrefixCode(OpenGroup(z, reg)) == ZipCode(OpenGroup(z, reg))
  {
  }

  /** Once its last reserved space jumps to the end, an open group holds the code of its alternatives. */
  lemma InnerCode(z: CodeZip)
    ensures var body := NodesCode(z.frame.nodes);
      PatchedPrefix(z, |body|) + body == Outside(z) + ChoiceCode(FrameChoice(z.frame))
  {
    var body := NodesCode(z.frame.nodes);
    if z.frame.finished.Some? {
      PatchedFinished(z, |body|);
    }
  }

  /** The code of a closed group, from its parts. */
  lemma CloseGroupCode(z: CodeZip, inner: nat)
    requires z.CodeIn?
    ensures var choice := FrameChoice(z.frame);
      var dummy := if choice.Or? then [PUSH_DUMMY_FAILURE] else [];
      ZipCode(CloseGroup(z, inner)) ==
        ZipCode(z.outer) + MemoryCode(START_MEMORY, z.reg, inner) + (ChoiceCode(choice) + dummy)
        + MemoryCode(STOP_MEMORY, z.reg, inner)
  {
    hide ZipCode, ChoiceCode, PrefixCode;
    var choice := FrameChoice(z.frame);
    var outer, start, stop := ZipCode(z.outer), MemoryCode(START_MEMORY, z.reg, inner),
      MemoryCode(STOP_MEMORY, z.reg, inner);
    var body, dummy := ChoiceCode(choice), if choice.Or? then [PUSH_DUMMY_FAILURE] else [];
    AddNodeCode(z.outer, Grouped(z.reg, inner, choice));
    Associative(body, dummy, stop);
    Associative(start, body + dummy, stop);
    Associative(outer, start + (body + dummy), stop);
    Associative(outer, start, body + dummy);
  }

  // ----- what the moves do to what has been parsed -----

  lemma {:induction false} HasNodeExpand(ns: Nodes)
    requires NodesOk(ns)
    ensures HasAtom(Expand(ns)) == HasNode(ns)
  {
    if ns.Add? {
      HasNodeExpand(ns.init);
      if ns.last.Text? {
        assert ns.last.chars != [];
      } else if ns.last.Repeated? {
        assert PieceOf(ns.last).Rep?;
      }
    }
  }

  lemma ExpandWithNodes(z: CodeZip, ns: Nodes)
    ensures ExpandZip(WithNodes(z, ns)) == WithBranch(ExpandZip(z), Expand(ns))
  {
  }

  lemma ExpandAdd(z: CodeZip, n: Node)
    requires !n.Text?
    ensures ExpandZip(AddNode(z, n)) == AddPiece(ExpandZip(z), PieceOf(n))
  {
    ExpandWithNodes(z, Add(z.frame.nodes, n));
    assert Expand(Add(z.frame.nodes, n)) == ExpandNode(Expand(z.frame.nodes), n);
  }

  /** A character joins the branch whether it starts a new `exactn` or extends the last. */
  lemma ExpandChar(z: CodeZip, init: Nodes, chars: seq<TextChar>, c: TextChar)
    requires if chars == [] then z.frame.nodes == init else z.frame.nodes == Add(init, Text(chars))
    ensures ExpandZip(WithNodes(z, Add(init, Text(chars + [c])))) ==
      AddPiece(ExpandZip(z), Ere.Once(Ere.Chr(c.c, c.escaped)))
  {
    var ns := Add(init, Text(chars + [c]));
    var b := Expand(init);
    ExpandWithNodes(z, ns);
    assert (chars + [c])[..|chars|] == chars;
    assert Expand(ns) == AddChars(b, chars + [c]) == Ere.Snoc(AddChars(b, chars), Ere.Once(Ere.Chr(c.c, c.escaped)));
    assert Expand(z.frame.nodes) == AddChars(b, chars);
  }

  lemma ExpandNext(z: CodeZip, hole: seq<byte>)
    ensures ExpandZip(NextAlternative(z, hole)) == NextBranch(ExpandZip(z))
  {
  }

  lemma ExpandClose(z: CodeZip, inner: nat)
    requires z.CodeIn?
    ensures ExpandZip(CloseGroup(z, inner)) ==
      AddPiece(ExpandZip(z.outer), Ere.Once(Ere.Group(FrameAlts(ExpandFrame(z.frame)))))
  {
    ExpandAdd(z.outer, Grouped(z.reg, inner, FrameChoice(z.frame)));
    assert ExpandChoice(FrameChoice(z.frame)) == FrameAlts(ExpandFrame(z.frame));
  }

  lemma ExpandRepeated(z: CodeZip, ops: seq<Ere.Op>)
    requires z.frame.nodes.Add? && Repeatable(z.frame.nodes.last)
    requires z.frame.nodes.last.Text? ==> z.frame.nodes.last.chars != []
    ensures var Add(init, last) := z.frame.nodes;
      && Expand(z.frame.nodes) == Ere.Snoc(Expand(init), PieceOf(last))
      && ExpandZip(WithNodes(z, Add(init, Repeated(last, ops)))) ==
         WithBranch(ExpandZip(z), Ere.Snoc(Expand(init), Ere.RepAll(PieceOf(last), ops)))
  {
    var Add(init, last) := z.frame.nodes;
    ExpandWithNodes(z, Add(init, Repeated(last, ops)));
    assert PieceOf(Repeated(last, ops)) == Ere.RepAll(PieceOf(last), ops);
    if last.Text? {
      assert last.chars[..0] == [];
      assert AddChars(Expand(init), last.chars) == Ere.Snoc(AddChars(Expand(init), []), PieceOf(last));
    }
  }
}
