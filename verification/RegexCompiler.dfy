/** The one-pass compiler: it appends to a growing buffer, opens gaps in what it has already
    written, and fills in jumps whose targets were not yet known. */
module RegexCompiler {
  import opened Bitmap
  import opened Bytecode
  import opened Bytes
  import opened CodeMeaning
  import opened CodeTree
  import opened CompilerState
  import opened Ere
  import opened EreParser
  import opened Numbering

  const INIT_BUF_SIZE := 32
  const MAX_BUF_SIZE := 65536

  /** A null pointer into the buffer. */
  const NULL := -1

  /** Room the largest single request may ask for: a bracket expression's opcode, length and map. */
  const LARGEST_REQUEST := 34

  /** No more code than this for each character: the shortest bracket expression has three, and two bytes
      before its map. */
  const MOST_PER_CHARACTER := 12

  /** A pattern that short cannot fill the buffer. */
  const ALWAYS_FITS := 5455

  /** What an open parenthesis saves until its match. */
  datatype Saved = Saved(begalt: nat, fixup: int, innerGroup: nat, laststart: nat, regnum: nat)

  datatype Status = Going | Rejected(error: Error) | Unsupported

  // ----- the pointers, as read off the code -----

  /** Start of the last expression, for a repetition operator. `^` and `$` do not count. */
  ghost predicate LaststartOk(z: CodeZip, laststart: int) {
    var ns := z.frame.nodes;
    if !HasNode(ns) then laststart == NULL
    else ns.last != Simple(Bol) && (ns.last != Simple(Eol) ==> 0 <= laststart == |ZipCode(z)| - |NodeCode(ns.last)|)
  }

  ghost predicate EndsWithText(z: CodeZip, pending: int) {
    z.frame.nodes.Add? && z.frame.nodes.last.Text? && pending == |ZipCode(z)| - |z.frame.nodes.last.chars| - 1
  }

  /** The count byte of an `exactn`: either the last node's, or of one that ended earlier. */
  ghost predicate PendingOk(z: CodeZip, pending: int) {
    pending == NULL
    || (0 <= pending < |ZipCode(z)|
        && (EndsWithText(z, pending) || pending + ZipCode(z)[pending] + 1 < |ZipCode(z)|))
  }

  ghost predicate StackOk(z: CodeZip, stack: seq<Saved>, regnum: nat) {
    if z.CodeTop? then stack == []
    else
      && stack != []
      && var top := stack[|stack| - 1];
      && top.begalt == |PrefixCode(z.outer)| && top.fixup == FixupOf(z.outer)
      && top.laststart == |ZipCode(z.outer)| && top.regnum == z.reg <= regnum
      && (z.reg <= MAX_REGNUM ==> top.innerGroup == |ZipCode(z.outer)| + 2)
      && StackOk(z.outer, stack[..|stack| - 1], regnum)
  }

  ghost predicate PointersOk(z: CodeZip, begalt: nat, fixup: int, laststart: int, pending: int,
                             stack: seq<Saved>, regnum: nat) {
    && ZipOk(z) && begalt == |PrefixCode(z)| && fixup == FixupOf(z)
    && LaststartOk(z, laststart) && PendingOk(z, pending) && StackOk(z, stack, regnum) && Counted(z, regnum)
  }

  ghost predicate EndsWithDollar(z: CodeZip) {
    z.frame.nodes.Add? && z.frame.nodes.last == Simple(Eol)
  }

  /** Appending a node keeps the pointers in order. */
  lemma AddNodePointers(z: CodeZip, n: Node, begalt: nat, fixup: int, laststart: int, pending: int,
                        stack: seq<Saved>, regnum: nat, laststart': int, pending': int)
    requires PointersOk(z, begalt, fixup, laststart, pending, stack, regnum)
    requires NodeOk(n) && (n.Text? || n.Simple? || n.Set?)
    requires laststart' == if n == Simple(Bol) || n == Simple(Eol) then laststart else |ZipCode(z)|
    requires n == Simple(Bol) ==> laststart == NULL && !EndsWithDollar(z)
    requires pending' == NULL || (pending' == pending && NodeCode(n) != [])
          || (n.Text? && pending' == |ZipCode(z)| + 1)
    ensures ZipCode(AddNode(z, n)) == ZipCode(z) + NodeCode(n)
    ensures PointersOk(AddNode(z, n), begalt, fixup, laststart', pending', stack, regnum)
  {
    hide ZipCode, PrefixCode, Counted;
    AddNodeCode(z, n);
    CountedAdd(z, n, regnum);
    WithNodesOk(z, Add(z.frame.nodes, n));
    SameStack(z, AddNode(z, n), stack, regnum);
    if pending' == pending != NULL {
      PendingCount(z, begalt, fixup, laststart, pending, stack, regnum);
    }
  }

  /** Extending the last `exactn` keeps the pointers in order. */
  lemma AddCharPointers(z: CodeZip, c: TextChar, begalt: nat, fixup: int, laststart: int, pending: int,
                        stack: seq<Saved>, regnum: nat)
    requires PointersOk(z, begalt, fixup, laststart, pending, stack, regnum)
    requires EndsWithText(z, pending) && |z.frame.nodes.last.chars| < 255
    ensures 0 <= pending < |ZipCode(z)| && 1 <= ZipCode(z)[pending] == |z.frame.nodes.last.chars|
    ensures ZipCode(AddChar(z, c)) == ZipCode(z)[pending := ZipCode(z)[pending] + 1] + [c.c]
    ensures PointersOk(AddChar(z, c), begalt, fixup, laststart, pending, stack, regnum)
  {
    hide ZipCode, PrefixCode, StackOk, FixupOf, NodesCode, Counted;
    var Add(init, Text(chars)) := z.frame.nodes;
    CountedText(z, chars + [c], regnum);
    assert NodeOk(Text(chars));
    ReplaceText(z, init, chars, c);
    WithNodesOk(z, Add(init, Text(chars + [c])));
    SameStack(z, AddChar(z, c), stack, regnum);
    TextEnd(z, AddChar(z, c), laststart, pending);
  }

  function AddChar(z: CodeZip, c: TextChar): CodeZip
    requires z.frame.nodes.Add? && z.frame.nodes.last.Text?
  {
    WithNodes(z, Add(z.frame.nodes.init, Text(z.frame.nodes.last.chars + [c])))
  }

  lemma TextEnd(z: CodeZip, z': CodeZip, laststart: int, pending: int)
    requires LaststartOk(z, laststart) && EndsWithText(z, pending) && 0 <= pending < |ZipCode(z)|
    requires z'.frame.nodes.Add? && z'.frame.nodes.last.Text?
    requires |z'.frame.nodes.last.chars| == |z.frame.nodes.last.chars| + 1
    requires |ZipCode(z')| == |ZipCode(z)| + 1
    ensures LaststartOk(z', laststart) && PendingOk(z', pending)
  {
  }

  lemma NextAlternativePointers(z: CodeZip, hole: seq<byte>, begalt: nat, fixup: int, laststart: int, pending: int,
                                stack: seq<Saved>, regnum: nat)
    requires PointersOk(z, begalt, fixup, laststart, pending, stack, regnum) && |hole| == 3
    ensures var z' := NextAlternative(z, hole);
      var n := |ZipCode(z')|;
      n >= 3 && PointersOk(z', n, n - 3, NULL, NULL, stack, regnum)
  {
    hide ZipCode, PrefixCode, Counted;
    NextAlternativeCode(z, hole);
    CountedNext(z, hole, regnum);
    SameStack(z, NextAlternative(z, hole), stack, regnum);
  }

  lemma OpenGroupPointers(z: CodeZip, reg: nat, begalt: nat, fixup: int, laststart: int, pending: int,
                          stack: seq<Saved>, regnum: nat, innerGroup: nat)
    requires PointersOk(z, begalt, fixup, laststart, pending, stack, regnum) && reg == regnum + 1
    requires reg <= MAX_REGNUM ==> innerGroup == |ZipCode(z)| + 2
    ensures ZipCode(OpenGroup(z, reg)) == ZipCode(z) + MemoryCode(START_MEMORY, reg, 0)
    ensures PointersOk(OpenGroup(z, reg), |ZipCode(OpenGroup(z, reg))|, NULL, NULL, NULL,
                       stack + [Saved(begalt, fixup, innerGroup, |ZipCode(z)|, reg)], reg)
  {
    hide ZipCode, PrefixCode, Counted;
    OpenGroupCode(z, reg);
    CountedOpen(z, regnum);
    StackOkMonotone(z, stack, regnum, reg);
    var saved := Saved(begalt, fixup, innerGroup, |ZipCode(z)|, reg);
    assert (stack + [saved])[..|stack|] == stack;
  }

  lemma CloseGroupPointers(z: CodeZip, inner: nat, begalt: nat, fixup: int, laststart: int, pending: int,
                           stack: seq<Saved>, regnum: nat)
    requires PointersOk(z, begalt, fixup, laststart, pending, stack, regnum) && z.CodeIn? && inner == regnum - z.reg
    ensures var top := stack[|stack| - 1];
      PointersOk(CloseGroup(z, inner), top.begalt, top.fixup, top.laststart, NULL, stack[..|stack| - 1], regnum)
  {
    hide ZipCode, PrefixCode, Counted;
    CountedClose(z, regnum);
    var n := Grouped(z.reg, inner, FrameChoice(z.frame));
    AddNodeCode(z.outer, n);
    assert NodeOk(n);
    WithNodesOk(z.outer, Add(z.outer.frame.nodes, n));
    SameStack(z.outer, CloseGroup(z, inner), stack[..|stack| - 1], regnum);
  }

  lemma PendingCount(z: CodeZip, begalt: nat, fixup: int, laststart: int, pending: int,
                     stack: seq<Saved>, regnum: nat)
    requires PointersOk(z, begalt, fixup, laststart, pending, stack, regnum)
    requires pending != NULL
    ensures 0 <= pending < |ZipCode(z)|
    ensures EndsWithText(z, pending) <==> pending + ZipCode(z)[pending] + 1 == |ZipCode(z)|
    ensures EndsWithText(z, pending) ==> |z.frame.nodes.last.chars| == ZipCode(z)[pending]
  {
    hide ZipCode, PrefixCode;
    if EndsWithText(z, pending) {
      var Add(init, Text(chars)) := z.frame.nodes;
      assert NodeOk(Text(chars));
      WithNodesCode(z, z.frame.nodes);
      assert WithNodes(z, z.frame.nodes) == z;
      Associative(PrefixCode(z), NodesCode(init), NodeCode(Text(chars)));
      assert ZipCode(z)[pending] == NodeCode(Text(chars))[1];
    }
  }

  lemma StackFacts(z: CodeZip, begalt: nat, fixup: int, laststart: int, pending: int,
                   stack: seq<Saved>, regnum: nat)
    requires PointersOk(z, begalt, fixup, laststart, pending, stack, regnum)
    ensures stack == [] <==> z.CodeTop?
    ensures z.CodeIn? ==>
      var top := stack[|stack| - 1];
      && top.regnum == z.reg <= regnum
      && (z.reg <= MAX_REGNUM ==> top.innerGroup == |ZipCode(z.outer)| + 2)
  {
  }

  lemma RepeatedPointers(z: CodeZip, ops: seq<Op>, begalt: nat, fixup: int, laststart: int, pending: int,
                         stack: seq<Saved>, regnum: nat)
    requires PointersOk(z, begalt, fixup, laststart, pending, stack, regnum)
    requires HasNode(z.frame.nodes) && Repeatable(z.frame.nodes.last) && ops != []
    ensures var Add(init, last) := z.frame.nodes;
      var z' := WithNodes(z, Add(init, Repeated(last, ops)));
      && 0 <= laststart == |ZipCode(z)| - |NodeCode(last)| && ZipCode(z)[laststart..] == NodeCode(last)
      && ZipCode(z') == ZipCode(z)[..laststart] + NodeCode(Repeated(last, ops))
      && PointersOk(z', begalt, fixup, laststart, NULL, stack, regnum)
  {
    hide ZipCode, PrefixCode, NodeCode, Counted;
    var Add(init, last) := z.frame.nodes;
    CountedRepeated(z, ops, regnum);
    ReplaceLast(z, Repeated(last, ops));
    assert NodeOk(Repeated(last, ops));
    WithNodesOk(z, Add(init, Repeated(last, ops)));
    SameStack(z, WithNodes(z, Add(init, Repeated(last, ops))), stack, regnum);
  }

  /** The characters from `start` on are the operators `ops`. */
  predicate RunAt(pattern: Text, start: nat, ops: seq<Op>) {
    start + |ops| <= |pattern|
    && forall x :: start <= x < start + |ops| ==> IsOp(pattern[x]) && OpOf(pattern[x]) == ops[x - start]
  }

  /** Parsing a run of operators wraps the last piece in each of them. */
  lemma {:induction false} ParseRun(pattern: Text, start: nat, z: Zip, ops: seq<Op>)
    requires ops != [] && RunAt(pattern, start, ops) && HasAtom(z.frame.branch)
    ensures var q := start + |ops|;
      var Snoc(init, last) := z.frame.branch;
      ParseFrom(pattern, start, z) ==
        if DotStarNewline(pattern, q - 1) then OutOfFragment
        else ParseFrom(pattern, q, WithBranch(z, Snoc(init, RepAll(last, ops))))
    decreases |ops|
  {
    var q := start + |ops|;
    var Snoc(init, last) := z.frame.branch;
    var front, op := ops[..|ops| - 1], ops[|ops| - 1];
    if front == [] {
      assert ops == [op] && RepAll(last, ops) == Rep(RepAll(last, []), op);
      assert Lex(pattern, start) == Lexed(Repeat(op), q);
    } else {
      ParseRun(pattern, start, z, front);
      assert Peek(pattern, q - 1) != NEWLINE;
      var z' := WithBranch(z, Snoc(init, RepAll(last, front)));
      assert RepAll(last, front).Rep?;
      assert Lex(pattern, q - 1) == Lexed(Repeat(op), q);
    }
  }

  lemma LaststartFacts(z: CodeZip, begalt: nat, fixup: int, laststart: int, pending: int,
                       stack: seq<Saved>, regnum: nat)
    requires PointersOk(z, begalt, fixup, laststart, pending, stack, regnum)
    ensures HasAtom(ExpandZip(z).frame.branch) == HasNode(z.frame.nodes)
    ensures !EndsWithDollar(z) ==> (laststart != NULL <==> HasNode(z.frame.nodes))
    ensures z.frame.nodes.Add? && z.frame.nodes.last.Text? ==> z.frame.nodes.last.chars != []
  {
    HasNodeExpand(z.frame.nodes);
    if z.frame.nodes.Add? {
      assert NodeOk(z.frame.nodes.last);
    }
  }

  lemma FrameFacts(z: CodeZip, begalt: nat, fixup: int, laststart: int, pending: int,
                   stack: seq<Saved>, regnum: nat)
    requires PointersOk(z, begalt, fixup, laststart, pending, stack, regnum)
    ensures ChoiceOk(FrameChoice(z.frame)) && ExpandChoice(FrameChoice(z.frame)) == FrameAlts(ExpandFrame(z.frame))
    ensures z.CodeTop? ==> ChoiceNumbered(FrameChoice(z.frame), 0)
  {
    if z.CodeTop? {
      CountedTree(z, regnum);
    }
  }

  /** What the pointers say without looking inside the code. */
  lemma PointersFacts(z: CodeZip, begalt: nat, fixup: int, laststart: int, pending: int,
                      stack: seq<Saved>, regnum: nat)
    requires PointersOk(z, begalt, fixup, laststart, pending, stack, regnum)
    ensures begalt == |PrefixCode(z)| && ZipCode(z) == PrefixCode(z) + NodesCode(z.frame.nodes)
    ensures if z.frame.finished.Some? then |z.frame.hole| == 3 && 0 <= fixup == begalt - 3 else fixup == NULL
  {
    if z.frame.finished.Some? {
      PrefixEnds(z);
    }
  }

  /** The saved pointers do not depend on the current branch. */
  lemma SameStack(z: CodeZip, z': CodeZip, stack: seq<Saved>, regnum: nat)
    requires StackOk(z, stack, regnum) && (z.CodeIn? <==> z'.CodeIn?)
    requires z.CodeIn? ==> z.outer == z'.outer && z.reg == z'.reg
    ensures StackOk(z', stack, regnum)
  {
  }

  lemma {:induction false} StackOkMonotone(z: CodeZip, stack: seq<Saved>, regnum: nat, more: nat)
    requires StackOk(z, stack, regnum) && regnum <= more
    ensures StackOk(z, stack, more)
  {
    if z.CodeIn? {
      StackOkMonotone(z.outer, stack[..|stack| - 1], regnum, more);
    }
  }

  /** An operator can only follow something it applies to, and `$` ends its branch. */
  ghost predicate NextOk(pattern: Text, p: nat, ns: Nodes) {
    && (OpAt(pattern, p) && HasNode(ns) ==> Repeatable(ns.last))
    && (ns.Add? && ns.last == Simple(Eol) ==> p >= |pattern| || pattern[p] == RPAREN || pattern[p] == BAR)
  }

  class Compiler {
    const pattern: Text
    var buffer: array<byte>
    var b: nat
    var p: nat
    var begalt: nat
    var laststart: int
    var fixup: int
    var pendingExact: int
    var regnum: nat
    var stack: seq<Saved>

    ghost var zip: CodeZip

    constructor (pattern: Text)
      ensures this.pattern == pattern && fresh(buffer) && p == 0 && zip == CODE_START && Consistent()
    {
      this.pattern := pattern;
      buffer := new byte[INIT_BUF_SIZE];
      b, p, begalt, regnum := 0, 0, 0, 0;
      laststart, fixup, pendingExact := NULL, NULL, NULL;
      stack := [];
      zip := CODE_START;
    }

    ghost predicate Room()
      reads this, buffer
    {
      b <= buffer.Length && 0 < buffer.Length <= MAX_BUF_SIZE
    }

    /** The buffer and the pointers into it say what `zip` says. */
    ghost predicate Consistent()
      reads this, buffer
    {
      && Room() && buffer[..b] == ZipCode(zip)
      && PointersOk(zip, begalt, fixup, laststart, pendingExact, stack, regnum)
    }

    ghost predicate Full()
      reads this
    {
      b + LARGEST_REQUEST > MAX_BUF_SIZE
    }

    // ----- the buffer -----

    method GetBufferSpace(n: nat) returns (ok: bool)
      requires Room() && n <= LARGEST_REQUEST
      modifies this`buffer
      ensures Room() && (buffer == old(buffer) || fresh(buffer))
      ensures buffer[..b] == old(buffer[..b])
      ensures ok ==> b + n <= buffer.Length
      ensures old(b + n <= buffer.Length) ==> ok && buffer == old(buffer)
      ensures !ok ==> Full()
    {
      while b + n > buffer.Length
        invariant Room() && (buffer == old(buffer) || fresh(buffer))
        invariant buffer[..b] == old(buffer[..b])
        invariant old(b + n <= buffer.Length) ==> buffer == old(buffer)
        decreases MAX_BUF_SIZE - buffer.Length
      {
        if buffer.Length == MAX_BUF_SIZE {
          return false;
        }
        var size := buffer.Length * 2;
        if size > MAX_BUF_SIZE {
          size := MAX_BUF_SIZE;
        }
        var larger := new byte[size];
        forall i | 0 <= i < buffer.Length {
          larger[i] := buffer[i];
        }
        assert larger[..b] == buffer[..b];
        buffer := larger;
      }
      ok := true;
    }

    method BufPush(s: seq<byte>) returns (ok: bool)
      requires Room() && |s| <= LARGEST_REQUEST
      modifies this`buffer, this`b, buffer
      ensures Room() && (buffer == old(buffer) || fresh(buffer))
      ensures ok ==> b == old(b) + |s| && buffer[..b] == old(buffer[..b]) + s
      ensures old(b + |s| <= buffer.Length) ==> ok && buffer == old(buffer)
      ensures !ok ==> Full() && b == old(b)
      ensures b <= old(b) + |s|
    {
      ok := GetBufferSpace(|s|);
      if ok {
        for k := 0 to |s|
          invariant b == old(b) && b + |s| <= buffer.Length
          invariant Room() && (buffer == old(buffer) || fresh(buffer))
          invariant old(b + |s| <= buffer.Length) ==> buffer == old(buffer)
          invariant buffer[..b + k] == old(buffer[..b]) + s[..k]
        {
          buffer[b + k] := s[k];
        }
        b := b + |s|;
      }
    }

    method StoreJump(op: byte, loc: nat, to: int)
      requires loc + 3 <= buffer.Length
      modifies buffer
      ensures buffer[..] == old(buffer[..loc]) + JumpCode(op, to - loc - 3) + old(buffer[loc + 3..])
    {
      var number := NumberBytes(to - loc - 3);
      buffer[loc] := op;
      buffer[loc + 1] := number[0];
      buffer[loc + 2] := number[1];
    }

    /** Moves the bytes from `loc` on three places up and stores a jump in the gap. */
    method InsertJump(op: byte, loc: nat, to: int)
      requires loc <= b && b + 3 <= buffer.Length
      modifies buffer
      ensures buffer[..b + 3] == old(buffer[..loc]) + JumpCode(op, to - loc - 3) + old(buffer[loc..b])
    {
      var from := b;
      while from != loc
        invariant loc <= from <= b
        invariant buffer[..from] == old(buffer[..from])
        invariant buffer[from + 3..b + 3] == old(buffer[from..b])
      {
        from := from - 1;
        buffer[from + 3] := buffer[from];
      }
      StoreJump(op, loc, to);
    }

    /** Asks for room and inserts a jump between the two parts of the code. */
    method InsertBetween(op: byte, loc: nat, to: int, ghost front: seq<byte>, ghost body: seq<byte>) returns (ok: bool)
      requires Room() && loc == |front| && buffer[..b] == front + body
      modifies this`buffer, this`b, buffer
      ensures Room() && (buffer == old(buffer) || fresh(buffer))
      ensures ok ==> b == old(b) + 3 && buffer[..b] == front + (JumpCode(op, to - loc - 3) + body)
      ensures !ok ==> Full()
      ensures b <= old(b) + 3
    {
      ok := GetBufferSpace(3);
      if ok {
        assert buffer[..loc] == buffer[..b][..loc] == front;
        assert buffer[loc..b] == buffer[..b][loc..] == body;
        InsertJump(op, loc, to);
        b := b + 3;
      }
    }

    // ----- one node -----

    /** `.`, `^` and `$`; only `.` can be repeated. */
    method PushSimple(atom: Atom) returns (s: Status)
      requires Consistent() && atom in {Dot, Bol, Eol}
      requires atom == Bol ==> laststart == NULL
      requires !EndsWithDollar(zip)
      modifies this`buffer, this`b, this`laststart, this`zip, buffer
      ensures buffer == old(buffer) || fresh(buffer)
      ensures b <= old(b) + 1
      ensures s == Going ==> Consistent() && zip == AddNode(old(zip), Simple(atom))
      ensures s != Going ==> s == Rejected(ESIZE) && Full()
    {
      ghost var before := laststart;
      if atom == Dot {
        laststart := b;
      }
      hide PointersOk;
      var ok := BufPush(SimpleCode(atom));
      if !ok {
        return Rejected(ESIZE);
      }
      AddNodePointers(zip, Simple(atom), begalt, fixup, before, pendingExact, stack, regnum, laststart, pendingExact);
      zip := AddNode(zip, Simple(atom));
      s := Going;
    }

    /** A literal character joins the current `exactn` unless an operator follows it. */
    method NormalChar(c: byte, escaped: bool) returns (s: Status)
      requires Consistent() && p <= |pattern|
      requires !EndsWithDollar(zip)
      modifies this`buffer, this`b, this`laststart, this`pendingExact, this`zip, buffer
      ensures buffer == old(buffer) || fresh(buffer)
      ensures b <= old(b) + 3
      ensures s == Going ==> Consistent() && NextOk(pattern, p, zip.frame.nodes)
      ensures s == Going ==> ExpandZip(zip) == AddPiece(ExpandZip(old(zip)), Once(Chr(c, escaped)))
      ensures s != Going ==> s == Rejected(ESIZE) && Full()
    {
      hide PointersOk, ZipCode, ExpandZip;
      var next := Peek(pattern, p);
      if pendingExact != NULL {
        PendingCount(zip, begalt, fixup, laststart, pendingExact, stack, regnum);
      }
      if pendingExact == NULL || pendingExact + buffer[pendingExact] + 1 != b
         || buffer[pendingExact] == 255
         || next == STAR || next == HAT || next == PLUS || next == QUESTION || next == LBRACE
      {
        s := StartExact(c, escaped);
      } else {
        s := ExtendExact(c, escaped);
      }
    }

    method StartExact(c: byte, escaped: bool) returns (s: Status)
      requires Consistent() && !EndsWithDollar(zip)
      modifies this`buffer, this`b, this`laststart, this`pendingExact, this`zip, buffer
      ensures buffer == old(buffer) || fresh(buffer)
      ensures b <= old(b) + 3
      ensures s == Going ==> Consistent() && zip == AddNode(old(zip), Text([TextChar(c, escaped)]))
      ensures s == Going ==> ExpandZip(zip) == AddPiece(ExpandZip(old(zip)), Once(Chr(c, escaped)))
      ensures s != Going ==> s == Rejected(ESIZE) && Full()
    {
      hide PointersOk, ZipCode, ExpandZip, NodesCode, AddPiece;
      ghost var tc := TextChar(c, escaped);
      ghost var last, pending := laststart, pendingExact;
      laststart := b;
      var ok := BufPush([EXACTN, 0]);
      if !ok {
        return Rejected(ESIZE);
      }
      pendingExact := b - 1;
      ok := BufPush([c]);
      if !ok {
        return Rejected(ESIZE);
      }
      assert buffer[..b] == old(buffer[..b]) + [EXACTN, 0, c];
      buffer[pendingExact] := buffer[pendingExact] + 1;
      assert buffer[..b] == old(buffer[..b]) + [EXACTN, 1, c];
      assert [] + [tc] == [tc] && TextBytes([tc]) == [c] && NodeCode(Text([tc])) == [EXACTN, 1, c];
      AddNodePointers(zip, Text([tc]), begalt, fixup, last, pending, stack, regnum, laststart, pendingExact);
      ExpandChar(zip, zip.frame.nodes, [], tc);
      zip := AddNode(zip, Text([tc]));
      s := Going;
    }

    method ExtendExact(c: byte, escaped: bool) returns (s: Status)
      requires Consistent() && EndsWithText(zip, pendingExact) && |zip.frame.nodes.last.chars| < 255
      modifies this`buffer, this`b, this`zip, buffer
      ensures buffer == old(buffer) || fresh(buffer)
      ensures b <= old(b) + 1
      ensures s == Going ==> Consistent() && zip == AddChar(old(zip), TextChar(c, escaped))
      ensures s == Going ==> ExpandZip(zip) == AddPiece(ExpandZip(old(zip)), Once(Chr(c, escaped)))
      ensures s != Going ==> s == Rejected(ESIZE) && Full()
    {
      hide PointersOk, ZipCode, ExpandZip;
      ghost var tc := TextChar(c, escaped);
      AddCharPointers(zip, tc, begalt, fixup, laststart, pendingExact, stack, regnum);
      var ok := BufPush([c]);
      if !ok {
        return Rejected(ESIZE);
      }
      buffer[pendingExact] := buffer[pendingExact] + 1;
      ExpandChar(zip, zip.frame.nodes.init, zip.frame.nodes.last.chars, tc);
      zip := AddChar(zip, tc);
      s := Going;
    }

    // ----- bracket expressions -----

    /** Sets the bit of one character in the map that starts at `b`. */
    method SetListBit(c: byte, ghost members: set<byte>)
      requires b + MAP_BYTES <= buffer.Length && Represents(buffer[b..b + MAP_BYTES], members)
      modifies buffer
      ensures buffer[..b] == old(buffer[..b])
      ensures Represents(buffer[b..b + MAP_BYTES], members + {c})
    {
      hide Represents;
      SetBit(buffer[b..b + MAP_BYTES], c, members);
      buffer[b + c / 8] := WithBit(buffer[b + c / 8], c % 8, 8);
      assert buffer[b..b + MAP_BYTES] ==
        old(buffer[b..b + MAP_BYTES])[c / 8 := WithBit(old(buffer[b..b + MAP_BYTES])[c / 8], c % 8, 8)];
    }

    /** Reads the end of a range whose start is two characters back, past a hyphen. */
    method CompileRange(ghost members: set<byte>) returns (s: Status)
      requires b + MAP_BYTES <= buffer.Length && Represents(buffer[b..b + MAP_BYTES], members)
      requires 2 <= p <= |pattern|
      modifies this`p, buffer
      ensures buffer[..b] == old(buffer[..b])
      ensures old(p) <= p <= |pattern|
      ensures s == Going ==> old(p) < |pattern| && p == old(p) + 1 && pattern[p - 3] <= pattern[p - 1]
      ensures s == Going ==>
        Represents(buffer[b..b + MAP_BYTES], members + ByteRange(pattern[p - 3], pattern[p - 1]))
      ensures s != Going ==> s == Rejected(ERANGE) && (old(p) == |pattern| || pattern[old(p) - 2] > pattern[old(p)])
    {
      if p == |pattern| {
        return Rejected(ERANGE);
      }
      var lo, hi := pattern[p - 2], pattern[p];
      p := p + 1;
      if lo > hi {
        return Rejected(ERANGE);
      }
      ghost var all := members;
      hide Represents;
      for c: int := lo as int to hi as int + 1
        invariant p == old(p) + 1 && buffer[..b] == old(buffer[..b])
        invariant all == members + set x: byte | x < c && Between(lo, x, hi)
        invariant Represents(buffer[b..b + MAP_BYTES], all)
      {
        SetListBit(c, all);
        all := all + {c};
      }
      assert all == members + ByteRange(lo, hi);
      s := Going;
    }

    /** One character or range of a list, whose first character `c` has been read. */
    method ReadMember(c: byte, ghost first: nat, ghost members: set<byte>) returns (s: Status, ghost more: set<byte>)
      requires b + MAP_BYTES <= buffer.Length && Represents(buffer[b..b + MAP_BYTES], members)
      requires 1 <= first < p <= |pattern| && c == pattern[p - 1] && !(c == RBRACKET && p != first + 1)
      modifies this`p, buffer
      ensures buffer[..b] == old(buffer[..b]) && old(p) <= p <= |pattern|
      ensures s != Rejected(ESIZE)
      ensures s == Going ==> Represents(buffer[b..b + MAP_BYTES], more)
      ensures s == Going ==> MembersFrom(pattern, first, old(p) - 1, members) == MembersFrom(pattern, first, p, more)
      ensures s.Rejected? ==> MembersFrom(pattern, first, old(p) - 1, members) == BadMembers(s.error)
      ensures s.Unsupported? ==> MembersFrom(pattern, first, old(p) - 1, members) == UnmodelledMembers
    {
      hide Represents;
      more := members;
      if c == DASH && !(p >= 2 && pattern[p - 2] == LBRACKET)
         && !(p >= 3 && pattern[p - 3] == LBRACKET && pattern[p - 2] == HAT)
         && Peek(pattern, p) != RBRACKET
      {
        s := CompileRange(members);
        if s == Going {
          more := members + ByteRange(pattern[p - 3], pattern[p - 1]);
        }
      } else if Peek(pattern, p) == DASH && Peek(pattern, p + 1) != RBRACKET {
        p := p + 1;
        s := CompileRange(members);
        if s == Going {
          more := members + ByteRange(pattern[p - 3], pattern[p - 1]);
        }
      } else if c == LBRACKET && Peek(pattern, p) == COLON {
        s := Unsupported;
      } else {
        SetListBit(c, members);
        s, more := Going, members + {c};
      }
    }

    /** The list of a bracket expression, up to its `]`. */
    method ReadMembers(first: nat) returns (s: Status, ghost members: set<byte>)
      requires b + MAP_BYTES <= buffer.Length && Represents(buffer[b..b + MAP_BYTES], {})
      requires 1 <= first == p <= |pattern|
      modifies this`p, buffer
      ensures buffer[..b] == old(buffer[..b]) && first <= p <= |pattern|
      ensures s == Going ==> p >= first + 2
      ensures s != Rejected(ESIZE)
      ensures s == Going ==> MembersFrom(pattern, first, first, {}) == Members(members, p)
      ensures s == Going ==> Represents(buffer[b..b + MAP_BYTES], members)
      ensures s.Rejected? ==> MembersFrom(pattern, first, first, {}) == BadMembers(s.error)
      ensures s.Unsupported? ==> MembersFrom(pattern, first, first, {}) == UnmodelledMembers
    {
      hide Represents;
      members := {};
      while true
        invariant first <= p <= |pattern| && buffer[..b] == old(buffer[..b])
        invariant Represents(buffer[b..b + MAP_BYTES], members)
        invariant MembersFrom(pattern, first, first, {}) == MembersFrom(pattern, first, p, members)
        decreases |pattern| - p
      {
        if p == |pattern| {
          return Rejected(EBRACK), members;
        }
        var c := pattern[p];
        p := p + 1;
        if c == RBRACKET && p != first + 1 {
          return Going, members;
        }
        s, members := ReadMember(c, first, members);
        if s != Going {
          return;
        }
      }
    }

    /** Drops the zero bytes at the end of the map, keeping its length byte up to date, and steps past it. */
    method FinishMap(ghost members: set<byte>) returns (ghost bits: seq<byte>)
      requires 2 <= b && b + MAP_BYTES <= buffer.Length && buffer[b - 1] == MAP_BYTES
      requires Represents(buffer[b..b + MAP_BYTES], members)
      modifies this`b, buffer
      ensures |bits| <= MAP_BYTES && Represents(bits, members) && Trimmed(bits)
      ensures b <= buffer.Length && buffer[..b] == old(buffer[..b - 1]) + ([|bits|] + bits)
    {
      hide Represents;
      while buffer[b - 1] > 0 && buffer[b + buffer[b - 1] - 1] == 0
        invariant b == old(b) && buffer[b - 1] <= MAP_BYTES && buffer[..b - 1] == old(buffer[..b - 1])
        invariant Represents(buffer[b..b + buffer[b - 1]], members)
        decreases buffer[b - 1]
      {
        bits := buffer[b..b + buffer[b - 1]];
        DropZero(bits, members);
        buffer[b - 1] := buffer[b - 1] - 1;
        assert buffer[b..b + buffer[b - 1]] == bits[..|bits| - 1];
      }
      bits := buffer[b..b + buffer[b - 1]];
      b := b + buffer[b - 1];
    }

    /** The opcode, the length of a full map, and the map, all clear. */
    method StartMap(op: byte) returns (ok: bool)
      requires Room()
      modifies this`buffer, this`b, buffer
      ensures Room() && (buffer == old(buffer) || fresh(buffer))
      ensures !ok ==> Full() && b == old(b)
      ensures ok ==> b == old(b) + 2 && buffer[..b] == old(buffer[..b]) + [op, MAP_BYTES]
      ensures ok ==> b + MAP_BYTES <= buffer.Length && Represents(buffer[b..b + MAP_BYTES], {})
    {
      hide Represents;
      ok := GetBufferSpace(LARGEST_REQUEST);
      if ok {
        ok := BufPush([op]);
        ok := BufPush([MAP_BYTES]);
        assert buffer[..b] == old(buffer[..b]) + [op, MAP_BYTES];
        forall k | b <= k < b + MAP_BYTES {
          buffer[k] := 0;
        }
        ghost var clear: seq<byte> := buffer[b..b + MAP_BYTES];
        assert forall k :: 0 <= k < MAP_BYTES ==> clear[k] == buffer[b + k];
        EmptyMap(clear);
        assert buffer[..b] == old(buffer[..b]) + [op, MAP_BYTES];
      }
    }

    /** The code of a list that starts at `p`. */
    method ListCode(op: byte) returns (s: Status, ghost members: set<byte>, ghost bits: seq<byte>)
      requires Room() && 1 <= p <= |pattern|
      modifies this`buffer, this`b, this`p, buffer
      ensures (buffer == old(buffer) || fresh(buffer)) && old(p) <= p <= |pattern|
      ensures b <= old(b) + LARGEST_REQUEST
      ensures (s == Going ==> p >= old(p) + 2) && (s == Rejected(ESIZE) ==> b == old(b))
      ensures s == Going ==> Room() && |bits| <= MAP_BYTES && buffer[..b] == old(buffer[..b]) + ([op, |bits|] + bits)
      ensures s == Going ==> Trimmed(bits)
      ensures s == Going ==>
        Represents(bits, members) && MembersFrom(pattern, old(p), old(p), {}) == Members(members, p)
      ensures s.Rejected? ==>
        (s == Rejected(ESIZE) && Full()) || MembersFrom(pattern, old(p), old(p), {}) == BadMembers(s.error)
      ensures s.Unsupported? ==> MembersFrom(pattern, old(p), old(p), {}) == UnmodelledMembers
    {
      hide Represents, MembersFrom;
      members, bits := {}, [];
      var ok := StartMap(op);
      if !ok {
        return Rejected(ESIZE), members, bits;
      }
      s, members := ReadMembers(p);
      if s == Going {
        assert buffer[b - 1] == buffer[..b][b - 1];
        bits := FinishMap(members);
      }
    }

    /** `[`...`]`: opcode, map length, and the map without its trailing zero bytes. */
    method BracketExpression() returns (s: Status)
      requires Consistent() && !EndsWithDollar(zip)
      requires 1 <= p <= |pattern| && pattern[p - 1] == LBRACKET
      modifies this`buffer, this`b, this`p, this`laststart, this`zip, buffer
      ensures (buffer == old(buffer) || fresh(buffer)) && p <= |pattern|
      ensures s == Going ==> b <= old(b) + LARGEST_REQUEST && p >= old(p) + 2
      ensures s == Rejected(ESIZE) ==> b == old(b)
      ensures s == Going ==> Consistent() && zip.frame.nodes.Add? && zip.frame.nodes.last.Set?
      ensures s == Going ==> zip == AddNode(old(zip), zip.frame.nodes.last)
      ensures s == Going ==> LexBracket(pattern, old(p) - 1) == Lexed(Unit(PieceOf(zip.frame.nodes.last).atom), p)
      ensures s.Rejected? ==> (s == Rejected(ESIZE) && Full()) || LexBracket(pattern, old(p) - 1) == LexError(s.error)
      ensures s.Unsupported? ==> LexBracket(pattern, old(p) - 1) == Unmodelled
    {
      hide PointersOk, ZipCode, Represents, MembersFrom;
      var start := p - 1;
      ghost var last := laststart;
      if p == |pattern| {
        return Rejected(EBRACK);
      }
      laststart := b;
      var negated := pattern[p] == HAT;
      if negated {
        p := p + 1;
      }
      ghost var members, bits;
      s, members, bits := ListCode(if negated then CHARSET_NOT else CHARSET);
      if s == Going {
        ghost var node := Set(pattern[start..p], negated, members, bits);
        AddNodePointers(zip, node, begalt, fixup, last, pendingExact, stack, regnum, laststart, pendingExact);
        zip := AddNode(zip, node);
      }
    }

    // ----- groups and alternatives -----

    method OpenParenthesis() returns (s: Status)
      requires Consistent()
      modifies this`buffer, this`b, this`begalt, this`laststart, this`fixup, this`pendingExact, this`regnum,
               this`stack, this`zip, buffer
      ensures buffer == old(buffer) || fresh(buffer)
      ensures b <= old(b) + 3
      ensures s == Going ==> Consistent() && zip == OpenGroup(old(zip), regnum)
      ensures s != Going ==> s == Rejected(ESIZE) && Full()
    {
      hide PointersOk, ZipCode;
      ghost var before := (begalt, fixup, laststart, pendingExact, stack, regnum);
      regnum := regnum + 1;
      var saved := Saved(begalt, fixup, b + 2, b, regnum);
      if regnum <= MAX_REGNUM {
        var ok := BufPush([START_MEMORY, regnum, 0]);
        if !ok {
          return Rejected(ESIZE);
        }
      }
      stack := stack + [saved];
      fixup, laststart, pendingExact := NULL, NULL, NULL;
      begalt := b;
      OpenGroupPointers(zip, regnum, before.0, before.1, before.2, before.3, before.4, before.5, saved.innerGroup);
      zip := OpenGroup(zip, regnum);
      s := Going;
    }

    /** Puts a fork before the current branch and makes the reserved space before it jump past it. */
    method EndBranch() returns (ok: bool)
      requires Consistent()
      modifies this`buffer, this`b, this`pendingExact, buffer
      ensures Room() && (buffer == old(buffer) || fresh(buffer))
      ensures b <= old(b) + 3
      ensures ok ==> pendingExact == NULL
      ensures var body := NodesCode(zip.frame.nodes);
        ok ==> buffer[..b] == PatchedPrefix(zip, |body| + 3) + (JumpCode(ON_FAILURE_JUMP, |body| + 3) + body)
      ensures !ok ==> Full()
    {
      hide PointersOk, ZipCode, PrefixCode, NodesCode, PatchedPrefix;
      ghost var prefix, body := PrefixCode(zip), NodesCode(zip.frame.nodes);
      PointersFacts(zip, begalt, fixup, laststart, pendingExact, stack, regnum);
      ok := InsertBetween(ON_FAILURE_JUMP, begalt, b + 6, prefix, body);
      if !ok {
        return;
      }
      pendingExact := NULL;
      ghost var rest := JumpCode(ON_FAILURE_JUMP, |body| + 3) + body;
      if fixup != NULL {
        FillFixup(b, rest);
      } else {
        NoHole(zip, |body| + 3);
      }
    }

    method HandleAlternative() returns (s: Status, ghost hole: seq<byte>)
      requires Consistent()
      modifies this`buffer, this`b, this`begalt, this`laststart, this`fixup, this`pendingExact, this`zip, buffer
      ensures buffer == old(buffer) || fresh(buffer)
      ensures b <= old(b) + 6
      ensures s == Going ==> Consistent() && zip == NextAlternative(old(zip), hole)
      ensures s != Going ==> s == Rejected(ESIZE) && Full()
    {
      hide PointersOk, ZipCode, PrefixCode, NodesCode, PatchedPrefix;
      ghost var before := (begalt, fixup, laststart, pendingExact);
      ghost var body := NodesCode(zip.frame.nodes);
      var ok := EndBranch();
      if !ok {
        return Rejected(ESIZE), [];
      }
      fixup := b;
      ok := GetBufferSpace(3);
      if !ok {
        return Rejected(ESIZE), [];
      }
      b := b + 3;
      laststart := NULL;
      begalt := b;
      hole := buffer[b - 3..b];
      ghost var head := JumpCode(ON_FAILURE_JUMP, |body| + 3);
      assert buffer[..b] == PatchedPrefix(zip, |body| + 3) + (head + body) + hole;
      Associative(PatchedPrefix(zip, |body| + 3), head + body, hole);
      Associative(head, body, hole);
      NextAlternativeCode(zip, hole);
      NextAlternativePointers(zip, hole, before.0, before.1, before.2, before.3, stack, regnum);
      zip := NextAlternative(zip, hole);
      s := Going;
    }

    /** Makes the reserved space jump to `to`. */
    method FillFixup(to: nat, ghost rest: seq<byte>)
      requires zip.frame.finished.Some? && |zip.frame.hole| == 3 && fixup == FixupOf(zip)
      requires b <= buffer.Length && buffer[..b] == PrefixCode(zip) + rest
      modifies buffer
      ensures buffer[..b] == PatchedPrefix(zip, to - fixup - 3) + rest
    {
      hide PrefixCode, PatchedPrefix;
      PatchPrefix(zip, to - fixup - 3, rest);
      StoreJump(JUMP_PAST_ALT, fixup, to);
      assert buffer[..b] ==
        old(buffer[..b])[..fixup] + JumpCode(JUMP_PAST_ALT, to - fixup - 3) + old(buffer[..b])[fixup + 3..];
    }

    /** Ends the alternatives of a group: the last reserved space jumps to a `push_dummy_failure`. */
    method EndAlternatives() returns (ok: bool)
      requires Consistent() && fixup != NULL
      modifies this`buffer, this`b, buffer
      ensures Room() && (buffer == old(buffer) || fresh(buffer))
      ensures b <= old(b) + 1
      ensures ok ==> buffer[..b] == Outside(zip) + ChoiceCode(FrameChoice(zip.frame)) + [PUSH_DUMMY_FAILURE]
      ensures !ok ==> Full()
    {
      hide PointersOk, ZipCode, PrefixCode, NodesCode, PatchedPrefix, ChoiceCode;
      ghost var body := NodesCode(zip.frame.nodes);
      PointersFacts(zip, begalt, fixup, laststart, pendingExact, stack, regnum);
      ok := BufPush([PUSH_DUMMY_FAILURE]);
      if ok {
        Associative(PrefixCode(zip), body, [PUSH_DUMMY_FAILURE]);
        FillFixup(b - 1, body + [PUSH_DUMMY_FAILURE]);
        InnerCode(zip);
        Associative(PatchedPrefix(zip, |body|), body, [PUSH_DUMMY_FAILURE]);
      }
    }

    /** Ends what is inside a group. */
    method EndInner() returns (ok: bool)
      requires Consistent()
      modifies this`buffer, this`b, buffer
      ensures Room() && (buffer == old(buffer) || fresh(buffer))
      ensures b <= old(b) + 1
      ensures var choice := FrameChoice(zip.frame);
        ok ==> buffer[..b] == Outside(zip) + (ChoiceCode(choice) + (if choice.Or? then [PUSH_DUMMY_FAILURE] else []))
      ensures !ok ==> Full()
    {
      hide PointersOk, ZipCode, PrefixCode, NodesCode, ChoiceCode;
      PointersFacts(zip, begalt, fixup, laststart, pendingExact, stack, regnum);
      InnerCode(zip);
      NoHole(zip, |NodesCode(zip.frame.nodes)|);
      ok := true;
      if fixup != NULL {
        ok := EndAlternatives();
      }
      ghost var code := ChoiceCode(FrameChoice(zip.frame));
      assert code + [] == code;
    }

    /** Records how many groups are inside the one being closed, at both its ends. */
    method CloseMemory(top: Saved, ghost rest: seq<byte>) returns (ok: bool)
      requires Room() && zip.CodeIn? && top.regnum == zip.reg <= regnum
      requires zip.reg <= MAX_REGNUM ==> top.innerGroup == |ZipCode(zip.outer)| + 2
      requires buffer[..b] == ZipCode(zip.outer) + MemoryCode(START_MEMORY, zip.reg, 0) + rest
      modifies this`buffer, this`b, buffer
      ensures Room() && (buffer == old(buffer) || fresh(buffer))
      ensures b <= old(b) + 3
      ensures var inner := regnum - top.regnum;
        ok ==>
          buffer[..b] == ZipCode(zip.outer) + MemoryCode(START_MEMORY, zip.reg, inner) + rest +
            MemoryCode(STOP_MEMORY, zip.reg, inner)
      ensures !ok ==> Full()
    {
      hide ZipCode;
      ok := true;
      if top.regnum <= MAX_REGNUM {
        var inner := regnum - top.regnum;
        buffer[top.innerGroup] := inner % 256;
        assert buffer[..b] == ZipCode(zip.outer) + MemoryCode(START_MEMORY, zip.reg, inner) + rest;
        ok := BufPush([STOP_MEMORY, top.regnum, inner % 256]);
      }
    }

    method CloseParenthesis() returns (s: Status, ghost inner: nat)
      requires Consistent()
      modifies this`buffer, this`b, this`begalt, this`laststart, this`fixup, this`pendingExact
      modifies this`stack, this`zip, buffer
      ensures buffer == old(buffer) || fresh(buffer)
      ensures b <= old(b) + 4
      ensures s == Going ==> Consistent() && old(zip).CodeIn? && zip == CloseGroup(old(zip), inner)
      ensures s != Going ==> (s == Rejected(ESIZE) && Full()) || (s == Rejected(ERPAREN) && old(zip).CodeTop?)
    {
      hide PointersOk, ZipCode, PrefixCode, NodesCode, ChoiceCode, MemoryCode, OpenCode, FixupOf;
      ghost var before := (begalt, fixup, laststart, pendingExact);
      ghost var choice := FrameChoice(zip.frame);
      ghost var dummy := if choice.Or? then [PUSH_DUMMY_FAILURE] else [];
      inner := 0;
      var ok := EndInner();
      if !ok {
        return Rejected(ESIZE), inner;
      }
      StackFacts(zip, before.0, before.1, before.2, before.3, stack, regnum);
      if stack == [] {
        return Rejected(ERPAREN), inner;
      }
      var top := stack[|stack| - 1];
      stack := stack[..|stack| - 1];
      begalt, fixup, laststart, pendingExact := top.begalt, top.fixup, top.laststart, NULL;
      inner := regnum - top.regnum;
      CloseGroupPointers(zip, inner, before.0, before.1, before.2, before.3, old(stack), regnum);
      CloseGroupCode(zip, inner);
      ok := CloseMemory(top, ChoiceCode(choice) + dummy);
      if !ok {
        return Rejected(ESIZE), inner;
      }
      zip := CloseGroup(zip, inner);
      s := Going;
    }

    // ----- repetition -----

    /** Reads on to the end of a run of operators, collapsing it to the one it amounts to. */
    method ReadRun(first: byte) returns (zero: bool, many: bool, ghost ops: seq<Op>)
      requires 1 <= p <= |pattern| && pattern[p - 1] == first && IsOp(first)
      modifies this`p
      ensures ops != [] && old(p) <= p == old(p) - 1 + |ops| <= |pattern| && RunAt(pattern, old(p) - 1, ops)
      ensures !OpAt(pattern, p) && zero == ZeroOk(ops) && many == ManyOk(ops)
    {
      var c := first;
      zero, many := c != PLUS, c != QUESTION;
      ops := [OpOf(c)];
      assert ops[0] == OpOf(c);
      while p < |pattern| && IsOp(pattern[p])
        invariant old(p) <= p == old(p) - 1 + |ops| <= |pattern| && RunAt(pattern, old(p) - 1, ops)
        invariant ops != [] && zero == ZeroOk(ops) && many == ManyOk(ops)
      {
        c := pattern[p];
        p := p + 1;
        zero, many := zero || c != PLUS, many || c != QUESTION;
        ghost var more := ops + [OpOf(c)];
        assert more[..|more| - 1] == ops;
        RunFlags(more);
        ops := more;
      }
    }

    /** Appends the jump from the end of a loop back to the fork about to be put at its start. */
    method AppendJumpBack() returns (ok: bool)
      requires Room()
      modifies this`buffer, this`b, buffer
      ensures Room() && (buffer == old(buffer) || fresh(buffer))
      ensures b <= old(b) + 3
      ensures ok ==> buffer[..b] == old(buffer[..b]) + JumpCode(MAYBE_POP_JUMP, laststart - old(b) - 6)
      ensures !ok ==> Full()
    {
      ok := GetBufferSpace(3);
      if ok {
        StoreJump(MAYBE_POP_JUMP, b, laststart - 3);
        b := b + 3;
      }
    }

    /** Wraps the last expression in the code of a repetition, in place. */
    method InsertLoop(zero: bool, many: bool, ghost front: seq<byte>, ghost body: seq<byte>) returns (ok: bool)
      requires Room() && 0 <= laststart == |front| && buffer[..b] == front + body && (zero || many)
      modifies this`buffer, this`b, this`pendingExact, buffer
      ensures Room() && (buffer == old(buffer) || fresh(buffer))
      ensures b <= old(b) + 9
      ensures ok ==> buffer[..b] == front + RepeatCode(body, zero, many) && pendingExact == NULL
      ensures !ok ==> Full()
    {
      ghost var tail := body;
      if many {
        ok := AppendJumpBack();
        if !ok {
          return;
        }
        tail := body + JumpCode(MAYBE_POP_JUMP, -|body| - 6);
        Associative(front, body, JumpCode(MAYBE_POP_JUMP, -|body| - 6));
      }
      ok := InsertBetween(ON_FAILURE_JUMP, laststart, b + 3, front, tail);
      if !ok {
        return;
      }
      pendingExact := NULL;
      if !zero {
        ok := InsertBetween(DUMMY_FAILURE_JUMP, laststart, laststart + 6, front,
          JumpCode(ON_FAILURE_JUMP, |tail|) + tail);
      }
    }

    method Repetition(first: byte) returns (s: Status, ghost ops: seq<Op>)
      requires Consistent() && HasNode(zip.frame.nodes) && Repeatable(zip.frame.nodes.last)
      requires 1 <= p <= |pattern| && pattern[p - 1] == first && IsOp(first)
      modifies this`buffer, this`b, this`p, this`pendingExact, this`zip, buffer
      ensures (buffer == old(buffer) || fresh(buffer)) && p <= |pattern|
      ensures b <= old(b) + 9
      ensures ops != [] && p == old(p) - 1 + |ops| && RunAt(pattern, old(p) - 1, ops) && !OpAt(pattern, p)
      ensures s == Going ==> Consistent() && !DotStarNewline(pattern, p - 1)
      ensures s == Going ==> var Add(init, last) := old(zip).frame.nodes;
        zip == WithNodes(old(zip), Add(init, Repeated(last, ops)))
      ensures s.Rejected? ==> s == Rejected(ESIZE) && Full()
      ensures s.Unsupported? ==> DotStarNewline(pattern, p - 1)
    {
      hide PointersOk, ZipCode, RepeatCode, NodeCode;
      var zero, many;
      zero, many, ops := ReadRun(first);
      if many && zero && p >= 2 && pattern[p - 2] == DOT && p < |pattern| && pattern[p] == NEWLINE {
        DotRun(pattern, p - |ops|, ops);
        return Unsupported, ops;
      }
      RunAllows(ops);
      NoDotRun(pattern, p - |ops|, ops);
      ghost var Add(init, last) := zip.frame.nodes;
      RepeatedPointers(zip, ops, begalt, fixup, laststart, pendingExact, stack, regnum);
      RepeatedCode(last, ops);
      var ok := InsertLoop(zero, many, ZipCode(zip)[..laststart], NodeCode(last));
      if !ok {
        return Rejected(ESIZE), ops;
      }
      zip := WithNodes(zip, Add(init, Repeated(last, ops)));
      s := Going;
    }

    // ----- the whole pattern -----

    /** What holds between two tokens: what has been compiled is what has been parsed. */
    ghost predicate Reading()
      reads this, buffer
    {
      && Consistent() && p <= |pattern| && NextOk(pattern, p, zip.frame.nodes)
      && Parse(pattern) == ParseFrom(pattern, p, ExpandZip(zip))
      && b <= MOST_PER_CHARACTER * p
    }

    /** A failure is the parser's, or the pattern is long. */
    ghost predicate Explains(s: Status)
    {
      match s
      case Going => true
      case Rejected(e) => (e == ESIZE && |pattern| > ALWAYS_FITS) || Parse(pattern) == Failed(e)
      case Unsupported => Parse(pattern) == OutOfFragment
    }

    method Anchor(atom: Atom) returns (s: Status)
      requires p < |pattern| && Reading() && atom in {Bol, Eol}
      requires Lex(pattern, p) == Lexed(Unit(atom), p + 1)
      modifies this, buffer
      ensures (buffer == old(buffer) || fresh(buffer)) && Explains(s)
      ensures s == Going ==> Reading() && p > old(p)
    {
      hide PointersOk, ZipCode;
      LaststartFacts(zip, begalt, fixup, laststart, pendingExact, stack, regnum);
      if atom == Bol && laststart != NULL {
        return Unsupported;
      }
      p := p + 1;
      s := PushSimple(atom);
      ExpandAdd(old(zip), Simple(atom));
    }

    method Operator() returns (s: Status)
      requires p < |pattern| && Reading() && IsOp(pattern[p])
      modifies this, buffer
      ensures (buffer == old(buffer) || fresh(buffer)) && Explains(s)
      ensures s == Going ==> Reading() && p > old(p)
    {
      hide PointersOk, ZipCode, RunAt, DotStarNewline, RepAll, NodeCode;
      LaststartFacts(zip, begalt, fixup, laststart, pendingExact, stack, regnum);
      if laststart == NULL {
        return Rejected(BADRPT);
      }
      var c := pattern[p];
      p := p + 1;
      ghost var ops;
      s, ops := Repetition(c);
      ParseRun(pattern, old(p), ExpandZip(old(zip)), ops);
      ExpandRepeated(old(zip), ops);
    }

    method Literal(c: byte, escaped: bool, length: nat) returns (s: Status)
      requires p + length <= |pattern| && length > 0 && Reading()
      requires Lex(pattern, p) == Lexed(Unit(Chr(c, escaped)), p + length)
      modifies this, buffer
      ensures (buffer == old(buffer) || fresh(buffer)) && Explains(s)
      ensures s == Going ==> Reading() && p > old(p)
    {
      hide PointersOk, ZipCode;
      p := p + length;
      s := NormalChar(c, escaped);
    }

    method AnyCharacter() returns (s: Status)
      requires p < |pattern| && Reading() && Lex(pattern, p) == Lexed(Unit(Dot), p + 1)
      modifies this, buffer
      ensures (buffer == old(buffer) || fresh(buffer)) && Explains(s)
      ensures s == Going ==> Reading() && p > old(p)
    {
      hide PointersOk, ZipCode;
      p := p + 1;
      s := PushSimple(Dot);
      ExpandAdd(old(zip), Simple(Dot));
    }

    method Bracketed() returns (s: Status)
      requires p < |pattern| && Reading() && pattern[p] == LBRACKET
      modifies this, buffer
      ensures (buffer == old(buffer) || fresh(buffer)) && Explains(s)
      ensures s == Going ==> Reading() && p > old(p)
    {
      hide PointersOk, ZipCode, LexBracket;
      p := p + 1;
      s := BracketExpression();
      if s == Going {
        ExpandAdd(old(zip), zip.frame.nodes.last);
      }
    }

    method Grouping() returns (s: Status)
      requires p < |pattern| && Reading() && pattern[p] in {LPAREN, RPAREN, BAR}
      modifies this, buffer
      ensures (buffer == old(buffer) || fresh(buffer)) && Explains(s)
      ensures s == Going ==> Reading() && p > old(p)
    {
      hide PointersOk, ZipCode;
      var c := pattern[p];
      p := p + 1;
      if c == LPAREN {
        s := OpenParenthesis();
      } else if c == BAR {
        ghost var hole;
        s, hole := HandleAlternative();
        ExpandNext(old(zip), hole);
      } else {
        ghost var inner;
        s, inner := CloseParenthesis();
        if s == Going {
          ExpandClose(old(zip), inner);
        }
      }
    }

    /** One turn of the loop over the pattern. */
    method Token() returns (s: Status)
      requires p < |pattern| && Reading()
      modifies this, buffer
      ensures (buffer == old(buffer) || fresh(buffer)) && Explains(s)
      ensures s == Going ==> Reading() && p > old(p)
    {
      hide PointersOk, ZipCode, LexBracket, ExpandZip, NextOk;
      var c := pattern[p];
      if c == HAT && HatIsAnchor(pattern, p) {
        s := Anchor(Bol);
      } else if c == DOLLAR && DollarIsAnchor(pattern, p) {
        s := Anchor(Eol);
      } else if IsOp(c) {
        s := Operator();
      } else if c == DOT {
        s := AnyCharacter();
      } else if c == LBRACKET {
        s := Bracketed();
      } else if c == LPAREN || c == RPAREN || c == BAR {
        s := Grouping();
      } else if c == LBRACE {
        s := Unsupported;
      } else if c == BACKSLASH {
        if p + 1 == |pattern| {
          s := Rejected(EESCAPE);
        } else if GnuEscape(pattern[p + 1]) {
          s := Unsupported;
        } else {
          s := Literal(pattern[p + 1], true, 2);
        }
      } else {
        s := Literal(c, false, 1);
      }
    }

    /** At the end of the pattern: the last alternative's jump, and no group left open. */
    method Finish() returns (s: Status, ghost tree: Choice)
      requires Reading() && p == |pattern|
      modifies buffer
      ensures s == Going ==> b <= buffer.Length && buffer[..b] == ChoiceCode(tree) && ChoiceOk(tree)
      ensures s == Going ==> Parse(pattern) == Parsed(ExpandChoice(tree)) && ChoiceNumbered(tree, 0)
      ensures s != Going ==> Explains(s)
    {
      hide PointersOk;
      hide ZipCode, PrefixCode, NodesCode, ChoiceCode, PatchedPrefix, OpenCode;
      ghost var body := NodesCode(zip.frame.nodes);
      PointersFacts(zip, begalt, fixup, laststart, pendingExact, stack, regnum);
      StackFacts(zip, begalt, fixup, laststart, pendingExact, stack, regnum);
      FrameFacts(zip, begalt, fixup, laststart, pendingExact, stack, regnum);
      tree := FrameChoice(zip.frame);
      if fixup != NULL {
        FillFixup(b, body);
      } else {
        NoHole(zip, |body|);
      }
      if stack != [] {
        return Rejected(EPAREN), tree;
      }
      InnerCode(zip);
      assert buffer[..b] == [] + ChoiceCode(tree);
      s := Going;
    }

    /** Compiles the pattern into buffer[..b]. The bytes are the code of a tree whose expression is
        the one the pattern spells; errors are the parser's errors, or the code is too long. */
    method Compile() returns (s: Status, ghost tree: Choice)
      requires p == 0 && zip == CODE_START && Consistent()
      modifies this, buffer
      ensures buffer == old(buffer) || fresh(buffer)
      ensures s == Going ==> b <= buffer.Length && buffer[..b] == ChoiceCode(tree) && ChoiceOk(tree)
      ensures s == Going ==> Parse(pattern) == Parsed(ExpandChoice(tree)) && ChoiceNumbered(tree, 0)
      ensures s == Going && b < JUMP_LIMIT ==>
        forall text, i: nat, j: nat :: Accepts(buffer[..b], text, i, j) <==> AltsMatch(Parse(pattern).alts, text, i, j)
      ensures Explains(s) && (s == Going ==> b <= MOST_PER_CHARACTER * |pattern|)
    {
      hide PointersOk;
      tree := Sole(NoNode);
      while p != |pattern|
        invariant Reading() && (buffer == old(buffer) || fresh(buffer))
        decreases |pattern| - p
      {
        s := Token();
        if s != Going {
          return;
        }
      }
      hide Reading, ZipCode, ChoiceCode, Accepts, AltsMatch, Parse;
      s, tree := Finish();
      if s == Going {
        CodeMeansTree(tree);
      }
    }
  }

  lemma CodeMeansTree(tree: Choice)
    requires ChoiceOk(tree)
    ensures |ChoiceCode(tree)| < JUMP_LIMIT ==>
      forall text, i: nat, j: nat :: Accepts(ChoiceCode(tree), text, i, j) <==>
        AltsMatch(ExpandChoice(tree), text, i, j)
  {
    hide Accepts, AltsMatch;
    if |ChoiceCode(tree)| < JUMP_LIMIT {
      forall text, i: nat, j: nat {
        CodeAcceptsMeaning(tree, text, i, j);
      }
    }
  }

  lemma DotRun(pattern: Text, start: nat, ops: seq<Op>)
    requires ops != [] && RunAt(pattern, start, ops) && start + |ops| >= 2 && pattern[start + |ops| - 2] == DOT
    requires ZeroOk(ops) && ManyOk(ops) && Peek(pattern, start + |ops|) == NEWLINE
    ensures DotStarNewline(pattern, start + |ops| - 1)
  {
    if |ops| > 1 {
      RunOpAt(pattern, start, ops, start + |ops| - 2);
    }
  }

  lemma RunOpAt(pattern: Text, start: nat, ops: seq<Op>, x: nat)
    requires RunAt(pattern, start, ops) && start <= x < start + |ops|
    ensures IsOp(pattern[x])
  {
  }

  lemma NoDotRun(pattern: Text, start: nat, ops: seq<Op>)
    requires ops != [] && RunAt(pattern, start, ops)
    ensures DotStarNewline(pattern, start + |ops| - 1) ==>
      start + |ops| >= 2 && pattern[start + |ops| - 2] == DOT && ZeroOk(ops) && ManyOk(ops)
      && start + |ops| < |pattern| && pattern[start + |ops|] == NEWLINE
  {
    assert OpOf(pattern[start + |ops| - 1]) == ops[|ops| - 1];
  }
}
