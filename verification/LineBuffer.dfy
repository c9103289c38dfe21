/** Reading lines from a string, a stream, or a string followed by a stream, whatever ends a line. */
module LineBuffer {
  import opened Bytes

  type Text = seq<byte>

  datatype Eol = R | N | RN | NR | Auto

  const LF: byte := 10
  const FORM_FEED: byte := 12
  const CR: byte := 13

  /** How many characters at the start of `s` end a line; none when it does not start with an end of line. */
  function EolLen(eol: Eol, s: Text): (n: nat)
    ensures n <= 2 && n <= |s|
  {
    if s == [] then 0
    else
      var pair := |s| > 1 && ((s[0] == LF && s[1] == CR) || (s[0] == CR && s[1] == LF));
      if s[0] == LF then
        match eol
        case R => 0
        case RN => 0
        case N => 1
        case NR => if pair then 2 else 0
        case Auto => if pair then 2 else 1
      else if s[0] == CR then
        match eol
        case N => 0
        case NR => 0
        case R => 1
        case RN => if pair then 2 else 0
        case Auto => if pair then 2 else 1
      else 0
  }

  /** Each is what its name says: one certain end of line, or any, of two characters if it can be. */
  lemma EolMeans(eol: Eol, s: Text)
    ensures eol == R ==> EolLen(eol, s) == if Ascii("\r") <= s then 1 else 0
    ensures eol == N ==> EolLen(eol, s) == if Ascii("\n") <= s then 1 else 0
    ensures eol == RN ==> EolLen(eol, s) == if Ascii("\r\n") <= s then 2 else 0
    ensures eol == NR ==> EolLen(eol, s) == if Ascii("\n\r") <= s then 2 else 0
    ensures eol == Auto && (Ascii("\r\n") <= s || Ascii("\n\r") <= s) ==> EolLen(eol, s) == 2
    ensures eol == Auto && !(Ascii("\r\n") <= s || Ascii("\n\r") <= s) ==>
      EolLen(eol, s) == if Ascii("\r") <= s || Ascii("\n") <= s then 1 else 0
  {
  }

  /** A line, and what follows it. The line of an end of file has no end of line. */
  datatype Line = Line(text: Text, rest: Text, ended: bool)

  function Cut(eol: Eol, s: Text): (r: Line)
    ensures |r.rest| <= |s| && (s != [] ==> |r.rest| < |s| && r.text != [])
    ensures !r.ended ==> r.rest == []
  {
    if s == [] then Line([], [], false)
    else
      var n := EolLen(eol, s);
      if n > 0 then Line([LF], s[n..], true)
      else
        var r := Cut(eol, s[1..]);
        r.(text := [s[0]] + r.text)
  }

  lemma CutEnd(eol: Eol, s: Text)
    requires EolLen(eol, s) > 0
    ensures Cut(eol, s) == Line([LF], s[EolLen(eol, s)..], true)
  {
    hide EolLen;
  }

  lemma CutOn(eol: Eol, s: Text)
    requires s != [] && EolLen(eol, s) == 0
    ensures var r := Cut(eol, s[1..]); Cut(eol, s) == r.(text := [s[0]] + r.text)
  {
    hide EolLen;
  }

  /** The text with each end of line replaced by a single newline. */
  function Normal(eol: Eol, s: Text): Text {
    if s == [] then []
    else if EolLen(eol, s) > 0 then [LF] + Normal(eol, s[EolLen(eol, s)..])
    else [s[0]] + Normal(eol, s[1..])
  }

  function Lines(eol: Eol, s: Text): seq<Text>
    decreases |s|
  {
    if s == [] then [] else [Cut(eol, s).text] + Lines(eol, Cut(eol, s).rest)
  }

  function Concat(lines: seq<Text>): Text {
    if lines == [] then [] else lines[0] + Concat(lines[1..])
  }

  lemma {:induction false} CutNormal(eol: Eol, s: Text)
    ensures Normal(eol, s) == Cut(eol, s).text + Normal(eol, Cut(eol, s).rest)
  {
    if s != [] && EolLen(eol, s) == 0 {
      CutNormal(eol, s[1..]);
    }
  }

  /** The lines make up the text, with its ends of lines made newlines. */
  lemma {:induction false} LinesNormal(eol: Eol, s: Text)
    ensures Concat(Lines(eol, s)) == Normal(eol, s)
    decreases |s|
  {
    if s != [] {
      CutNormal(eol, s);
      LinesNormal(eol, Cut(eol, s).rest);
      var rest := Lines(eol, Cut(eol, s).rest);
      assert ([Cut(eol, s).text] + rest)[1..] == rest;
    }
  }

  /** When any end of line will do, a line has no other in it. */
  lemma {:induction false} AutoClean(s: Text)
    ensures var r := Cut(Auto, s);
      && (forall k :: 0 <= k < |r.text| && (r.ended ==> k < |r.text| - 1) ==> r.text[k] != LF && r.text[k] != CR)
      && (r.ended ==> r.text != [] && r.text[|r.text| - 1] == LF)
  {
    if s != [] && EolLen(Auto, s) == 0 {
      AutoClean(s[1..]);
    }
  }

  // ----- a string followed by a stream -----

  /** Some end of line has its first character at the end of `a` and its second at the start of `b`. */
  predicate Crosses(eol: Eol, a: Text, b: Text) {
    if a == [] then false
    else
      var n := EolLen(eol, a + b);
      if n > |a| then true
      else if n > 0 then Crosses(eol, a[n..], b)
      else Crosses(eol, a[1..], b)
  }

  lemma SameEol(eol: Eol, a: Text, b: Text)
    requires a != [] && EolLen(eol, a + b) <= |a|
    ensures EolLen(eol, a) == EolLen(eol, a + b)
    ensures var n := EolLen(eol, a); var step := if n > 0 then n else 1;
      (a + b)[step..] == a[step..] + b && (a + b)[0] == a[0]
  {
  }

  /** Read one after the other, a string and a stream give what the whole gives, if no end of line
      lies across the seam. */
  lemma {:induction false} SeamNormal(eol: Eol, a: Text, b: Text)
    requires !Crosses(eol, a, b)
    ensures Normal(eol, a + b) == Normal(eol, a) + Normal(eol, b)
  {
    if a == [] {
      assert a + b == b;
    } else {
      SameEol(eol, a, b);
      SeamNormal(eol, a[if EolLen(eol, a) > 0 then EolLen(eol, a) else 1..], b);
    }
  }

  /** How long the start of `s` alternates between the two characters of an end of line. */
  function Alternating(s: Text): (k: nat)
    ensures k <= |s|
  {
    if s == [] || (s[0] != LF && s[0] != CR) then 0
    else if EolLen(Auto, s) == 2 then 1 + Alternating(s[1..])
    else 1
  }

  function Newlines(n: nat): (t: Text)
    ensures |t| == n
  {
    seq(n, _ => LF)
  }

  lemma NormalEnd(eol: Eol, s: Text)
    requires EolLen(eol, s) > 0
    ensures Normal(eol, s) == [LF] + Normal(eol, s[EolLen(eol, s)..])
  {
    hide EolLen;
  }

  lemma AlternatingStep(s: Text)
    requires Alternating(s) > 0
    ensures s != [] && EolLen(Auto, s) == if Alternating(s) == 1 then 1 else 2
    ensures Alternating(s) > 1 ==> |s| > 1 && Alternating(s[1..]) == Alternating(s) - 1
  {
    if EolLen(Auto, s) == 2 {
      assert s[1..][0] == s[1];
    }
  }

  /** When any end of line will do, such a start is read two characters at a time. */
  lemma {:induction false} AlternatingNormal(s: Text)
    ensures var k := Alternating(s); Normal(Auto, s) == Newlines((k + 1) / 2) + Normal(Auto, s[k..])
    decreases |s|
  {
    hide EolLen, Normal, Alternating;
    var k := Alternating(s);
    if k == 0 {
      assert s[0..] == s && Newlines(0) == [];
    } else {
      assert Newlines(1) == [LF];
      AlternatingStep(s);
      NormalEnd(Auto, s);
      if k > 2 {
        var rest := s[2..];
        AlternatingStep(s[1..]);
        assert s[1..][1..] == rest;
        AlternatingNormal(rest);
        assert Newlines((k + 1) / 2) == [LF] + Newlines((k - 1) / 2);
        assert s[k..] == rest[k - 2..];
        Associative([LF], Newlines((k - 1) / 2), Normal(Auto, s[k..]));
      }
    }
  }

  /** An end of line cut in two is made up for when any end of line will do and the stream begins with
      an even number of alternating characters. */
  predicate MadeUp(eol: Eol, b: Text) {
    eol == Auto && Alternating(b) % 2 == 0
  }

  /** Otherwise one character too many is read. */
  lemma {:induction false} SeamExactly(eol: Eol, a: Text, b: Text)
    requires Crosses(eol, a, b)
    ensures if MadeUp(eol, b) then Normal(eol, a) + Normal(eol, b) == Normal(eol, a + b)
      else |Normal(eol, a) + Normal(eol, b)| == |Normal(eol, a + b)| + 1
  {
    hide Alternating;
    if EolLen(eol, a + b) > |a| {
      assert a == [a[0]] && (a + b)[2..] == b[1..];
      CutInTwo(eol, a[0], b);
    } else {
      SameEol(eol, a, b);
      SeamExactly(eol, a[if EolLen(eol, a) > 0 then EolLen(eol, a) else 1..], b);
    }
  }

  lemma CutInTwo(eol: Eol, x: byte, b: Text)
    requires EolLen(eol, [x] + b) == 2
    ensures if MadeUp(eol, b) then Normal(eol, [x]) + Normal(eol, b) == Normal(eol, [x] + b)
      else |Normal(eol, [x]) + Normal(eol, b)| == |Normal(eol, [x] + b)| + 1
  {
    hide Alternating;
    if eol == Auto {
      CutInTwoAuto(x, b);
    } else {
      var s := [x] + b;
      assert s[1..] == b && s[2..] == b[1..] && [x][1..] == [];
      assert Normal(eol, s) == [LF] + Normal(eol, b[1..]);
      assert Normal(eol, b) == [b[0]] + Normal(eol, b[1..]);
    }
  }

  lemma CutInTwoAuto(x: byte, b: Text)
    requires EolLen(Auto, [x] + b) == 2
    ensures if MadeUp(Auto, b) then Normal(Auto, [x]) + Normal(Auto, b) == Normal(Auto, [x] + b)
      else |Normal(Auto, [x]) + Normal(Auto, b)| == |Normal(Auto, [x] + b)| + 1
  {
    var s, m := [x] + b, Alternating(b);
    OneHalf(x, b);
    AlternatingNormal(s);
    AlternatingNormal(b);
    hide Normal, Alternating, EolLen;
    assert s[m + 1..] == b[m..];
    OneNewline(m, Normal(Auto, b[m..]));
  }

  lemma OneNewline(m: nat, rest: Text)
    ensures var separate, whole := [LF] + (Newlines((m + 1) / 2) + rest), Newlines((m + 2) / 2) + rest;
      if m % 2 == 0 then separate == whole else |separate| == |whole| + 1
  {
    if m % 2 == 0 {
      assert (m + 2) / 2 == (m + 1) / 2 + 1;
      assert Newlines((m + 2) / 2) == [LF] + Newlines((m + 1) / 2);
      Associative([LF], Newlines((m + 1) / 2), rest);
    }
  }

  lemma OneHalf(x: byte, b: Text)
    requires EolLen(Auto, [x] + b) == 2
    ensures Alternating([x] + b) == 1 + Alternating(b) && Normal(Auto, [x]) == [LF]
  {
    assert ([x] + b)[1..] == b && [x][1..] == [];
  }

  /** A string that ends in neither character of an end of line can be cut off safely. */
  lemma {:induction false} CleanSeam(eol: Eol, a: Text, b: Text)
    requires a == [] || (a[|a| - 1] != LF && a[|a| - 1] != CR)
    ensures !Crosses(eol, a, b)
  {
    if a != [] {
      var n := EolLen(eol, a + b);
      if n <= |a| {
        CleanSeam(eol, a[if n > 0 then n else 1..], b);
      }
    }
  }

  /** The next line, when the string holds all of it or when the stream has to be read on. */
  lemma {:induction false} SeamCut(eol: Eol, a: Text, b: Text)
    requires !Crosses(eol, a, b) && a != []
    ensures var r := Cut(eol, a);
      && (r.ended ==> Cut(eol, a + b) == r.(rest := r.rest + b) && !Crosses(eol, r.rest, b))
      && (!r.ended ==> var more := Cut(eol, b); Cut(eol, a + b) == more.(text := r.text + more.text))
    decreases a, 1
  {
    hide Cut, EolLen;
    SeamOn(eol, a, b);
    hide Crosses;
    var n := EolLen(eol, a);
    if n > 0 {
      CutEnd(eol, a);
      CutEnd(eol, a + b);
    } else {
      CutOn(eol, a);
      CutOn(eol, a + b);
      if a[1..] == [] {
        assert a[1..] + b == b;
        CutNothing(eol);
      } else {
        SeamCutOn(eol, a, b);
      }
    }
  }

  /** Where nothing crosses, an end of line, or one character, is read off the same with what follows. */
  lemma SeamOn(eol: Eol, a: Text, b: Text)
    requires !Crosses(eol, a, b) && a != []
    ensures EolLen(eol, a) == EolLen(eol, a + b) <= |a| && (a + b)[0] == a[0]
    ensures var step := if EolLen(eol, a) > 0 then EolLen(eol, a) else 1;
      (a + b)[step..] == a[step..] + b && !Crosses(eol, a[step..], b)
  {
    SameEol(eol, a, b);
  }

  lemma {:induction false} SeamCutOn(eol: Eol, a: Text, b: Text)
    requires |a| > 1 && !Crosses(eol, a[1..], b) && EolLen(eol, a) == EolLen(eol, a + b) == 0
    requires (a + b)[1..] == a[1..] + b && (a + b)[0] == a[0]
    requires var r := Cut(eol, a[1..]); Cut(eol, a) == r.(text := [a[0]] + r.text)
    requires var r := Cut(eol, a[1..] + b); Cut(eol, a + b) == r.(text := [a[0]] + r.text)
    ensures var r := Cut(eol, a);
      && (r.ended ==> Cut(eol, a + b) == r.(rest := r.rest + b) && !Crosses(eol, r.rest, b))
      && (!r.ended ==> var more := Cut(eol, b); Cut(eol, a + b) == more.(text := r.text + more.text))
    decreases a, 0
  {
    hide Cut, Crosses, EolLen;
    SeamCut(eol, a[1..], b);
    var r, more := Cut(eol, a[1..]), Cut(eol, b);
    Associative([a[0]], r.text, more.text);
  }

  const EOF := -1

  /** The character that, as a signed one, is taken for the end of file in a string. */
  const FALSE_EOF: byte := 255

  predicate NoEof(s: Text) {
    forall k :: 0 <= k < |s| ==> s[k] != FALSE_EOF
  }

  /** A line of a string. A false end of file is dropped, and the line goes on in the stream. */
  function CutString(eol: Eol, s: Text): (r: Line)
    ensures |r.rest| <= |s| && (s != [] ==> |r.rest| < |s|) && (r.ended ==> r.text != [])
    ensures r.text == [] ==> s == [] || s[0] == FALSE_EOF
  {
    if s == [] then Line([], [], false)
    else if s[0] == FALSE_EOF then Line([], s[1..], false)
    else
      var n := EolLen(eol, s);
      if n > 0 then Line([LF], s[n..], true)
      else
        var r := CutString(eol, s[1..]);
        r.(text := [s[0]] + r.text)
  }

  /** Without one it is a line like any other. */
  lemma {:induction false} CutWhole(eol: Eol, s: Text)
    requires NoEof(s)
    ensures CutString(eol, s) == Cut(eol, s) && NoEof(Cut(eol, s).rest)
  {
    hide EolLen;
    if s != [] && EolLen(eol, s) == 0 {
      CutWhole(eol, s[1..]);
    }
  }

  lemma CutStringEnd(eol: Eol, s: Text)
    requires EolLen(eol, s) > 0
    ensures CutString(eol, s) == Line([LF], s[EolLen(eol, s)..], true)
  {
  }

  lemma CutStringOn(eol: Eol, s: Text)
    requires s != [] && s[0] != FALSE_EOF && EolLen(eol, s) == 0
    ensures var r := CutString(eol, s[1..]); CutString(eol, s) == r.(text := [s[0]] + r.text)
  {
    hide EolLen;
  }

  lemma FalseEnd(eol: Eol, s: Text)
    ensures s != [] && s[0] == FALSE_EOF ==> CutString(eol, s) == Line([], s[1..], false)
  {
  }

  lemma CutStringNothing(eol: Eol)
    ensures CutString(eol, []) == Line([], [], false)
  {
  }

  const SAMPLE_SIZE := 512

  class Buffer {
    var buf: Text
    var bufoffset: nat
    const stream: Text
    var position: nat
    const eol: Eol
    var content: Text
    var line: nat

    ghost predicate Valid()
      reads this
    {
      position <= |stream|
    }

    ghost function Sample(): Text
      reads this
    {
      if bufoffset < |buf| then buf[bufoffset..] else []
    }

    /** All that is still to be read. */
    ghost function Rest(): Text
      requires position <= |stream|
      reads this
    {
      Sample() + stream[position..]
    }

    constructor (buf: Text, stream: Text, eol: Eol)
      ensures this.buf == buf && this.stream == stream && this.eol == eol && bufoffset == 0 && position == 0
      ensures line == 0
    {
      this.buf, this.stream, this.eol := buf, stream, eol;
      bufoffset, position, content, line := 0, 0, [], 0;
    }

    /** Takes the start of the stream for the string. All of it is still to be read. */
    method SampleGet()
      requires buf == [] && bufoffset == 0 && position <= |stream|
      modifies `buf, `position
      ensures position <= |stream| && |buf| <= SAMPLE_SIZE && (|buf| < SAMPLE_SIZE ==> position == |stream|)
      ensures Rest() == old(stream[position..]) && buf == old(stream[position..])[..|buf|]
    {
      ghost var from := position;
      var cur := 0;
      while cur < SAMPLE_SIZE
        invariant cur == |buf| <= SAMPLE_SIZE && from + cur == position <= |stream| && buf == stream[from..position]
      {
        var c := StreamGetc();
        if c == EOF {
          break;
        }
        buf := buf + [c];
        cur := cur + 1;
      }
    }

    /** `bgetc`: the offset moves on even at the end. */
    method StringGetc() returns (c: int)
      modifies `bufoffset
      ensures bufoffset == old(bufoffset) + 1
      ensures c == if old(bufoffset) < |buf| then Signed(buf[old(bufoffset)]) else EOF
    {
      c := if bufoffset < |buf| then Signed(buf[bufoffset]) else EOF;
      bufoffset := bufoffset + 1;
    }

    method StreamGetc() returns (c: int)
      requires position <= |stream|
      modifies `position
      ensures position <= |stream|
      ensures if old(position) < |stream|
        then c == stream[old(position)] && position == old(position) + 1 else c == EOF && position == old(position)
    {
      if position == |stream| {
        return EOF;
      }
      c := stream[position];
      position := position + 1;
    }

    /** Whether the character just read from the string ends a line; the second half of its end of line is eaten. */
    method StringEol(c: int, ghost s: Text) returns (ends: bool)
      requires s != [] && c == Signed(s[0]) && Sample() == s[1..]
      modifies `bufoffset
      ensures ends <==> EolLen(eol, s) > 0
      ensures Sample() == if ends then s[EolLen(eol, s)..] else s[1..]
      ensures bufoffset >= old(bufoffset)
    {
      if c == LF as int && (eol == Auto || eol == NR) {
        ends := StringMate(CR as int, eol == Auto, s);
      } else if c == CR as int && (eol == Auto || eol == RN) {
        ends := StringMate(LF as int, eol == Auto, s);
      } else {
        ends := (c == LF as int && eol == N) || (c == CR as int && eol == R);
      }
    }

    /** Eats the other half of an end of line, if it comes next. */
    method StringMate(mate: int, alone: bool, ghost s: Text) returns (ends: bool)
      requires s != [] && Sample() == s[1..] && (mate == LF || mate == CR)
      modifies `bufoffset
      ensures var pair := |s| > 1 && s[1] == mate;
        (ends <==> alone || pair) && Sample() == if pair then s[2..] else s[1..]
      ensures bufoffset >= old(bufoffset)
    {
      ghost var at := bufoffset;
      assert |s| > 1 ==> at < |buf| && buf[at] == s[1] && buf[at + 1..] == s[2..];
      var d := StringGetc();
      if d != mate {
        bufoffset := bufoffset - 1;
        return alone;
      }
      ends := true;
    }

    method NextString(ghost s: Text) returns (c: int)
      requires s == Sample()
      modifies `bufoffset
      ensures bufoffset == old(bufoffset) + 1 && (bufoffset > |buf| ==> s == [])
      ensures if s == [] then c == EOF && Sample() == []
        else c == Signed(s[0]) && (c == EOF <==> s[0] == FALSE_EOF) && Unsigned(c) == s[0] && Sample() == s[1..]
    {
      ghost var at := bufoffset;
      c := StringGetc();
      assert at < |buf| ==> s == buf[at..] && buf[at + 1..] == s[1..];
    }

    /** Reads a line from the string; `ended` when its end of line was met. */
    method StringGetLine() returns (text: Text, ended: bool)
      modifies `bufoffset
      ensures Line(text, Sample(), ended) == CutString(eol, old(Sample()))
    {
      hide EolLen, CutString, Signed, Unsigned;
      CutStringNothing(eol);
      ghost var r := CutString(eol, Sample());
      text := [];
      while true
        invariant var left := CutString(eol, Sample()); r == left.(text := text + left.text)
        decreases |buf| + 1 - bufoffset
      {
        ghost var s := Sample();
        var c := NextString(s);
        if c == EOF {
          FalseEnd(eol, s);
          assert text + [] == text;
          return text, false;
        }
        var ends := StringEol(c, s);
        if ends {
          CutStringEnd(eol, s);
          return text + [LF], true;
        }
        CutStringOn(eol, s);
        Associative(text, [s[0]], CutString(eol, s[1..]).text);
        text := text + [Unsigned(c)];
      }
    }

    method StreamEol(c: int, ghost s: Text) returns (ends: bool)
      requires position <= |stream| && s != [] && c == s[0] && stream[position..] == s[1..]
      modifies `position
      ensures old(position) <= position <= |stream|
      ensures ends <==> EolLen(eol, s) > 0
      ensures stream[position..] == if ends then s[EolLen(eol, s)..] else s[1..]
    {
      if c == LF as int && (eol == Auto || eol == NR) {
        ends := StreamMate(CR as int, eol == Auto, s);
      } else if c == CR as int && (eol == Auto || eol == RN) {
        ends := StreamMate(LF as int, eol == Auto, s);
      } else {
        ends := (c == LF as int && eol == N) || (c == CR as int && eol == R);
      }
    }

    method StreamMate(mate: int, alone: bool, ghost s: Text) returns (ends: bool)
      requires position <= |stream| && s != [] && stream[position..] == s[1..] && (mate == LF || mate == CR)
      modifies `position
      ensures old(position) <= position <= |stream|
      ensures var pair := |s| > 1 && s[1] == mate;
        (ends <==> alone || pair) && stream[position..] == if pair then s[2..] else s[1..]
    {
      ghost var at := position;
      assert |s| > 1 ==> at < |stream| && stream[at] == s[1] && stream[at + 1..] == s[2..];
      var d := StreamGetc();
      if d != mate {
        if d != EOF {
          position := position - 1;
        }
        return alone;
      }
      ends := true;
    }

    /** Reads a line from the stream, after what has been read of it from the string. */
    method StreamGetLine(start: Text) returns (text: Text, ended: bool)
      requires position <= |stream|
      modifies `position
      ensures position <= |stream|
      ensures var r := Cut(eol, old(stream[position..]));
        Line(text, stream[position..], ended) == r.(text := start + r.text)
    {
      hide EolLen, Cut;
      CutNothing(eol);
      ghost var r := Cut(eol, stream[position..]);
      text := start;
      while true
        invariant position <= |stream|
        invariant var left := Cut(eol, stream[position..]);
          r.(text := start + r.text) == left.(text := text + left.text)
        decreases |stream| - position
      {
        ghost var s := stream[position..];
        var c := StreamGetc();
        if c == EOF {
          assert text + [] == text;
          return text, false;
        }
        assert stream[position..] == s[1..] && c == s[0];
        var ends := StreamEol(c, s);
        if ends {
          CutEnd(eol, s);
          return text + [LF], true;
        }
        CutOn(eol, s);
        Associative(text, [s[0]], Cut(eol, s[1..]).text);
        text := text + [c];
      }
    }

    /** The next line: that of the string, if its end of line is there too; else what was read of the
        string and the line of the stream. */
    method Get() returns (ghost raw: Text)
      requires Valid()
      modifies `bufoffset, `position, `content, `line
      ensures Valid() && line == old(line) + 1
      ensures Taken(raw, Sample(), stream[position..]) == Take(eol, old(Sample()), old(stream[position..]))
      ensures content ==
        if |raw| >= 2 && raw[|raw| - 2] == FORM_FEED then raw[..|raw| - 1] else raw
    {
      hide Cut, CutString, EolLen;
      CutStringNothing(eol);
      var text, ended := [], false;
      if bufoffset < |buf| {
        text, ended := StringGetLine();
      }
      if !ended {
        text, ended := StreamGetLine(text);
      }
      raw := text;
      line := line + 1;
      content := text;
      if |content| >= 2 && content[|content| - 2] == FORM_FEED {
        content := content[..|content| - 1];
      }
    }
  }

  // ----- all lines -----

  datatype Taken = Taken(text: Text, left: Text, ahead: Text)

  /** A line taken off string `a` and stream `b`. */
  function Take(eol: Eol, a: Text, b: Text): (t: Taken)
    ensures t.text != [] ==> |t.left| + |t.ahead| < |a| + |b|
    ensures t.text == [] ==> b == [] && (a == [] || a[0] == FALSE_EOF)
  {
    var r := CutString(eol, a);
    if r.ended then Taken(r.text, r.rest, b)
    else
      var more := Cut(eol, b);
      Taken(r.text + more.text, r.rest, more.rest)
  }

  /** Line after line, up to an empty one. */
  function TakeAll(eol: Eol, a: Text, b: Text): seq<Text>
    decreases |a| + |b|
  {
    var t := Take(eol, a, b);
    if t.text == [] then [] else [t.text] + TakeAll(eol, t.left, t.ahead)
  }

  /** The lines make up string and stream, each with its own ends of lines made newlines. */
  lemma {:induction false} TakeAllNormal(eol: Eol, a: Text, b: Text)
    requires NoEof(a)
    ensures Concat(TakeAll(eol, a, b)) == Normal(eol, a) + Normal(eol, b)
    decreases |a| + |b|
  {
    hide Cut, CutString, Normal, NoEof;
    CutWhole(eol, a);
    CutNormal(eol, a);
    CutNormal(eol, b);
    NormalNothing(eol);
    CutNothing(eol);
    var t := Take(eol, a, b);
    if t.text != [] {
      NoEofNothing();
      TakeAllNormal(eol, t.left, t.ahead);
      var rest := TakeAll(eol, t.left, t.ahead);
      assert ([t.text] + rest)[1..] == rest;
      TextFirst(Cut(eol, a), Cut(eol, b), Normal(eol, Cut(eol, a).rest), Normal(eol, b), Normal(eol, Cut(eol, b).rest));
    }
  }

  lemma NoEofNothing()
    ensures NoEof([])
  {
  }

  lemma NormalNothing(eol: Eol)
    ensures Normal(eol, []) == []
  {
  }

  lemma TextFirst(r: Line, more: Line, left: Text, b: Text, after: Text)
    requires b == more.text + after && (!r.ended ==> left == [])
    ensures r.ended ==> r.text + (left + b) == (r.text + left) + b
    ensures !r.ended ==> (r.text + more.text) + ([] + after) == (r.text + left) + b
  {
  }

  /** Where no end of line lies across the seam, the lines are those of the whole text. */
  lemma {:induction false} TakeAllLines(eol: Eol, a: Text, b: Text)
    requires NoEof(a) && !Crosses(eol, a, b)
    ensures TakeAll(eol, a, b) == Lines(eol, a + b)
    decreases |a| + |b|
  {
    hide Cut, CutString, Crosses, NoEof;
    CutWhole(eol, a);
    CutNothing(eol);
    NoEofNothing();
    var t := Take(eol, a, b);
    if a == [] {
      assert a + b == b && [] + Cut(eol, b).text == Cut(eol, b).text;
    } else {
      SeamCut(eol, a, b);
    }
    NothingCrosses(eol, t.ahead);
    assert [] + t.ahead == t.ahead;
    if t.text != [] {
      TakeAllLines(eol, t.left, t.ahead);
    }
  }

  lemma CutNothing(eol: Eol)
    ensures Cut(eol, []) == Line([], [], false)
  {
  }

  lemma NothingCrosses(eol: Eol, b: Text)
    ensures !Crosses(eol, [], b)
  {
  }

  /** How many characters would be taken for the end of file. */
  function FalseEnds(s: Text): nat {
    if s == [] then 0 else (if s[0] == FALSE_EOF then 1 else 0) + FalseEnds(s[1..])
  }

  lemma {:induction false} FalseEndsConcat(a: Text, b: Text)
    ensures FalseEnds(a + b) == FalseEnds(a) + FalseEnds(b)
  {
    if a == [] {
      assert a + b == b;
    } else {
      FalseEndsConcat(a[1..], b);
      assert (a + b)[1..] == a[1..] + b;
    }
  }

  lemma {:induction false} FalseEndsNone(s: Text)
    ensures FalseEnds(s) == 0 <==> NoEof(s)
  {
    if s != [] {
      FalseEndsNone(s[1..]);
      assert s == [s[0]] + s[1..];
    }
  }

  /** An end of line holds none of them. */
  lemma FalseEndsStep(eol: Eol, s: Text)
    requires s != []
    ensures var n := EolLen(eol, s); if n > 0 then FalseEnds(s[n..]) == FalseEnds(s)
      else FalseEnds(s) == FalseEnds([s[0]]) + FalseEnds(s[1..])
    ensures FalseEnds([LF]) == 0
  {
    var n := EolLen(eol, s);
    assert s == [s[0]] + s[1..];
    FalseEndsConcat([s[0]], s[1..]);
    if n == 2 {
      assert s[1..] == [s[1]] + s[2..];
      FalseEndsConcat([s[1]], s[2..]);
    }
  }

  lemma {:induction false} FalseEndsNormal(eol: Eol, s: Text)
    ensures FalseEnds(Normal(eol, s)) == FalseEnds(s)
    decreases |s|
  {
    if s != [] {
      FalseEndsStep(eol, s);
      hide EolLen, FalseEnds;
      var n := EolLen(eol, s);
      var rest := s[if n > 0 then n else 1..];
      FalseEndsNormal(eol, rest);
      FalseEndsConcat([if n > 0 then LF else s[0]], Normal(eol, rest));
    }
  }

  /** What is read of a string holds none. */
  lemma {:induction false} FalseEndsString(eol: Eol, s: Text)
    ensures FalseEnds(CutString(eol, s).text) == 0
  {
    if s != [] {
      FalseEndsStep(eol, s);
      hide EolLen;
      if s[0] != FALSE_EOF && EolLen(eol, s) == 0 {
        FalseEndsString(eol, s[1..]);
        FalseEndsConcat([s[0]], CutString(eol, s[1..]).text);
      }
    }
  }

  lemma {:induction false} FalseEndsTaken(eol: Eol, a: Text, b: Text)
    ensures FalseEnds(Concat(TakeAll(eol, a, b))) <= FalseEnds(b)
    decreases |a| + |b|
  {
    hide FalseEnds, Cut, CutString, Normal;
    FalseEndsString(eol, a);
    CutNormal(eol, b);
    FalseEndsNormal(eol, b);
    FalseEndsNormal(eol, Cut(eol, b).rest);
    FalseEndsConcat(Cut(eol, b).text, Normal(eol, Cut(eol, b).rest));
    FalseEndsConcat(CutString(eol, a).text, Cut(eol, b).text);
    FalseEndsNone([]);
    NoEofNothing();
    var t := Take(eol, a, b);
    if t.text != [] {
      FalseEndsTaken(eol, t.left, t.ahead);
      var rest := TakeAll(eol, t.left, t.ahead);
      assert ([t.text] + rest)[1..] == rest;
      FalseEndsConcat(t.text, Concat(rest));
    }
  }

  /** A string loses every false end of file in it, so that the text cannot be whole. */
  lemma StringLoses(eol: Eol, a: Text, b: Text)
    requires !NoEof(a)
    ensures Concat(TakeAll(eol, a, b)) != Normal(eol, a + b)
  {
    hide FalseEnds, Normal, Concat, TakeAll, NoEof;
    FalseEndsTaken(eol, a, b);
    FalseEndsNormal(eol, a + b);
    FalseEndsConcat(a, b);
    FalseEndsNone(a);
  }

  /** So cutting a text in two does no harm exactly where the string holds no false end of file and no end of
      line is cut, or one that is made up for. */
  lemma SeamHarmless(eol: Eol, a: Text, b: Text)
    ensures Concat(TakeAll(eol, a, b)) == Normal(eol, a + b) <==> NoEof(a) && (!Crosses(eol, a, b) || MadeUp(eol, b))
  {
    hide Normal, Crosses, TakeAll, Concat, MadeUp, NoEof;
    if !NoEof(a) {
      StringLoses(eol, a, b);
    } else {
      TakeAllNormal(eol, a, b);
      if Crosses(eol, a, b) {
        SeamExactly(eol, a, b);
      } else {
        SeamNormal(eol, a, b);
      }
    }
  }

  /** A `char` as an `int`. */
  function Signed(b: byte): int {
    if b < 128 then b else b - 256
  }

  function Unsigned(c: int): byte {
    c % 256
  }
}
