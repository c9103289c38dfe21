/** What a printer makes of the text a2ps writes: string literals as in section 3.2.2 of the
    PostScript Language Reference, and the operators that the prolog defines to show them. */
module PostScript {
  import opened Bytes

  datatype Face =
    | Plain | Keyword | KeywordStrong | Label | LabelStrong | Quoted | Symbol | Error | Comment | CommentStrong

  /** What ends up on the pages, in order. `Fault` is an operator without its operand, or an unknown one. */
  datatype Event =
    | Glyph(face: Face, code: byte)
    | Stray(code: byte)
    | Line
    | Column(n: nat)
    | SheetBegin(sheet: nat)
    | SheetEnd
    | PageBegin(n: nat)
    | PageEnd
    | Fault

  /** What is written: bytes, and the brackets around sheets and virtual pages, whose own text is not modelled. */
  datatype Item = Byte(b: byte) | Mark(event: Event)

  datatype Operand = Text(codes: seq<byte>) | Number(n: nat)

  datatype Mode =
    | Outside(word: seq<byte>)
    | InString(depth: nat, codes: seq<byte>)
    | AfterBackslash(depth: nat, codes: seq<byte>)
    | InOctal(depth: nat, codes: seq<byte>, value: nat, digits: nat)

  datatype Option<T> = None | Some(value: T)

  datatype Reader = Reader(mode: Mode, operands: seq<Operand>, face: Option<Face>, events: seq<Event>)

  const START := Reader(Outside([]), [], None, [])

  const NEWLINE: byte := 10
  const SPACE: byte := 32
  const OPEN: byte := 40
  const CLOSE: byte := 41
  const BACKSLASH: byte := 92
  const LOWER_N: byte := 110
  const UPPER_N: byte := 78
  const UPPER_S: byte := 83
  const UPPER_T: byte := 84

  /** The operator that sets a face and shows a string in it. */
  function FaceName(f: Face): seq<byte> {
    match f
    case Plain => [112]
    case Symbol => [115, 121]
    case Keyword => [107]
    case KeywordStrong => [75]
    case Comment => [99]
    case CommentStrong => [67]
    case Label => [108]
    case LabelStrong => [76]
    case Quoted => [115, 116, 114]
    case Error => [101]
  }

  function FaceOf(word: seq<byte>): Option<Face> {
    if word == [112] then Some(Plain)
    else if word == [115, 121] then Some(Symbol)
    else if word == [107] then Some(Keyword)
    else if word == [75] then Some(KeywordStrong)
    else if word == [99] then Some(Comment)
    else if word == [67] then Some(CommentStrong)
    else if word == [108] then Some(Label)
    else if word == [76] then Some(LabelStrong)
    else if word == [115, 116, 114] then Some(Quoted)
    else if word == [101] then Some(Error)
    else None
  }

  lemma FaceNames(f: Face)
    ensures FaceOf(FaceName(f)) == Some(f) && Regular(FaceName(f)) && FaceName(f) != []
    ensures !IsNumber(FaceName(f))
  {
    assert !IsDigit(FaceName(f)[0]);
  }

  function Shown(face: Option<Face>, codes: seq<byte>): (r: seq<Event>)
    ensures |r| == |codes|
  {
    seq(|codes|, k requires 0 <= k < |codes| => if face.Some? then Glyph(face.value, codes[k]) else Stray(codes[k]))
  }

  lemma ShownConcat(face: Option<Face>, a: seq<byte>, b: seq<byte>)
    ensures Shown(face, a + b) == Shown(face, a) + Shown(face, b)
  {
  }

  predicate IsDigit(b: byte) {
    48 <= b <= 57
  }

  predicate IsNumber(word: seq<byte>) {
    word != [] && forall k :: 0 <= k < |word| ==> IsDigit(word[k])
  }

  function NumberOf(word: seq<byte>): nat
    requires forall k :: 0 <= k < |word| ==> IsDigit(word[k])
  {
    if word == [] then 0
    else
      var last := |word| - 1;
      assert IsDigit(word[last]);
      10 * NumberOf(word[..last]) + (word[last] as int - 48)
  }

  /** `%zu` */
  function Decimal(n: nat): (r: seq<byte>)
    ensures r != []
  {
    if n < 10 then [48 + n] else Decimal(n / 10) + [48 + n % 10]
  }

  lemma {:induction false} DecimalRoundTrip(n: nat)
    ensures IsNumber(Decimal(n)) && Regular(Decimal(n)) && NumberOf(Decimal(n)) == n
    decreases n
  {
    if n < 10 {
      assert Decimal(n)[..0] == [];
    } else {
      DecimalRoundTrip(n / 10);
      assert Decimal(n)[..|Decimal(n)| - 1] == Decimal(n / 10);
    }
  }

  /** Characters that neither end a word nor begin a string. */
  predicate Regular(word: seq<byte>) {
    forall k :: 0 <= k < |word| ==> 32 < word[k] && word[k] != OPEN && word[k] != CLOSE
  }

  function Fail(r: Reader): Reader {
    r.(events := r.events + [Fault])
  }

  function Execute(r: Reader, word: seq<byte>): Reader {
    var depth := |r.operands|;
    if word == [] then r
    else if IsNumber(word) then r.(operands := r.operands + [Number(NumberOf(word))])
    else if word == [LOWER_N] then r.(events := r.events + [Line])
    else if depth == 0 then Fail(r)
    else
      var top, rest := r.operands[depth - 1], r.operands[..depth - 1];
      if word == [UPPER_T] && top.Number? then r.(operands := rest, events := r.events + [Column(top.n)])
      else if word == [UPPER_S] && top.Text? then r.(operands := rest, events := r.events + Shown(r.face, top.codes))
      else if word == [UPPER_N] && top.Text? then
        r.(operands := rest, events := r.events + Shown(r.face, top.codes) + [Line])
      else if FaceOf(word).Some? && top.Text? then
        r.(operands := rest, face := FaceOf(word), events := r.events + Shown(FaceOf(word), top.codes))
      else Fail(r)
  }

  function EndWord(r: Reader): Reader
    requires r.mode.Outside?
  {
    Execute(r, r.mode.word).(mode := Outside([]))
  }

  function IntoString(r: Reader, depth: nat, codes: seq<byte>, b: byte): Reader {
    if b == BACKSLASH then r.(mode := AfterBackslash(depth, codes))
    else if b == OPEN then r.(mode := InString(depth + 1, codes + [b]))
    else if b == CLOSE then
      if depth == 0 then r.(mode := Outside([]), operands := r.operands + [Text(codes)])
      else r.(mode := InString(depth - 1, codes + [b]))
    else r.(mode := InString(depth, codes + [b]))
  }

  predicate IsOctal(b: byte) {
    48 <= b <= 55
  }

  /** What a backslash and one character stand for. */
  function Escape(b: byte): seq<byte> {
    if b == 110 then [10] else if b == 114 then [13] else if b == 116 then [9]
    else if b == 98 then [8] else if b == 102 then [12] else if b == NEWLINE then [] else [b]
  }

  function Step(r: Reader, item: Item): Reader {
    match item
    case Mark(e) =>
      if r.mode == Outside([]) then r.(face := None, events := r.events + [e]) else Fail(r)
    case Byte(b) =>
      match r.mode
      case Outside(word) =>
        if b <= 32 then EndWord(r)
        else if b == OPEN then EndWord(r).(mode := InString(0, []))
        else if b == CLOSE then Fail(r)
        else r.(mode := Outside(word + [b]))
      case InString(depth, codes) => IntoString(r, depth, codes, b)
      case AfterBackslash(depth, codes) =>
        if IsOctal(b) then r.(mode := InOctal(depth, codes, b - 48, 1))
        else r.(mode := InString(depth, codes + Escape(b)))
      case InOctal(depth, codes, value, digits) =>
        if IsOctal(b) && digits < 2 then r.(mode := InOctal(depth, codes, 8 * value + (b - 48), digits + 1))
        else if IsOctal(b) then r.(mode := InString(depth, codes + [(8 * value + (b - 48)) % 256]))
        else IntoString(r, depth, codes + [value % 256], b)
  }

  function Run(r: Reader, items: seq<Item>): Reader {
    if items == [] then r else Step(Run(r, items[..|items| - 1]), items[|items| - 1])
  }

  function Raw(bytes: seq<byte>): (r: seq<Item>)
    ensures |r| == |bytes|
  {
    seq(|bytes|, k requires 0 <= k < |bytes| => Byte(bytes[k]))
  }

  lemma {:induction false} RunConcat(r: Reader, a: seq<Item>, b: seq<Item>)
    ensures Run(r, a + b) == Run(Run(r, a), b)
  {
    if b == [] {
      assert a + b == a;
    } else {
      RunConcat(r, a, b[..|b| - 1]);
      assert (a + b)[..|a + b| - 1] == a + b[..|b| - 1];
    }
  }

  lemma RunOne(r: Reader, item: Item)
    ensures Run(r, [item]) == Step(r, item)
  {
    assert [item][..0] == [];
    assert Run(r, []) == r;
  }

  /** A word accumulates. */
  lemma {:induction false} RunWord(r: Reader, word: seq<byte>)
    requires r.mode == Outside([]) && Regular(word)
    ensures Run(r, Raw(word)) == r.(mode := Outside(word))
  {
    if word != [] {
      var init := word[..|word| - 1];
      RunWord(r, init);
      assert Raw(word)[..|word| - 1] == Raw(init);
      assert init + [word[|word| - 1]] == word;
    }
  }

  /** A word and the blank after it. */
  lemma RunOperator(r: Reader, word: seq<byte>, blank: byte)
    requires r.mode == Outside([]) && Regular(word) && (blank == SPACE || blank == NEWLINE)
    ensures Run(r, Raw(word + [blank])) == Execute(r, word)
  {
    RunWord(r, word);
    assert Raw(word + [blank])[..|word|] == Raw(word);
    ExecuteMode(r, word, Outside(word));
  }

  lemma ExecuteMode(r: Reader, word: seq<byte>, mode: Mode)
    ensures Execute(r.(mode := mode), word) == Execute(r, word).(mode := mode)
  {
  }

  // ----- what each piece of output does to an open string -----

  /** A string is being read, nothing else is pending. */
  function Open(face: Option<Face>, events: seq<Event>, codes: seq<byte>): Reader {
    Reader(InString(0, codes), [], face, events)
  }

  function Closed(face: Option<Face>, events: seq<Event>): Reader {
    Reader(Outside([]), [], face, events)
  }

  lemma RunTwo(r: Reader, a: seq<byte>, b: seq<byte>)
    ensures Run(r, Raw(a + b)) == Run(Run(r, Raw(a)), Raw(b))
  {
    RunConcat(r, Raw(a), Raw(b));
    assert Raw(a + b) == Raw(a) + Raw(b);
  }

  lemma RunByte(r: Reader, b: byte)
    ensures Run(r, Raw([b])) == Step(r, Byte(b))
  {
    assert Raw([b]) == [Byte(b)];
    RunOne(r, Byte(b));
  }

  /** "(" */
  lemma RunOpen(face: Option<Face>, events: seq<Event>)
    ensures Run(Closed(face, events), Raw([OPEN])) == Open(face, events, [])
  {
    RunByte(Closed(face, events), OPEN);
  }

  /** ") " */
  lemma RunClose(face: Option<Face>, events: seq<Event>, codes: seq<byte>)
    ensures Run(Open(face, events, codes), Raw([CLOSE, SPACE])) == Closed(face, events).(operands := [Text(codes)])
  {
    var r := Open(face, events, codes);
    RunTwo(r, [CLOSE], [SPACE]);
    assert [CLOSE] + [SPACE] == [CLOSE, SPACE];
    RunByte(r, CLOSE);
    RunByte(Step(r, Byte(CLOSE)), SPACE);
  }

  /** ") operator" and a blank */
  lemma RunShow(face: Option<Face>, events: seq<Event>, codes: seq<byte>, word: seq<byte>, blank: byte)
    requires Regular(word) && (blank == SPACE || blank == NEWLINE)
    ensures Run(Open(face, events, codes), Raw([CLOSE, SPACE] + (word + [blank])))
         == Execute(Closed(face, events).(operands := [Text(codes)]), word)
  {
    hide Run, Step, Execute;
    RunTwo(Open(face, events, codes), [CLOSE, SPACE], word + [blank]);
    RunClose(face, events, codes);
    RunOperator(Closed(face, events).(operands := [Text(codes)]), word, blank);
  }

  /** Showing in a face that is named, or in the one that is set. */
  lemma RunShowFace(face: Option<Face>, events: seq<Event>, codes: seq<byte>, f: Face, blank: byte)
    requires blank == SPACE || blank == NEWLINE
    ensures Run(Open(face, events, codes), Raw([CLOSE, SPACE] + (FaceName(f) + [blank])))
         == Closed(Some(f), events + Shown(Some(f), codes))
  {
    hide Run, Step, IsNumber;
    FaceNames(f);
    RunShow(face, events, codes, FaceName(f), blank);
  }

  lemma RunShowSet(f: Face, events: seq<Event>, codes: seq<byte>, blank: byte)
    requires blank == SPACE || blank == NEWLINE
    ensures Run(Open(Some(f), events, codes), Raw([CLOSE, SPACE] + ([UPPER_S] + [blank])))
         == Closed(Some(f), events + Shown(Some(f), codes))
  {
    hide Run, Step;
    RunShow(Some(f), events, codes, [UPPER_S], blank);
  }

  /** ") face n" or ") N" at the end of a line. */
  lemma RunLineFace(face: Option<Face>, events: seq<Event>, codes: seq<byte>, f: Face)
    ensures Run(Open(face, events, codes), Raw(([CLOSE, SPACE] + (FaceName(f) + [SPACE])) + [LOWER_N, NEWLINE]))
         == Closed(Some(f), events + Shown(Some(f), codes) + [Line])
  {
    hide Run, Step;
    RunTwo(Open(face, events, codes), [CLOSE, SPACE] + (FaceName(f) + [SPACE]), [LOWER_N, NEWLINE]);
    RunShowFace(face, events, codes, f, SPACE);
    assert [LOWER_N, NEWLINE] == [LOWER_N] + [NEWLINE];
    RunOperator(Closed(Some(f), events + Shown(Some(f), codes)), [LOWER_N], NEWLINE);
  }

  lemma RunLineSet(f: Face, events: seq<Event>, codes: seq<byte>)
    ensures Run(Open(Some(f), events, codes), Raw([CLOSE, SPACE] + ([UPPER_N] + [NEWLINE])))
         == Closed(Some(f), events + Shown(Some(f), codes) + [Line])
  {
    hide Run, Step;
    RunShow(Some(f), events, codes, [UPPER_N], NEWLINE);
  }

  /** "n T (": on to a column, and a new string. */
  lemma RunColumn(face: Option<Face>, events: seq<Event>, n: nat)
    ensures Run(Closed(face, events), Raw((Decimal(n) + [SPACE]) + ([UPPER_T] + [SPACE]) + [OPEN]))
         == Open(face, events + [Column(n)], [])
  {
    hide Run, Step, Decimal;
    var r := Closed(face, events);
    var r' := r.(operands := [Number(n)]);
    DecimalRoundTrip(n);
    RunTwo(r, (Decimal(n) + [SPACE]) + ([UPPER_T] + [SPACE]), [OPEN]);
    RunTwo(r, Decimal(n) + [SPACE], [UPPER_T] + [SPACE]);
    RunOperator(r, Decimal(n), SPACE);
    assert Execute(r, Decimal(n)) == r';
    RunOperator(r', [UPPER_T], SPACE);
    assert !IsDigit([UPPER_T][0]);
    assert [Number(n)][..0] == [];
    RunOpen(face, events + [Column(n)]);
  }

  /** Characters that stand for themselves in a string. */
  lemma RunPlain(face: Option<Face>, events: seq<Event>, codes: seq<byte>, c: byte)
    requires c != OPEN && c != CLOSE && c != BACKSLASH
    ensures Run(Open(face, events, codes), Raw([c])) == Open(face, events, codes + [c])
  {
    RunByte(Open(face, events, codes), c);
  }

  lemma RunEscaped(face: Option<Face>, events: seq<Event>, codes: seq<byte>, c: byte)
    requires c == OPEN || c == CLOSE || c == BACKSLASH
    ensures Run(Open(face, events, codes), Raw([BACKSLASH, c])) == Open(face, events, codes + [c])
  {
    var r := Open(face, events, codes);
    assert [BACKSLASH] + [c] == [BACKSLASH, c];
    RunTwo(r, [BACKSLASH], [c]);
    RunByte(r, BACKSLASH);
    RunByte(Step(r, Byte(BACKSLASH)), c);
  }

  // ----- octal escapes -----

  /** `%o`: as few digits as it takes. */
  function Octal(c: byte): (r: seq<byte>)
    ensures r != [] && forall k :: 0 <= k < |r| ==> IsOctal(r[k])
  {
    if c < 8 then [48 + c] else if c < 64 then [48 + c / 8, 48 + c % 8] else [48 + c / 64, 48 + c / 8 % 8, 48 + c % 8]
  }

  /** From 0100 on there are three digits, and the escape stands for its character whatever follows. */
  lemma RunOctal(face: Option<Face>, events: seq<Event>, codes: seq<byte>, c: byte)
    requires c >= 64
    ensures Run(Open(face, events, codes), Raw([BACKSLASH] + Octal(c))) == Open(face, events, codes + [c])
  {
    OctalDigits(c);
    RunDigits(Open(face, events, codes), codes, c / 64, c / 8 % 8, c % 8);
  }

  lemma RunDigits(r: Reader, codes: seq<byte>, a: byte, b: byte, d: byte)
    requires r.mode == InString(0, codes) && a < 8 && b < 8 && d < 8
    ensures Run(r, Raw([BACKSLASH] + [48 + a, 48 + b, 48 + d])) ==
      r.(mode := InString(0, codes + [(8 * (8 * a + b) + d) % 256]))
  {
    FourBytes(BACKSLASH, 48 + a, 48 + b, 48 + d);
    OctalSteps(r, codes, a, b, d);
    hide Run, Step, Raw;
    RunTwo(r, ([BACKSLASH] + [48 + a]) + [48 + b], [48 + d]);
    RunTwo(r, [BACKSLASH] + [48 + a], [48 + b]);
    RunTwo(r, [BACKSLASH], [48 + a]);
    RunByte(r, BACKSLASH);
    RunByte(r.(mode := AfterBackslash(0, codes)), 48 + a);
    RunByte(r.(mode := InOctal(0, codes, a, 1)), 48 + b);
    RunByte(r.(mode := InOctal(0, codes, 8 * a + b, 2)), 48 + d);
  }

  lemma OctalDigits(c: byte)
    requires c >= 64
    ensures Octal(c) == [48 + c / 64, 48 + c / 8 % 8, 48 + c % 8]
    ensures (8 * (8 * (c / 64) + c / 8 % 8) + c % 8) % 256 == c
  {
    var q := c / 8;
    assert c == 8 * q + c % 8 && q == 8 * (q / 8) + q % 8;
    assert q / 8 == c / 64;
  }

  lemma FourBytes(x: byte, a: byte, b: byte, d: byte)
    ensures [x] + [a, b, d] == (([x] + [a]) + [b]) + [d]
  {
  }

  lemma OctalSteps(r: Reader, codes: seq<byte>, a: byte, b: byte, d: byte)
    requires r.mode == InString(0, codes) && a < 8 && b < 8 && d < 8
    ensures Step(r, Byte(BACKSLASH)) == r.(mode := AfterBackslash(0, codes))
    ensures Step(r.(mode := AfterBackslash(0, codes)), Byte(48 + a)) == r.(mode := InOctal(0, codes, a, 1))
    ensures Step(r.(mode := InOctal(0, codes, a, 1)), Byte(48 + b)) == r.(mode := InOctal(0, codes, 8 * a + b, 2))
    ensures Step(r.(mode := InOctal(0, codes, 8 * a + b, 2)), Byte(48 + d)) ==
      r.(mode := InString(0, codes + [(8 * (8 * a + b) + d) % 256]))
  {
  }

  /** Below 0100 the escape is read back exactly when no octal digit follows it. */
  lemma RunOctalShort(face: Option<Face>, events: seq<Event>, codes: seq<byte>, c: byte, next: byte)
    requires c < 64
    ensures var read := Run(Open(face, events, codes), Raw(([BACKSLASH] + Octal(c)) + [next]));
      var meant := Run(Open(face, events, codes + [c]), Raw([next]));
      read == meant <==> !IsOctal(next)
  {
    hide Run;
    var r := Open(face, events, codes);
    RunTwo(r, [BACKSLASH] + Octal(c), [next]);
    RunTwo(r, [BACKSLASH], Octal(c));
    RunByte(r, BACKSLASH);
    var r1 := Step(r, Byte(BACKSLASH));
    if c < 8 {
      RunByte(r1, 48 + c);
      RunByte(Step(r1, Byte(48 + c)), next);
    } else {
      assert Octal(c) == [48 + c / 8] + [48 + c % 8];
      RunTwo(r1, [48 + c / 8], [48 + c % 8]);
      RunByte(r1, 48 + c / 8);
      var r2 := Step(r1, Byte(48 + c / 8));
      RunByte(r2, 48 + c % 8);
      RunByte(Step(r2, Byte(48 + c % 8)), next);
    }
    RunByte(Open(face, events, codes + [c]), next);
    if IsOctal(next) {
      assert |codes + [c] + [next]| == |codes| + 2;
    }
  }
}
