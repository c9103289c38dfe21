/** How a character is made visible: as itself, or as a few printable characters; and how wide that is. */
module Glyphs {
  import opened Bytes
  import opened PostScript

  datatype Format = OctalForm | Hexa | QuestionMark | SpaceForm | Caret | Emacs

  /** The width of each character in each face; none means that the font has no such character. */
  type Widths = (Face, byte) -> nat

  const MINUS: byte := 45
  const QUESTION: byte := 63
  const UPPER_C: byte := 67
  const UPPER_M: byte := 77
  const CIRCUMFLEX: byte := 94
  const LOWER_X: byte := 120

  /** Fonts as a2ps meets them: every printable ASCII character has a width, no control character has. */
  ghost predicate Usual(w: Widths) {
    forall f: Face, c: byte :: (32 <= c < 127 ==> w(f, c) > 0) && (c < 32 || c == 127 ==> w(f, c) == 0)
  }

  predicate Visible(w: Widths, f: Face, c: byte) {
    32 <= c < 127 || (w(f, c) != 0 && c != 127)
  }

  /** Three octal digits. */
  function Octal3(c: byte): seq<byte> {
    [48 + c / 64, 48 + c / 8 % 8, 48 + c % 8]
  }

  function HexDigit(n: byte): byte
    requires n < 16
  {
    if n < 10 then 48 + n else 87 + n
  }

  function Hex2(c: byte): seq<byte> {
    [HexDigit(c / 16), HexDigit(c % 16)]
  }

  /** The characters that stand for one that cannot be printed. */
  function Substitute(format: Format, c: byte): (r: seq<byte>)
    ensures r != []
  {
    match format
    case OctalForm => [BACKSLASH] + Octal3(c)
    case Hexa => [BACKSLASH, LOWER_X] + Hex2(c)
    case QuestionMark => [QUESTION]
    case SpaceForm => [SPACE]
    case Caret =>
      var low: byte := c % 128;
      (if c > 127 then [UPPER_M, MINUS] else [])
      + (if low < 32 then [CIRCUMFLEX, low + 64] else if low == 127 then [CIRCUMFLEX, QUESTION] else [low])
    case Emacs =>
      var low: byte := c % 128;
      (if c > 127 then [UPPER_M, MINUS] else [])
      + (if low < 32 then [UPPER_C, MINUS, low + 64] else if low == 127 then [UPPER_C, MINUS, QUESTION] else [low])
  }

  /** The glyphs a character is printed as. */
  function Expand(w: Widths, format: Format, f: Face, c: byte): (r: seq<byte>)
    ensures r != []
  {
    if Visible(w, f, c) then [c] else Substitute(format, c)
  }

  /** What the font has is printed as it is, and nothing else is. */
  lemma PrintedAsItself(w: Widths, format: Format, f: Face, c: byte)
    requires Usual(w)
    ensures Expand(w, format, f, c) == if w(f, c) > 0 then [c] else Substitute(format, c)
  {
    NoneBelow(w, f, c);
    hide Usual;
  }

  function TotalWidth(w: Widths, f: Face, codes: seq<byte>): nat {
    if codes == [] then 0 else TotalWidth(w, f, codes[..|codes| - 1]) + w(f, codes[|codes| - 1])
  }

  /** Of up to five glyphs. */
  lemma {:induction false} TotalFew(w: Widths, f: Face, codes: seq<byte>)
    ensures |codes| == 0 ==> TotalWidth(w, f, codes) == 0
    ensures |codes| == 1 ==> TotalWidth(w, f, codes) == w(f, codes[0])
    ensures |codes| == 2 ==> TotalWidth(w, f, codes) == w(f, codes[0]) + w(f, codes[1])
    ensures |codes| == 3 ==> TotalWidth(w, f, codes) == w(f, codes[0]) + w(f, codes[1]) + w(f, codes[2])
    ensures |codes| == 4 ==>
      TotalWidth(w, f, codes) == w(f, codes[0]) + w(f, codes[1]) + w(f, codes[2]) + w(f, codes[3])
    ensures |codes| == 5 ==>
      TotalWidth(w, f, codes) == w(f, codes[0]) + w(f, codes[1]) + w(f, codes[2]) + w(f, codes[3]) + w(f, codes[4])
    decreases |codes|
  {
    var n := |codes|;
    TotalOf(w, f, codes);
    hide TotalWidth;
    if n > 0 {
      var init := codes[..n - 1];
      TotalFew(w, f, init);
      assert forall k :: 0 <= k < n - 1 ==> init[k] == codes[k];
    }
  }

  lemma TotalOf(w: Widths, f: Face, codes: seq<byte>)
    ensures codes == [] ==> TotalWidth(w, f, codes) == 0
    ensures codes != [] ==> TotalWidth(w, f, codes) == TotalWidth(w, f, codes[..|codes| - 1]) + w(f, codes[|codes| - 1])
  {
  }

  // ----- what stands for a character tells which it is -----

  /** The value of a digit; 36 for what is none. */
  function DigitValue(b: byte): nat {
    if '0' as int <= b <= '9' as int then b - '0' as int
    else if 'a' as int <= b <= 'z' as int then b - 'a' as int + 10
    else 36
  }

  /** Digits by their places. */
  function ValueIn(radix: nat, digits: seq<byte>): nat {
    if digits == [] then 0
    else radix * ValueIn(radix, digits[..|digits| - 1]) + DigitValue(digits[|digits| - 1])
  }

  predicate DigitsIn(radix: nat, digits: seq<byte>) {
    forall k :: 0 <= k < |digits| ==> DigitValue(digits[k]) < radix
  }

  /** The character meant where `sign` goes before a control character, named by the one 64 above it or, for 127, by a
      question mark; and `M-` before one that is 128 above what follows. */
  function Denoted(sign: seq<byte>, s: seq<byte>): Option<int> {
    if |s| > 2 && s[..2] == Ascii("M-") then
      var rest := Denoted(sign, s[2..]);
      if rest.Some? then Some(rest.value + 128) else None
    else if |s| == |sign| + 1 && s[..|sign|] == sign then
      Some(if s[|sign|] == '?' as int then 127 else s[|sign|] as int - 64)
    else if |s| == 1 then Some(s[0])
    else None
  }

  lemma ValueOfTwo(radix: nat, a: byte, b: byte)
    ensures ValueIn(radix, [a, b]) == radix * DigitValue(a) + DigitValue(b)
  {
    assert [a, b][..1] == [a] && [a][..0] == [];
    assert ValueIn(radix, []) == 0 && radix * 0 == 0;
    assert ValueIn(radix, [a]) == radix * ValueIn(radix, []) + DigitValue(a);
  }

  lemma ValueOfThree(radix: nat, a: byte, b: byte, c: byte)
    ensures ValueIn(radix, [a, b, c]) == radix * (radix * DigitValue(a) + DigitValue(b)) + DigitValue(c)
  {
    ValueOfTwo(radix, a, b);
    assert [a, b, c][..2] == [a, b];
  }

  /** Whatever cannot be printed is a number in so many digits, or a name that means just that character. */
  lemma SubstituteMeans(c: byte)
    ensures var s := Substitute(OctalForm, c);
      |s| == 4 && s[..1] == Ascii("\\") && DigitsIn(8, s[1..]) && ValueIn(8, s[1..]) == c
    ensures var s := Substitute(Hexa, c);
      |s| == 4 && s[..2] == Ascii("\\x") && DigitsIn(16, s[2..]) && ValueIn(16, s[2..]) == c
    ensures Denoted(Ascii("^"), Substitute(Caret, c)) == Some(c)
    ensures Denoted(Ascii("C-"), Substitute(Emacs, c)) == Some(c)
    ensures Substitute(QuestionMark, c) == Ascii("?") && Substitute(SpaceForm, c) == Ascii(" ")
  {
    OctalMeans(c);
    HexaMeans(c);
    CaretMeans(c);
    EmacsMeans(c);
  }

  lemma OctalMeans(c: byte)
    ensures var s := Substitute(OctalForm, c);
      |s| == 4 && s[..1] == Ascii("\\") && DigitsIn(8, s[1..]) && ValueIn(8, s[1..]) == c
  {
    var s := Substitute(OctalForm, c);
    assert s[1..] == Octal3(c);
    ValueOfThree(8, 48 + c / 64, 48 + c / 8 % 8, 48 + c % 8);
  }

  lemma HexaMeans(c: byte)
    ensures var s := Substitute(Hexa, c);
      |s| == 4 && s[..2] == Ascii("\\x") && DigitsIn(16, s[2..]) && ValueIn(16, s[2..]) == c
  {
    var s := Substitute(Hexa, c);
    assert s[2..] == Hex2(c);
    ValueOfTwo(16, HexDigit(c / 16), HexDigit(c % 16));
  }

  lemma CaretMeans(c: byte)
    ensures Denoted(Ascii("^"), Substitute(Caret, c)) == Some(c)
  {
    if c > 127 {
      assert Substitute(Caret, c)[2..] == Substitute(Caret, c % 128);
    }
  }

  lemma EmacsMeans(c: byte)
    ensures Denoted(Ascii("C-"), Substitute(Emacs, c)) == Some(c)
  {
    var s := Substitute(Emacs, c);
    if c > 127 {
      EmacsLow(c % 128);
      assert s[..2] == Ascii("M-") && s[2..] == Substitute(Emacs, c % 128);
    } else {
      EmacsLow(c);
    }
  }

  lemma EmacsLow(c: byte)
    requires c < 128
    ensures Denoted(Ascii("C-"), Substitute(Emacs, c)) == Some(c)
  {
    var s, sign := Substitute(Emacs, c), Ascii("C-");
    if c < 32 || c == 127 {
      assert s[..2] == sign && s[0] != Ascii("M-")[0];
    }
  }

  /** So in four of the formats no two characters are taken for each other. */
  lemma SubstitutesDiffer(format: Format, c: byte, d: byte)
    requires !format.QuestionMark? && !format.SpaceForm? && c != d
    ensures Substitute(format, c) != Substitute(format, d)
  {
    SubstituteMeans(c);
    SubstituteMeans(d);
  }

  // ----- escapes -----

  /** As part of a string, `bytes` stand for `codes`. */
  ghost predicate Reads(bytes: seq<byte>, codes: seq<byte>) {
    forall face: Option<Face>, events: seq<Event>, before: seq<byte> ::
      Run(Open(face, events, before), Raw(bytes)) == Open(face, events, before + codes)
  }

  lemma ReadsNothing()
    ensures Reads([], [])
  {
    forall before: seq<byte>
      ensures before + [] == before
    {
    }
    assert Raw([]) == [];
  }

  lemma ReadsConcat(a: seq<byte>, x: seq<byte>, b: seq<byte>, y: seq<byte>)
    requires Reads(a, x) && Reads(b, y)
    ensures Reads(a + b, x + y)
  {
    hide Run;
    forall face: Option<Face>, events: seq<Event>, before: seq<byte>
      ensures Run(Open(face, events, before), Raw(a + b)) == Open(face, events, before + (x + y))
    {
      RunTwo(Open(face, events, before), a, b);
      assert (before + x) + y == before + (x + y);
    }
  }

  function Protected(c: byte): seq<byte> {
    if c == OPEN || c == CLOSE || c == BACKSLASH then [BACKSLASH, c] else [c]
  }

  lemma ReadsProtected(c: byte)
    ensures Reads(Protected(c), [c])
  {
    forall face: Option<Face>, events: seq<Event>, before: seq<byte>
      ensures Run(Open(face, events, before), Raw(Protected(c))) == Open(face, events, before + [c])
    {
      if c == OPEN || c == CLOSE || c == BACKSLASH {
        RunEscaped(face, events, before, c);
      } else {
        RunPlain(face, events, before, c);
      }
    }
  }

  lemma ReadsOctal(c: byte)
    requires c >= 64
    ensures Reads([BACKSLASH] + Octal(c), [c])
  {
    forall face: Option<Face>, events: seq<Event>, before: seq<byte> {
      RunOctal(face, events, before, c);
    }
  }

  lemma {:induction false} ReadsPlain(bytes: seq<byte>)
    requires forall k :: 0 <= k < |bytes| ==> bytes[k] != OPEN && bytes[k] != CLOSE && bytes[k] != BACKSLASH
    ensures Reads(bytes, bytes)
  {
    if bytes == [] {
      ReadsNothing();
    } else {
      var init, last := bytes[..|bytes| - 1], bytes[|bytes| - 1];
      ReadsPlain(init);
      ReadsProtected(last);
      ReadsConcat(init, init, [last], [last]);
      assert init + [last] == bytes;
    }
  }

  /** Appends a character to what is to be part of a string. */
  method PutProtected(res: seq<byte>, c: byte, ghost codes: seq<byte>) returns (res': seq<byte>)
    requires Reads(res, codes)
    ensures Reads(res', codes + [c])
  {
    ReadsProtected(c);
    ReadsConcat(res, codes, Protected(c), [c]);
    res' := res;
    if c == OPEN || c == CLOSE || c == BACKSLASH {
      res' := res' + [BACKSLASH];
    }
    res' := res' + [c];
    assert res' == res + Protected(c);
  }

  method PutPlain(res: seq<byte>, more: seq<byte>, ghost codes: seq<byte>) returns (res': seq<byte>)
    requires Reads(res, codes)
    requires forall k :: 0 <= k < |more| ==> more[k] != OPEN && more[k] != CLOSE && more[k] != BACKSLASH
    ensures res' == res + more && Reads(res', codes + more)
  {
    ReadsPlain(more);
    ReadsConcat(res, codes, more, more);
    res' := res + more;
  }

  /** The text that shows `c`, and how many glyphs it makes. */
  method EscapeChar(w: Widths, format: Format, f: Face, c: byte) returns (res: seq<byte>, len: nat, nonprinting: bool)
    requires Usual(w)
    ensures Reads(res, Expand(w, format, f, c)) && len == |Expand(w, format, f, c)|
    ensures nonprinting <==> !Visible(w, f, c)
  {
    hide Reads, Usual;
    ReadsNothing();
    res := [];
    nonprinting := false;
    if 32 <= c < 127 {
      res := PutProtected(res, c, []);
      assert [] + [c] == [c];
      return res, 1, false;
    }
    NoneBelow(w, f, c);
    if w(f, c) != 0 && (127 < c || c < 32) {
      ReadsOctal(c);
      return [BACKSLASH] + Octal(c), 1, false;
    }
    nonprinting := true;
    len := 0;
    match format {
      case OctalForm =>
        ReadsProtected(BACKSLASH);
        res := PutPlain([BACKSLASH, BACKSLASH], Octal3(c), [BACKSLASH]);
        len := 4;
      case Hexa =>
        ReadsProtected(BACKSLASH);
        assert [BACKSLASH] + ([LOWER_X] + Hex2(c)) == [BACKSLASH, LOWER_X] + Hex2(c);
        res := PutPlain([BACKSLASH, BACKSLASH], [LOWER_X] + Hex2(c), [BACKSLASH]);
        len := 4;
      case QuestionMark =>
        assert [] + [QUESTION] == [QUESTION];
        res := PutPlain(res, [QUESTION], []);
        len := 1;
      case SpaceForm =>
        assert [] + [SPACE] == [SPACE];
        res := PutPlain(res, [SPACE], []);
        len := 1;
      case Caret => res, len := CaretForm(c);
      case Emacs => res, len := EmacsForm(c);
    }
  }

  method CaretForm(c: byte) returns (res: seq<byte>, len: nat)
    requires c < 32 || 127 <= c
    ensures Reads(res, Substitute(Caret, c)) && len == |Substitute(Caret, c)|
  {
    hide Reads;
    ReadsNothing();
    res, len := [], 0;
    var c': byte := c;
    ghost var codes: seq<byte> := [];
    if 127 < c {
      res := PutPlain(res, [UPPER_M, MINUS], codes);
      len := len + 2;
      codes := codes + [UPPER_M, MINUS];
      c' := c % 128;
    }
    assert codes == if c > 127 then [UPPER_M, MINUS] else [];
    if c' < 32 {
      res := PutPlain(res, [CIRCUMFLEX], codes);
      len := len + 2;
      res := PutProtected(res, c' + 64, codes + [CIRCUMFLEX]);
      assert codes + [CIRCUMFLEX] + [c' + 64] == codes + [CIRCUMFLEX, c' + 64];
    } else if c' == 127 {
      res := PutPlain(res, [CIRCUMFLEX, QUESTION], codes);
      len := len + 2;
    } else {
      res := PutProtected(res, c', codes);
      len := len + 1;
    }
  }

  method EmacsForm(c: byte) returns (res: seq<byte>, len: nat)
    requires c < 32 || 127 <= c
    ensures Reads(res, Substitute(Emacs, c)) && len == |Substitute(Emacs, c)|
  {
    hide Reads;
    ReadsNothing();
    res, len := [], 0;
    var c': byte := c;
    ghost var codes: seq<byte> := [];
    if 127 < c {
      res := PutPlain(res, [UPPER_M, MINUS], codes);
      len := len + 2;
      codes := codes + [UPPER_M, MINUS];
      c' := c % 128;
    }
    assert codes == if c > 127 then [UPPER_M, MINUS] else [];
    if c' < 32 {
      res := PutPlain(res, [UPPER_C, MINUS], codes);
      len := len + 3;
      res := PutProtected(res, c' + 64, codes + [UPPER_C, MINUS]);
      assert codes + [UPPER_C, MINUS] + [c' + 64] == codes + [UPPER_C, MINUS, c' + 64];
    } else if c' == 127 {
      res := PutPlain(res, [UPPER_C, MINUS, QUESTION], codes);
      len := len + 3;
    } else {
      res := PutProtected(res, c', codes);
      len := len + 1;
    }
  }

  lemma NoneBelow(w: Widths, f: Face, c: byte)
    requires Usual(w)
    ensures c < 32 || c == 127 ==> w(f, c) == 0
    ensures 32 <= c < 127 ==> w(f, c) > 0
  {
  }

  /** The width of a character, with whatever stands for it. */
  method CharWidth(w: Widths, format: Format, f: Face, c: byte) returns (wx: nat)
    requires Usual(w)
    ensures wx == TotalWidth(w, f, Expand(w, format, f, c))
  {
    NoneBelow(w, f, c);
    TotalFew(w, f, Expand(w, format, f, c));
    hide Usual, TotalWidth;
    wx := w(f, c);
    if wx != 0 {
      return;
    }
    match format {
      case Hexa =>
        return w(f, BACKSLASH) + w(f, LOWER_X) + w(f, HexDigit(c / 16)) + w(f, HexDigit(c % 16));
      case OctalForm =>
        return w(f, BACKSLASH) + w(f, 48 + c / 64) + w(f, 48 + c / 8 % 8) + w(f, 48 + c % 8);
      case SpaceForm =>
        return w(f, SPACE);
      case QuestionMark =>
        return w(f, QUESTION);
      case Caret => wx := CaretWidth(w, f, c);
      case Emacs => wx := EmacsWidth(w, f, c);
    }
  }

  method CaretWidth(w: Widths, f: Face, c: byte) returns (wx: nat)
    ensures wx == TotalWidth(w, f, Substitute(Caret, c))
  {
    TotalFew(w, f, Substitute(Caret, c));
    hide TotalWidth;
    var c': byte := c;
    wx := 0;
    if 127 < c {
      wx := wx + w(f, UPPER_M) + w(f, MINUS);
      c' := c % 128;
    }
    if c' == 127 {
      wx := wx + w(f, CIRCUMFLEX) + w(f, QUESTION);
    } else if c' < 32 {
      wx := wx + w(f, CIRCUMFLEX) + w(f, c' + 64);
    } else {
      wx := wx + w(f, c');
    }
  }

  method EmacsWidth(w: Widths, f: Face, c: byte) returns (wx: nat)
    ensures wx == TotalWidth(w, f, Substitute(Emacs, c))
  {
    TotalFew(w, f, Substitute(Emacs, c));
    hide TotalWidth;
    var c': byte := c;
    wx := 0;
    if 127 < c {
      wx := wx + w(f, UPPER_M) + w(f, MINUS);
      c' := c % 128;
    }
    if c' == 127 {
      wx := wx + w(f, UPPER_C) + w(f, MINUS) + w(f, QUESTION);
    } else if c' < 32 {
      wx := wx + w(f, UPPER_C) + w(f, MINUS) + w(f, c' + 64);
    } else {
      wx := wx + w(f, c');
    }
  }
}
