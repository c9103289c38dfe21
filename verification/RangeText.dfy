/** The text of a page range: entries with separators between them. */
module RangeText {
  import opened Bytes
  import opened PostScript
  import opened PageRange

  // ----- separators -----

  predicate IsSeparator(b: byte) {
    b == ',' as int || b == ' ' as int || b == '\t' as int
  }

  /** Words with a gap before each and one at the end; only the first and the last may be empty. */
  ghost predicate Separated(words: seq<seq<byte>>, gaps: seq<seq<byte>>) {
    && |gaps| == |words| + 1
    && (forall k, i :: 0 <= k < |gaps| && 0 <= i < |gaps[k]| ==> IsSeparator(gaps[k][i]))
    && (forall k, i :: 0 <= k < |words| && 0 <= i < |words[k]| ==> !IsSeparator(words[k][i]))
    && (forall k :: 0 <= k < |words| ==> words[k] != []) && forall k :: 0 < k < |words| ==> gaps[k] != []
  }

  function Woven(words: seq<seq<byte>>, gaps: seq<seq<byte>>): seq<byte>
    requires |gaps| == |words| + 1
  {
    gaps[0] + if words == [] then [] else words[0] + Woven(words[1..], gaps[1..])
  }

  /** Every text is made up of its words, whatever separators there are between them. */
  lemma {:induction false} TokensApart(text: seq<byte>) returns (gaps: seq<seq<byte>>)
    ensures Separated(Tokens(text), gaps) && Woven(Tokens(text), gaps) == text
    ensures text != [] && !IsSeparator(text[0]) ==> gaps[0] == []
    ensures text != [] && IsSeparator(text[0]) ==> gaps[0] != []
    decreases |text|
  {
    if text == [] {
      gaps := [[]];
    } else {
      hide Separated, Woven;
      if IsDelimiter(text[0]) {
        var rest := TokensApart(text[1..]);
        gaps := Widened(text, rest);
      } else {
        var n := WordLength(text);
        var rest := TokensApart(text[n..]);
        gaps := Preceded(text, n, rest);
      }
    }
  }

  lemma Widened(text: seq<byte>, rest: seq<seq<byte>>) returns (gaps: seq<seq<byte>>)
    requires text != [] && IsDelimiter(text[0])
    requires Separated(Tokens(text[1..]), rest) && Woven(Tokens(text[1..]), rest) == text[1..]
    ensures Separated(Tokens(text), gaps) && Woven(Tokens(text), gaps) == text && gaps[0] != []
  {
    WiderGap(Tokens(text), rest, text[0]);
    hide Separated, Woven, Tokens;
    gaps := [[text[0]] + rest[0]] + rest[1..];
  }

  lemma Preceded(text: seq<byte>, n: nat, rest: seq<seq<byte>>) returns (gaps: seq<seq<byte>>)
    requires text != [] && !IsDelimiter(text[0]) && n == WordLength(text)
    requires Separated(Tokens(text[n..]), rest) && Woven(Tokens(text[n..]), rest) == text[n..]
    requires text[n..] != [] ==> IsSeparator(text[n..][0]) ==> rest[0] != []
    ensures Separated(Tokens(text), gaps) && Woven(Tokens(text), gaps) == text && gaps[0] == []
  {
    assert Tokens(text) == [text[..n]] + Tokens(text[n..]);
    assert text[n..] == [] ==> Tokens(text[n..]) == [];
    hide Tokens, WordLength;
    WordBefore(Tokens(text[n..]), rest, text[..n], text[n..]);
    hide Separated, Woven;
    gaps := [[]] + rest;
    assert text[..n] + text[n..] == text;
  }

  lemma WiderGap(words: seq<seq<byte>>, gaps: seq<seq<byte>>, b: byte)
    requires Separated(words, gaps) && IsSeparator(b)
    ensures var gaps' := [[b] + gaps[0]] + gaps[1..];
      Separated(words, gaps') && Woven(words, gaps') == [b] + Woven(words, gaps)
  {
    var gaps' := [[b] + gaps[0]] + gaps[1..];
    assert gaps'[1..] == gaps[1..];
    assert forall k :: 0 < k < |gaps| ==> gaps'[k] == gaps[k];
  }

  lemma WordBefore(words: seq<seq<byte>>, gaps: seq<seq<byte>>, word: seq<byte>, rest: seq<byte>)
    requires Separated(words, gaps) && word != [] && forall i :: 0 <= i < |word| ==> !IsSeparator(word[i])
    requires words != [] ==> gaps[0] != []
    ensures Separated([word] + words, [[]] + gaps) && Woven([word] + words, [[]] + gaps) == word + Woven(words, gaps)
  {
    var words', gaps' := [word] + words, [[]] + gaps;
    assert words'[1..] == words && gaps'[1..] == gaps;
    assert forall k :: 0 < k < |words'| ==> words'[k] == words[k - 1];
    assert forall k :: 0 < k < |gaps'| ==> gaps'[k] == gaps[k - 1];
  }

  // ----- entries -----

  /** A page; pages between two bounds, either of which may be missing; the table of contents, the number before which
      is passed over. */
  datatype Entry =
    | Page(digits: seq<byte>)
    | Bounds(min: seq<byte>, colon: bool, max: seq<byte>)
    | Contents(ignored: seq<byte>)

  predicate AllDigits(s: seq<byte>) {
    forall k :: 0 <= k < |s| ==> '0' as int <= s[k] <= '9' as int
  }

  predicate Formed(e: Entry) {
    match e
    case Page(digits) => AllDigits(digits)
    case Bounds(min, _, max) => AllDigits(min) && AllDigits(max)
    case Contents(ignored) => AllDigits(ignored)
  }

  function Spell(e: Entry): seq<byte> {
    match e
    case Page(digits) => digits
    case Bounds(min, colon, max) => min + Ascii(if colon then ":" else "-") + max
    case Contents(ignored) => ignored + Ascii("toc")
  }

  /** A missing bound is zero. Bounds must not be the wrong way round. */
  function Meaning(e: Entry): Read
    requires Formed(e)
  {
    match e
    case Page(digits) => Pages(Interval(NumberOf(digits), NumberOf(digits)))
    case Bounds(min, _, max) =>
      if 0 < NumberOf(max) < NumberOf(min) then Invalid else Pages(Interval(NumberOf(min), NumberOf(max)))
    case Contents(_) => Toc
  }

  lemma DigitsApart(digits: seq<byte>, rest: seq<byte>)
    requires AllDigits(digits) && (rest != [] ==> !IsDigit(rest[0]))
    ensures DigitCount(digits + rest) == |digits|
    ensures (digits + rest)[..|digits|] == digits && (digits + rest)[|digits|..] == rest
  {
    CountDigits(digits, rest);
  }

  lemma Signs()
    ensures Ascii(":") == [COLON] && Ascii("-") == [DASH] && Ascii("toc") == TOC
  {
  }

  /** What is written is read as it is meant. */
  lemma EntryRead(e: Entry)
    requires Formed(e)
    ensures ReadToken(Spell(e)) == Meaning(e)
  {
    Signs();
    match e
    case Page(digits) =>
      DigitsApart(digits, []);
      assert digits + [] == digits;
    case Bounds(min, colon, max) => BoundsRead(min, if colon then COLON else DASH, max);
    case Contents(ignored) => DigitsApart(ignored, TOC);
  }

  lemma BoundsRead(min: seq<byte>, sign: byte, max: seq<byte>)
    requires AllDigits(min) && AllDigits(max) && (sign == COLON || sign == DASH)
    ensures ReadToken(min + [sign] + max) ==
      if 0 < NumberOf(max) < NumberOf(min) then Invalid else Pages(Interval(NumberOf(min), NumberOf(max)))
  {
    hide DigitCount, NumberOf, AllDigits, IsDigit;
    var token, rest := min + [sign] + max, [sign] + max;
    SignNoDigit(sign);
    Associative(min, [sign], max);
    DigitsApart(min, rest);
    DigitsApart(max, []);
    assert max + [] == max && rest[1..] == max && max[..|max|] == max;
    assert token[..|min|] == min && token[|min|..] == rest;
  }

  lemma SignNoDigit(sign: byte)
    requires sign == COLON || sign == DASH
    ensures !IsDigit(sign)
  {
  }

  /** The pages an entry selects. Pages are counted from one. */
  lemma EntrySelects(e: Entry, num: nat)
    requires Formed(e) && ReadToken(Spell(e)).Pages? && num >= 1
    ensures IsIn(ReadToken(Spell(e)).interval, num) <==>
      match e
      case Page(digits) => num == NumberOf(digits)
      case Bounds(min, _, max) =>
        && (NumberOf(min) != 0 || NumberOf(max) != 0)
        && NumberOf(min) <= num && (NumberOf(max) != 0 ==> num <= NumberOf(max))
      case Contents(_) => false
  {
    EntryRead(e);
    hide ReadToken, Spell, NumberOf;
  }

  /** Nothing else is read. */
  lemma EntryOnly(token: seq<byte>) returns (e: Entry)
    requires ReadToken(token) != Invalid
    ensures Formed(e) && Spell(e) == token
  {
    var n := DigitCount(token);
    var digits, rest := token[..n], token[n..];
    assert digits + rest == token && AllDigits(digits);
    Signs();
    hide Ascii, NumberOf, DigitCount, IsDigit, AllDigits;
    if rest == [] {
      assert digits == token;
      e := Page(digits);
    } else if rest[0] == COLON || rest[0] == DASH {
      FirstApart(digits, rest);
      e := Bounds(digits, rest[0] == COLON, rest[1..]);
      AllCounted(rest[1..]);
    } else {
      e := Contents(digits);
    }
  }

  lemma FirstApart(start: seq<byte>, rest: seq<byte>)
    requires rest != []
    ensures start + [rest[0]] + rest[1..] == start + rest
  {
  }

  lemma AllCounted(s: seq<byte>)
    ensures DigitCount(s) == |s| ==> AllDigits(s)
  {
  }
}
