/** Style sheets: cutting lines into tokens, each with the text it covers and the way it is to look. */
module Tokenizer {
  import opened Bytes
  import opened PostScript

  type Text = seq<byte>

  datatype Rule = Rule(word: Text, rhs: nat)
  datatype RegexRule = RegexRule(regex: nat, rhs: nat)

  /** Words looked up by their first character, and regular expressions. */
  datatype Words = Words(table: byte -> seq<Rule>, regexps: seq<RegexRule>)

  datatype Opening = Word(word: Rule) | Pattern(regex: RegexRule)

  datatype Sequence = Sequence(open: Opening, face: Face, exceptions: Words, close: Words)

  datatype Sheet = Sheet(alpha1: byte -> bool, alpha2: byte -> bool, keywords: Words, operators: Words,
                         sequences: seq<Sequence>)

  /** `re_match`: the length of a match at a place in a text, -1 for none, -2 for an error. */
  type Matcher = (nat, Text, nat) -> int

  /** A line as it was read, and as patterns see it: the two may differ in case. */
  datatype TextLine = TextLine(content: Text, value: Text)

  ghost predicate LineOk(l: TextLine) {
    |l.value| == |l.content|
  }

  /** Matches stay within the text. */
  ghost predicate Sound(m: Matcher) {
    forall r: nat, v: Text, c: nat :: c <= |v| ==> m(r, v, c) <= |v| - c
  }

  /** What a rule found: its right-hand side, and how much it covers. */
  datatype Hit = Miss | Hit(rhs: nat, length: nat)

  function CharAt(s: Text, i: nat): byte {
    if i < |s| then s[i] else 0
  }

  predicate HasPrefix(word: Text, value: Text, curr: nat) {
    curr + |word| <= |value| && value[curr..curr + |word|] == word
  }

  predicate WordHere(rule: Rule, value: Text, curr: nat, whole: bool, alphabet: byte -> bool) {
    HasPrefix(rule.word, value, curr) && (whole ==> !alphabet(CharAt(value, curr + |rule.word|)))
  }

  /** The last rule that applies. */
  function LastWord(rules: seq<Rule>, value: Text, curr: nat, whole: bool, alphabet: byte -> bool): (h: Hit)
    ensures h.Hit? ==> curr + h.length <= |value|
  {
    if rules == [] then Miss
    else
      var last := rules[|rules| - 1];
      if WordHere(last, value, curr, whole, alphabet) then Hit(last.rhs, |last.word|)
      else LastWord(rules[..|rules| - 1], value, curr, whole, alphabet)
  }

  function LastRegex(rules: seq<RegexRule>, m: Matcher, value: Text, curr: nat): Hit {
    if rules == [] then Miss
    else
      var last := rules[|rules| - 1];
      var n := m(last.regex, value, curr);
      if n >= 0 then Hit(last.rhs, n) else LastRegex(rules[..|rules| - 1], m, value, curr)
  }

  /** Words come before regular expressions. */
  function MatchWords(words: Words, m: Matcher, value: Text, curr: nat, whole: bool, alphabet: byte -> bool): Hit {
    var h := LastWord(words.table(CharAt(value, curr)), value, curr, whole, alphabet);
    if h.Hit? then h else LastRegex(words.regexps, m, value, curr)
  }

  function OpeningHit(o: Opening, m: Matcher, value: Text, curr: nat): Hit {
    match o
    case Word(rule) => if HasPrefix(rule.word, value, curr) then Hit(rule.rhs, |rule.word|) else Miss
    case Pattern(rule) => var n := m(rule.regex, value, curr); if n >= 0 then Hit(rule.rhs, n) else Miss
  }

  /** The last sequence that opens here, counted from one; none when zero. */
  function LastOpening(sequences: seq<Sequence>, m: Matcher, value: Text, curr: nat): (k: nat)
    ensures k <= |sequences|
  {
    if sequences == [] then 0
    else if OpeningHit(sequences[|sequences| - 1].open, m, value, curr).Hit? then |sequences|
    else LastOpening(sequences[..|sequences| - 1], m, value, curr)
  }

  /** The end of the word that starts at `curr`. */
  function WordEnd(sheet: Sheet, content: Text, curr: nat): (e: nat)
    requires curr < |content|
    ensures curr < e <= |content|
    decreases |content| - curr
  {
    if curr + 1 < |content| && sheet.alpha2(content[curr + 1]) then WordEnd(sheet, content, curr + 1) else curr + 1
  }

  lemma {:induction false} RegexWithin(rules: seq<RegexRule>, m: Matcher, value: Text, curr: nat)
    requires Sound(m) && curr <= |value|
    ensures LastRegex(rules, m, value, curr).Hit? ==> curr + LastRegex(rules, m, value, curr).length <= |value|
  {
    if rules != [] {
      RegexWithin(rules[..|rules| - 1], m, value, curr);
    }
  }

  // ----- tokens -----

  /** How a token looks: as its rule says, or simply in a face. */
  datatype Look = Rhs(id: nat) | InFace(face: Face)

  datatype Token = Token(start: nat, end: nat, look: Look)

  datatype Step = Step(token: Token, sequence: Option<Sequence>)

  const NO_ALPHABET: byte -> bool := _ => false

  /** The token at `curr`, when `sequence` is open: plain characters look like the open sequence, or
      else plain. */
  function Next(sheet: Sheet, m: Matcher, line: TextLine, curr: nat, sequence: Option<Sequence>): Step
    requires curr < |line.content|
  {
    if sequence.Some? then
      var s := sequence.value;
      var exception := MatchWords(s.exceptions, m, line.value, curr, false, NO_ALPHABET);
      var close := MatchWords(s.close, m, line.value, curr, false, NO_ALPHABET);
      if exception.Hit? then Step(Token(curr, curr + exception.length, Rhs(exception.rhs)), sequence)
      else if close.Hit? then Step(Token(curr, curr + close.length, Rhs(close.rhs)), None)
      else Step(Token(curr, curr + 1, InFace(s.face)), sequence)
    else
      var k := LastOpening(sheet.sequences, m, line.value, curr);
      var operator := MatchWords(sheet.operators, m, line.value, curr, false, NO_ALPHABET);
      if k > 0 then
        var h := OpeningHit(sheet.sequences[k - 1].open, m, line.value, curr);
        if h.Miss? then Step(Token(curr, curr + 1, InFace(Plain)), None)
        else Step(Token(curr, curr + h.length, Rhs(h.rhs)), Some(sheet.sequences[k - 1]))
      else if sheet.alpha1(line.content[curr]) then
        var keyword := MatchWords(sheet.keywords, m, line.value, curr, true, sheet.alpha2);
        if keyword.Hit? then Step(Token(curr, curr + keyword.length, Rhs(keyword.rhs)), None)
        else if operator.Hit? then Step(Token(curr, curr + operator.length, Rhs(operator.rhs)), None)
        else Step(Token(curr, WordEnd(sheet, line.content, curr), InFace(Plain)), None)
      else if operator.Hit? then Step(Token(curr, curr + operator.length, Rhs(operator.rhs)), None)
      else Step(Token(curr, curr + 1, InFace(Plain)), None)
  }

  lemma {:induction false} OpeningFound(sequences: seq<Sequence>, m: Matcher, value: Text, curr: nat)
    ensures var k := LastOpening(sequences, m, value, curr);
      k > 0 ==> OpeningHit(sequences[k - 1].open, m, value, curr).Hit?
  {
    if sequences != [] {
      OpeningFound(sequences[..|sequences| - 1], m, value, curr);
    }
  }

  /** A token begins where it should and stays in the line. */
  lemma NextWithin(sheet: Sheet, m: Matcher, line: TextLine, curr: nat, sequence: Option<Sequence>)
    requires Sound(m) && LineOk(line) && curr < |line.content|
    ensures var t := Next(sheet, m, line, curr, sequence).token; t.start == curr <= t.end <= |line.content|
  {
    hide LastWord, LastRegex;
    forall words: Words, whole: bool, alphabet: byte -> bool
      ensures var h := MatchWords(words, m, line.value, curr, whole, alphabet);
        h.Hit? ==> curr + h.length <= |line.value|
    {
      RegexWithin(words.regexps, m, line.value, curr);
    }
  }

  /** At the end of a line the next token starts the next line. */
  function StartOf(line: TextLine, curr: nat): nat {
    if curr >= |line.content| then 0 else curr
  }

  // ----- the reader -----

  class Reader {
    const sheet: Sheet
    const m: Matcher
    /** The lines still to be read, and the current one. */
    var input: seq<TextLine>
    var line: TextLine
    var curr: nat
    var sequence: Option<Sequence>
    /** The right-hand side shared by everything that is not matched by a rule, and whether its face
        must be made plain again. */
    var plainFace: Face
    var returnToPlain: bool
    /** The token: what register 0 covers, and its look. */
    var start: nat
    var end: nat
    var look: Look

    ghost predicate Valid()
      reads this
    {
      && Sound(m) && LineOk(line) && (forall k :: 0 <= k < |input| ==> LineOk(input[k]) && input[k].content != [])
      && curr <= |line.content|
      && (sequence.None? && !returnToPlain ==> plainFace == Plain)
    }

    constructor (sheet: Sheet, m: Matcher, input: seq<TextLine>)
      requires Sound(m) && forall k :: 0 <= k < |input| ==> LineOk(input[k]) && input[k].content != []
      ensures Valid() && this.sheet == sheet && this.m == m && this.input == input && line == TextLine([], [])
      ensures curr == 0 && sequence == None
    {
      this.sheet, this.m, this.input := sheet, m, input;
      line, curr, sequence, plainFace, returnToPlain := TextLine([], []), 0, None, Plain, false;
      start, end, look := 0, 0, InFace(Plain);
    }

    method TakeWord(length: nat, rhs: nat)
      modifies `start, `end, `look, `curr
      ensures start == old(curr) && end == old(curr) + length == curr && look == Rhs(rhs)
    {
      look := Rhs(rhs);
      start, end := curr, curr + length;
      curr := curr + length;
    }

    /** Words, the last definition first, then regular expressions, the last definition first. */
    method MatchRule(words: Words, whole: bool, alphabet: byte -> bool) returns (found: bool)
      requires LineOk(line)
      modifies `start, `end, `look, `curr
      ensures var h := MatchWords(words, m, line.value, old(curr), whole, alphabet);
        && (found <==> h.Hit?)
        && if found then start == old(curr) && end == curr == old(curr) + h.length && look == Rhs(h.rhs)
           else curr == old(curr)
    {
      var rules := words.table(CharAt(line.value, curr));
      var i := |rules|;
      assert rules[..i] == rules;
      while i > 0
        invariant 0 <= i <= |rules|
        invariant LastWord(rules, line.value, curr, whole, alphabet) ==
          LastWord(rules[..i], line.value, curr, whole, alphabet)
        invariant curr == old(curr)
      {
        i := i - 1;
        assert rules[..i + 1][..i] == rules[..i];
        if WordHere(rules[i], line.value, curr, whole, alphabet) {
          TakeWord(|rules[i].word|, rules[i].rhs);
          return true;
        }
      }
      i := |words.regexps|;
      assert words.regexps[..i] == words.regexps;
      while i > 0
        invariant 0 <= i <= |words.regexps|
        invariant LastRegex(words.regexps, m, line.value, curr) == LastRegex(words.regexps[..i], m, line.value, curr)
        invariant curr == old(curr)
      {
        i := i - 1;
        assert words.regexps[..i + 1][..i] == words.regexps[..i];
        var n := m(words.regexps[i].regex, line.value, curr);
        if n >= 0 {
          TakeWord(n, words.regexps[i].rhs);
          return true;
        }
      }
      found := false;
    }

    method MatchSequence() returns (found: Option<Sequence>)
      requires LineOk(line)
      modifies `start, `end, `look, `curr
      ensures var k := LastOpening(sheet.sequences, m, line.value, old(curr));
        && found == (if k == 0 then None else Some(sheet.sequences[k - 1]))
        && (k > 0 ==> var h := OpeningHit(sheet.sequences[k - 1].open, m, line.value, old(curr));
              h.Hit? && start == old(curr) && end == curr == old(curr) + h.length && look == Rhs(h.rhs))
        && (k == 0 ==> curr == old(curr))
    {
      var i := |sheet.sequences|;
      assert sheet.sequences[..i] == sheet.sequences;
      while i > 0
        invariant 0 <= i <= |sheet.sequences|
        invariant LastOpening(sheet.sequences, m, line.value, curr) ==
          LastOpening(sheet.sequences[..i], m, line.value, curr)
        invariant curr == old(curr)
      {
        i := i - 1;
        assert sheet.sequences[..i + 1][..i] == sheet.sequences[..i];
        match sheet.sequences[i].open {
          case Pattern(rule) =>
            var n := m(rule.regex, line.value, curr);
            if n >= 0 {
              TakeWord(n, rule.rhs);
              return Some(sheet.sequences[i]);
            }
          case Word(rule) =>
            if HasPrefix(rule.word, line.value, curr) {
              TakeWord(|rule.word|, rule.rhs);
              return Some(sheet.sequences[i]);
            }
        }
      }
      found := None;
    }

    /** A character, or a word, that no rule matches: it looks the way the shared right-hand side does. */
    method TakePlain(to': nat)
      requires curr < to'
      modifies `start, `end, `look, `curr
      ensures start == old(curr) && end == curr == to' && look == InFace(plainFace)
    {
      start := curr;
      curr := to';
      end := curr;
      look := InFace(plainFace);
    }

    method MatchWord()
      requires curr < |line.content|
      modifies `start, `end, `look, `curr, `plainFace
      ensures start == old(curr) && end == curr == WordEnd(sheet, line.content, old(curr)) && look == InFace(Plain)
      ensures plainFace == Plain
    {
      var p := curr + 1;
      while p < |line.content| && sheet.alpha2(line.content[p])
        invariant curr < p <= |line.content|
        invariant WordEnd(sheet, line.content, p - 1) == WordEnd(sheet, line.content, curr)
        modifies {}
      {
        p := p + 1;
      }
      plainFace := Plain;
      TakePlain(p);
    }

    /** The next token, if there is one: within the current line or else the next. */
    method GetToken() returns (n: nat)
      requires Valid()
      modifies this
      ensures n == 0 <==> old(curr == |line.content| && input == [])
      ensures n > 0 ==> Valid()
      ensures n > 0 && old(curr < |line.content|) ==> line == old(line) && input == old(input)
      ensures n > 0 && old(curr == |line.content|) ==> line == old(input)[0] && input == old(input)[1..]
      ensures n > 0 ==> curr == end
      ensures n > 0 ==>
        Step(Token(start, end, look), sequence) == Next(sheet, m, line, StartOf(old(line), old(curr)), old(sequence))
    {
      if curr >= |line.content| {
        if input == [] {
          line, curr, sequence, returnToPlain := TextLine([], []), 0, None, false;
          return 0;
        }
        line, input, curr := input[0], input[1..], 0;
      }
      hide Next, Sound;
      n := 1;
      if returnToPlain {
        returnToPlain := false;
        plainFace := Plain;
      }
      if sequence.Some? {
        InSequence();
      } else {
        OutOfSequence();
      }
    }

    /** Inside a sequence: exceptions to it, its end, or one more character in its face. */
    method InSequence()
      requires Valid() && curr < |line.content| && sequence.Some? && !returnToPlain
      modifies `start, `end, `look, `curr, `sequence, `plainFace, `returnToPlain
      ensures Valid() && curr == end
      ensures Step(Token(start, end, look), sequence) == Next(sheet, m, line, old(curr), old(sequence))
    {
      NextWithin(sheet, m, line, curr, sequence);
      hide MatchWords, WordEnd, LastOpening, OpeningHit, Sound;
      var done := MatchRule(sequence.value.exceptions, false, NO_ALPHABET);
      if done {
        return;
      }
      done := MatchRule(sequence.value.close, false, NO_ALPHABET);
      if done {
        returnToPlain := true;
        sequence := None;
        return;
      }
      plainFace := sequence.value.face;
      TakePlain(curr + 1);
    }

    /** Outside: the start of a sequence, a keyword or an operator, a whole word, or one more plain character. */
    method OutOfSequence()
      requires Valid() && curr < |line.content| && sequence.None? && !returnToPlain
      modifies `start, `end, `look, `curr, `sequence, `plainFace, `returnToPlain
      ensures Valid() && curr == end
      ensures Step(Token(start, end, look), sequence) == Next(sheet, m, line, old(curr), old(sequence))
    {
      NextWithin(sheet, m, line, curr, sequence);
      OpeningFound(sheet.sequences, m, line.value, curr);
      hide MatchWords, WordEnd, LastOpening, OpeningHit, Sound;
      sequence := MatchSequence();
      if sequence.Some? {
        return;
      }
      if sheet.alpha1(line.content[curr]) {
        var done := MatchRule(sheet.keywords, true, sheet.alpha2);
        if !done {
          done := MatchRule(sheet.operators, false, NO_ALPHABET);
        }
        if done {
          returnToPlain := true;
          return;
        }
        MatchWord();
        return;
      }
      var done := MatchRule(sheet.operators, false, NO_ALPHABET);
      if done {
        returnToPlain := true;
        return;
      }
      TakePlain(curr + 1);
    }
  }

  // ----- whole files -----

  ghost predicate WordsOk(w: Words) {
    forall c: byte, k :: 0 <= k < |w.table(c)| ==> w.table(c)[k].word != []
  }

  ghost predicate SequenceOk(s: Sequence) {
    WordsOk(s.exceptions) && WordsOk(s.close) && (s.open.Word? ==> s.open.word.word != [])
  }

  /** No rule covers nothing. */
  ghost predicate NeverEmpty(sheet: Sheet, m: Matcher) {
    && (forall r: nat, v: Text, c: nat :: m(r, v, c) != 0)
    && WordsOk(sheet.keywords) && WordsOk(sheet.operators)
    && (forall k :: 0 <= k < |sheet.sequences| ==> SequenceOk(sheet.sequences[k]))
  }

  lemma {:induction false} WordNotEmpty(rules: seq<Rule>, value: Text, curr: nat, whole: bool, alphabet: byte -> bool)
    requires forall k :: 0 <= k < |rules| ==> rules[k].word != []
    ensures LastWord(rules, value, curr, whole, alphabet).Hit? ==>
      LastWord(rules, value, curr, whole, alphabet).length > 0
  {
    if rules != [] {
      WordNotEmpty(rules[..|rules| - 1], value, curr, whole, alphabet);
    }
  }

  lemma {:induction false} RegexNotEmpty(rules: seq<RegexRule>, m: Matcher, value: Text, curr: nat)
    requires forall r: nat, v: Text, c: nat :: m(r, v, c) != 0
    ensures LastRegex(rules, m, value, curr).Hit? ==> LastRegex(rules, m, value, curr).length > 0
  {
    if rules != [] {
      RegexNotEmpty(rules[..|rules| - 1], m, value, curr);
    }
  }

  /** Then every token covers something. */
  lemma NextAdvances(sheet: Sheet, m: Matcher, line: TextLine, curr: nat, sequence: Option<Sequence>)
    requires NeverEmpty(sheet, m) && curr < |line.content| && (sequence.Some? ==> SequenceOk(sequence.value))
    ensures var st := Next(sheet, m, line, curr, sequence);
      curr < st.token.end && (st.sequence.Some? ==> SequenceOk(st.sequence.value))
  {
    hide LastWord, LastRegex, WordEnd, LastOpening, WordsOk, NeverEmpty;
    forall words: Words, whole: bool, alphabet: byte -> bool | WordsOk(words)
      ensures var h := MatchWords(words, m, line.value, curr, whole, alphabet); h.Hit? ==> h.length > 0
    {
      RulesNotEmpty(sheet, words, m, line.value, curr, whole, alphabet);
    }
    NeverEmptyParts(sheet, m);
  }

  lemma RulesNotEmpty(sheet: Sheet, words: Words, m: Matcher, value: Text, curr: nat, whole: bool,
                      alphabet: byte -> bool)
    requires NeverEmpty(sheet, m) && WordsOk(words)
    ensures var h := MatchWords(words, m, value, curr, whole, alphabet); h.Hit? ==> h.length > 0
  {
    WordNotEmpty(words.table(CharAt(value, curr)), value, curr, whole, alphabet);
    RegexNotEmpty(words.regexps, m, value, curr);
  }

  lemma NeverEmptyParts(sheet: Sheet, m: Matcher)
    requires NeverEmpty(sheet, m)
    ensures WordsOk(sheet.keywords) && WordsOk(sheet.operators)
    ensures forall k :: 0 <= k < |sheet.sequences| ==> SequenceOk(sheet.sequences[k])
    ensures forall r: nat, v: Text, c: nat :: m(r, v, c) != 0
  {
  }

  /** The tokens of a line from `curr` on, and the sequence left open at its end. */
  ghost function LineTokens(sheet: Sheet, m: Matcher, line: TextLine, curr: nat,
                            sequence: Option<Sequence>): (r: (seq<Token>, Option<Sequence>))
    decreases |line.content| - curr
  {
    if curr >= |line.content| then ([], sequence)
    else
      var st := Next(sheet, m, line, curr, sequence);
      if st.token.end <= curr then ([st.token], st.sequence)
      else
        var rest := LineTokens(sheet, m, line, st.token.end, st.sequence);
        ([st.token] + rest.0, rest.1)
  }

  ghost function FileTokens(sheet: Sheet, m: Matcher, input: seq<TextLine>,
                            sequence: Option<Sequence>): seq<seq<Token>> {
    if input == [] then []
    else
      var first := LineTokens(sheet, m, input[0], 0, sequence);
      [first.0] + FileTokens(sheet, m, input[1..], first.1)
  }

  /** Tokens cover [from, end) one after another, with no gap and no overlap. */
  ghost predicate Tiles(tokens: seq<Token>, from: nat, end: nat) {
    if tokens == [] then from == end
    else tokens[0].start == from < tokens[0].end && Tiles(tokens[1..], tokens[0].end, end)
  }

  lemma {:induction false} LineTiled(sheet: Sheet, m: Matcher, line: TextLine, curr: nat, sequence: Option<Sequence>)
    requires Sound(m) && NeverEmpty(sheet, m) && LineOk(line) && curr <= |line.content|
    requires sequence.Some? ==> SequenceOk(sequence.value)
    ensures var r := LineTokens(sheet, m, line, curr, sequence);
      Tiles(r.0, curr, |line.content|) && (r.1.Some? ==> SequenceOk(r.1.value))
    decreases |line.content| - curr
  {
    hide Next, NeverEmpty, Sound, SequenceOk;
    if curr < |line.content| {
      var st := Next(sheet, m, line, curr, sequence);
      NextAdvances(sheet, m, line, curr, sequence);
      NextWithin(sheet, m, line, curr, sequence);
      LineTiled(sheet, m, line, st.token.end, st.sequence);
      var rest := LineTokens(sheet, m, line, st.token.end, st.sequence);
      assert ([st.token] + rest.0)[1..] == rest.0;
    }
  }

  /** The tokens of a file cover each of its lines, from its first character to its last. */
  lemma {:induction false} FileTiled(sheet: Sheet, m: Matcher, input: seq<TextLine>, sequence: Option<Sequence>)
    requires Sound(m) && NeverEmpty(sheet, m) && (forall k :: 0 <= k < |input| ==> LineOk(input[k]))
    requires sequence.Some? ==> SequenceOk(sequence.value)
    ensures |FileTokens(sheet, m, input, sequence)| == |input|
    ensures forall k :: 0 <= k < |input| ==> Tiles(FileTokens(sheet, m, input, sequence)[k], 0, |input[k].content|)
  {
    hide LineTokens, NeverEmpty, Sound, SequenceOk, Tiles;
    if input != [] {
      var first := LineTokens(sheet, m, input[0], 0, sequence);
      LineTiled(sheet, m, input[0], 0, sequence);
      FileTiled(sheet, m, input[1..], first.1);
    }
  }

  // ----- reading a file -----

  /** What remains to be read when `taken` of the current line, and all of `done`, are behind. */
  ghost function Going(sheet: Sheet, m: Matcher, line: TextLine, curr: nat, sequence: Option<Sequence>,
                       input: seq<TextLine>,
                       done: seq<seq<Token>>, taken: seq<Token>): seq<seq<Token>> {
    var rest := LineTokens(sheet, m, line, curr, sequence);
    done + [taken + rest.0] + FileTokens(sheet, m, input, rest.1)
  }

  lemma SameLine(sheet: Sheet, m: Matcher, line: TextLine, curr: nat, sequence: Option<Sequence>, input: seq<TextLine>,
                 done: seq<seq<Token>>, taken: seq<Token>)
    requires curr < |line.content| && Next(sheet, m, line, curr, sequence).token.end > curr
    ensures var st := Next(sheet, m, line, curr, sequence);
      Going(sheet, m, line, curr, sequence, input, done, taken) ==
        Going(sheet, m, line, st.token.end, st.sequence, input, done, taken + [st.token])
  {
    hide Next, FileTokens;
    var st := Next(sheet, m, line, curr, sequence);
    var rest := LineTokens(sheet, m, line, st.token.end, st.sequence);
    assert taken + ([st.token] + rest.0) == (taken + [st.token]) + rest.0;
  }

  lemma NextLine(sheet: Sheet, m: Matcher, sequence: Option<Sequence>, input: seq<TextLine>, done: seq<seq<Token>>)
    requires input != [] && input[0].content != [] && Next(sheet, m, input[0], 0, sequence).token.end > 0
    ensures var st := Next(sheet, m, input[0], 0, sequence);
      done + FileTokens(sheet, m, input, sequence) ==
        Going(sheet, m, input[0], st.token.end, st.sequence, input[1..], done, [st.token])
  {
    hide Next;
    var st := Next(sheet, m, input[0], 0, sequence);
    var rest := LineTokens(sheet, m, input[0], st.token.end, st.sequence);
    assert LineTokens(sheet, m, input[0], 0, sequence) == ([st.token] + rest.0, rest.1);
    var later := FileTokens(sheet, m, input[1..], rest.1);
    assert done + ([[st.token] + rest.0] + later) == done + [[st.token] + rest.0] + later;
  }

  lemma LineOver(sheet: Sheet, m: Matcher, line: TextLine, sequence: Option<Sequence>, input: seq<TextLine>,
                 done: seq<seq<Token>>, taken: seq<Token>)
    ensures Going(sheet, m, line, |line.content|, sequence, input, done, taken) ==
      done + [taken] + FileTokens(sheet, m, input, sequence)
  {
    assert taken + [] == taken;
  }

  /** What is left of a file, whether or not a line has been begun. */
  ghost predicate Remains(all: seq<seq<Token>>, sheet: Sheet, m: Matcher, line: TextLine, curr: nat,
                          sequence: Option<Sequence>,
                          input: seq<TextLine>, lines: seq<seq<Token>>) {
    if lines == [] then curr == |line.content| && all == FileTokens(sheet, m, input, sequence)
    else
      && 0 < curr <= |line.content|
      && all == Going(sheet, m, line, curr, sequence, input, lines[..|lines| - 1], lines[|lines| - 1])
  }

  lemma NothingRead(sheet: Sheet, m: Matcher, line: TextLine, input: seq<TextLine>)
    ensures Remains(FileTokens(sheet, m, input, None), sheet, m, line, |line.content|, None, input, [])
  {
  }

  /** Between two lines. */
  lemma BetweenLines(all: seq<seq<Token>>, sheet: Sheet, m: Matcher, line: TextLine, sequence: Option<Sequence>,
                     input: seq<TextLine>, lines: seq<seq<Token>>)
    requires Remains(all, sheet, m, line, |line.content|, sequence, input, lines)
    ensures all == lines + FileTokens(sheet, m, input, sequence)
  {
    hide FileTokens, Going;
    if lines == [] {
      assert lines + FileTokens(sheet, m, input, sequence) == FileTokens(sheet, m, input, sequence);
    } else {
      LineOver(sheet, m, line, sequence, input, lines[..|lines| - 1], lines[|lines| - 1]);
      assert lines[..|lines| - 1] + [lines[|lines| - 1]] == lines;
    }
  }

  lemma RemainsSameLine(all: seq<seq<Token>>, sheet: Sheet, m: Matcher, line: TextLine, curr: nat,
                        sequence: Option<Sequence>,
                        input: seq<TextLine>, lines: seq<seq<Token>>)
    requires Remains(all, sheet, m, line, curr, sequence, input, lines) && lines != [] && curr < |line.content|
    requires Sound(m) && LineOk(line) && NeverEmpty(sheet, m) && (sequence.Some? ==> SequenceOk(sequence.value))
    ensures var st := Next(sheet, m, line, curr, sequence);
      && st.token.start == curr < st.token.end && (st.sequence.Some? ==> SequenceOk(st.sequence.value))
      && Remains(all, sheet, m, line, st.token.end, st.sequence, input,
          lines[..|lines| - 1] + [lines[|lines| - 1] + [st.token]])
  {
    hide Next, Going, NeverEmpty, Sound, SequenceOk;
    NextAdvances(sheet, m, line, curr, sequence);
    NextWithin(sheet, m, line, curr, sequence);
    SameLine(sheet, m, line, curr, sequence, input, lines[..|lines| - 1], lines[|lines| - 1]);
    var st := Next(sheet, m, line, curr, sequence);
    var more := lines[..|lines| - 1] + [lines[|lines| - 1] + [st.token]];
    assert more[..|more| - 1] == lines[..|lines| - 1];
  }

  lemma RemainsNextLine(all: seq<seq<Token>>, sheet: Sheet, m: Matcher, line: TextLine, sequence: Option<Sequence>,
                        input: seq<TextLine>, lines: seq<seq<Token>>)
    requires Remains(all, sheet, m, line, |line.content|, sequence, input, lines) && input != []
    requires input[0].content != []
    requires Sound(m) && LineOk(input[0]) && NeverEmpty(sheet, m) && (sequence.Some? ==> SequenceOk(sequence.value))
    ensures var st := Next(sheet, m, input[0], 0, sequence);
      && st.token.start == 0 < st.token.end && (st.sequence.Some? ==> SequenceOk(st.sequence.value))
      && Remains(all, sheet, m, input[0], st.token.end, st.sequence, input[1..], lines + [[st.token]])
  {
    hide Next, Going, NeverEmpty, Sound, SequenceOk, FileTokens, LineTokens;
    NextAdvances(sheet, m, input[0], 0, sequence);
    NextWithin(sheet, m, input[0], 0, sequence);
    BetweenLines(all, sheet, m, line, sequence, input, lines);
    NextLine(sheet, m, sequence, input, lines);
    var st := Next(sheet, m, input[0], 0, sequence);
    var more := lines + [[st.token]];
    assert more[..|more| - 1] == lines;
  }

  lemma EndOfFile(all: seq<seq<Token>>, sheet: Sheet, m: Matcher, line: TextLine, sequence: Option<Sequence>,
                  lines: seq<seq<Token>>)
    requires Remains(all, sheet, m, line, |line.content|, sequence, [], lines)
    ensures all == lines
  {
    BetweenLines(all, sheet, m, line, sequence, [], lines);
    assert lines + [] == lines;
  }

  /** Asks for tokens until there are none; a token that starts at zero starts a line. */
  method ReadFile(r: Reader) returns (lines: seq<seq<Token>>)
    requires r.Valid() && r.curr == |r.line.content| && r.sequence == None && NeverEmpty(r.sheet, r.m)
    modifies r
    ensures lines == FileTokens(r.sheet, r.m, old(r.input), None)
  {
    hide Next, NeverEmpty, LineTokens, FileTokens, SequenceOk, Remains, Sound;
    lines := [];
    ghost var all := FileTokens(r.sheet, r.m, r.input, None);
    NothingRead(r.sheet, r.m, r.line, r.input);
    while true
      invariant r.Valid() && (r.sequence.Some? ==> SequenceOk(r.sequence.value))
      invariant Remains(all, r.sheet, r.m, r.line, r.curr, r.sequence, r.input, lines)
      invariant lines != [] ==> r.curr > 0
      invariant lines == [] ==> r.curr == |r.line.content|
      decreases |r.input|, |r.line.content| - r.curr
    {
      ghost var line, curr, sequence, input := r.line, r.curr, r.sequence, r.input;
      if curr < |line.content| {
        RemainsSameLine(all, r.sheet, r.m, line, curr, sequence, input, lines);
      } else if input != [] {
        RemainsNextLine(all, r.sheet, r.m, line, sequence, input, lines);
      }
      var n := r.GetToken();
      if n == 0 {
        EndOfFile(all, r.sheet, r.m, line, sequence, lines);
        break;
      }
      var token := Token(r.start, r.end, r.look);
      assert Step(token, r.sequence) == Next(r.sheet, r.m, r.line, StartOf(line, curr), sequence);
      if r.start == 0 {
        lines := lines + [[token]];
      } else {
        lines := lines[..|lines| - 1] + [lines[|lines| - 1] + [token]];
      }
    }
  }
}
