/** Which rule each token of a file is due to, and which sequence is open there. */
module TokenRules {
  import opened Bytes
  import opened PostScript
  import opened Tokenizer

  // ----- what applies, and what is defined last -----

  predicate Stands(word: Text, value: Text, at: nat) {
    at + |word| <= |value| && forall k :: 0 <= k < |word| ==> value[at + k] == word[k]
  }

  /** No longer word goes on there. */
  predicate StandsAlone(word: Text, value: Text, at: nat, letter: byte -> bool) {
    Stands(word, value, at) && !letter(if at + |word| < |value| then value[at + |word|] else 0)
  }

  /** Rules for words that stand anywhere, or only for whole words. */
  predicate WordApplies(rule: Rule, value: Text, at: nat, letters: Option<byte -> bool>) {
    if letters.Some? then StandsAlone(rule.word, value, at, letters.value) else Stands(rule.word, value, at)
  }

  ghost predicate NoWord(rules: seq<Rule>, value: Text, at: nat, letters: Option<byte -> bool>) {
    forall k :: 0 <= k < |rules| ==> !WordApplies(rules[k], value, at, letters)
  }

  ghost predicate NoPattern(rules: seq<RegexRule>, m: Matcher, value: Text, at: nat) {
    forall k :: 0 <= k < |rules| ==> m(rules[k].regex, value, at) < 0
  }

  ghost predicate NoRule(words: Words, m: Matcher, value: Text, at: nat, letters: Option<byte -> bool>)
    requires at < |value|
  {
    NoWord(words.table(value[at]), value, at, letters) && NoPattern(words.regexps, m, value, at)
  }

  /** The token is due to a rule that applies, while none that is defined later does. */
  ghost predicate ByWord(rules: seq<Rule>, value: Text, letters: Option<byte -> bool>, t: Token) {
    exists k :: 0 <= k < |rules| && WordApplies(rules[k], value, t.start, letters)
      && t.look == Rhs(rules[k].rhs) && t.end == t.start + |rules[k].word|
      && NoWord(rules[k + 1..], value, t.start, letters)
  }

  ghost predicate ByPattern(rules: seq<RegexRule>, m: Matcher, value: Text, t: Token) {
    exists k :: 0 <= k < |rules| && m(rules[k].regex, value, t.start) == t.end - t.start >= 0
      && t.look == Rhs(rules[k].rhs) && NoPattern(rules[k + 1..], m, value, t.start)
  }

  /** Words come before patterns. */
  ghost predicate ByRule(words: Words, m: Matcher, value: Text, letters: Option<byte -> bool>, t: Token)
    requires t.start < |value|
  {
    var rules := words.table(value[t.start]);
    || ByWord(rules, value, letters, t)
    || (NoWord(rules, value, t.start, letters) && ByPattern(words.regexps, m, value, t))
  }

  ghost predicate Opens(s: Sequence, m: Matcher, value: Text, at: nat) {
    match s.open
    case Word(rule) => Stands(rule.word, value, at)
    case Pattern(rule) => m(rule.regex, value, at) >= 0
  }

  ghost predicate NoneOpens(sequences: seq<Sequence>, m: Matcher, value: Text, at: nat) {
    forall k :: 0 <= k < |sequences| ==> !Opens(sequences[k], m, value, at)
  }

  /** The token opens the sequence. */
  ghost predicate Opened(s: Sequence, m: Matcher, value: Text, t: Token) {
    && Opens(s, m, value, t.start)
    && (match s.open
        case Word(rule) => t.look == Rhs(rule.rhs) && t.end == t.start + |rule.word|
        case Pattern(rule) => t.look == Rhs(rule.rhs) && t.end - t.start == m(rule.regex, value, t.start))
  }

  ghost predicate ByOpening(sequences: seq<Sequence>, m: Matcher, value: Text, t: Token, after: Option<Sequence>) {
    exists k :: 0 <= k < |sequences| && Opened(sequences[k], m, value, t) && after == Some(sequences[k])
      && NoneOpens(sequences[k + 1..], m, value, t.start)
  }

  // ----- where a token may be -----

  /** In a sequence: exceptions first, then what closes it; anything else has its face, character by character. */
  ghost predicate Inside(s: Sequence, m: Matcher, value: Text, t: Token, after: Option<Sequence>)
    requires t.start < |value|
  {
    || (ByRule(s.exceptions, m, value, None, t) && after == Some(s))
    || (NoRule(s.exceptions, m, value, t.start, None) && ByRule(s.close, m, value, None, t) && after == None)
    || (NoRule(s.exceptions, m, value, t.start, None) && NoRule(s.close, m, value, t.start, None)
        && t.look == InFace(s.face) && t.end == t.start + 1 && after == Some(s))
  }

  /** A word to its end. */
  predicate WholeWord(letter: byte -> bool, content: Text, t: Token) {
    && t.start < t.end <= |content| && (forall k :: t.start < k < t.end ==> letter(content[k]))
    && (t.end == |content| || !letter(content[t.end]))
  }

  /** Elsewhere: keywords at the start of words, operators, words that are nothing else, and single characters. */
  ghost predicate Outside(sheet: Sheet, m: Matcher, line: TextLine, t: Token)
    requires LineOk(line) && t.start < |line.content|
  {
    var letters := Some(sheet.alpha2);
    var inWord := sheet.alpha1(line.content[t.start]);
    var noKeyword := inWord ==> NoRule(sheet.keywords, m, line.value, t.start, letters);
    || (inWord && ByRule(sheet.keywords, m, line.value, letters, t))
    || (noKeyword && ByRule(sheet.operators, m, line.value, None, t))
    || (noKeyword && NoRule(sheet.operators, m, line.value, t.start, None) && t.look == InFace(Plain)
        && if inWord then WholeWord(sheet.alpha2, line.content, t) else t.end == t.start + 1)
  }

  /** With `open` before the token, and `after` after it. */
  ghost predicate Right(sheet: Sheet, m: Matcher, line: TextLine, open: Option<Sequence>, t: Token,
                        after: Option<Sequence>)
    requires LineOk(line)
  {
    t.start < |line.content| &&
    match open
    case Some(s) => Inside(s, m, line.value, t, after)
    case None =>
      if NoneOpens(sheet.sequences, m, line.value, t.start) then Outside(sheet, m, line, t) && after == None
      else ByOpening(sheet.sequences, m, line.value, t, after)
  }

  // ----- the rule that is found is the right one -----

  lemma SameWord(rule: Rule, value: Text, at: nat, whole: bool, letter: byte -> bool)
    ensures WordHere(rule, value, at, whole, letter) <==>
      WordApplies(rule, value, at, if whole then Some(letter) else None)
    ensures HasPrefix(rule.word, value, at) <==> Stands(rule.word, value, at)
  {
    if Stands(rule.word, value, at) {
      assert value[at..at + |rule.word|] == rule.word;
    }
  }

  lemma {:induction false} WordFound(rules: seq<Rule>, value: Text, at: nat, whole: bool, letter: byte -> bool,
                                     t: Token)
    requires t.start == at
    ensures var h, letters := LastWord(rules, value, at, whole, letter), if whole then Some(letter) else None;
      && (h.Miss? <==> NoWord(rules, value, at, letters))
      && (ByWord(rules, value, letters, t) <==> h.Hit? && t.look == Rhs(h.rhs) && t.end == at + h.length)
  {
    hide WordHere, WordApplies;
    if rules != [] {
      var init, last := rules[..|rules| - 1], rules[|rules| - 1];
      SameWord(last, value, at, whole, letter);
      WordFound(init, value, at, whole, letter, t);
      ByLastWord(rules, value, if whole then Some(letter) else None, t);
    }
  }

  lemma ByLastWord(rules: seq<Rule>, value: Text, letters: Option<byte -> bool>, t: Token)
    requires rules != []
    ensures var init, last := rules[..|rules| - 1], rules[|rules| - 1];
      && (NoWord(rules, value, t.start, letters) <==>
          NoWord(init, value, t.start, letters) && !WordApplies(last, value, t.start, letters))
      && (ByWord(rules, value, letters, t) <==>
          if WordApplies(last, value, t.start, letters) then t.look == Rhs(last.rhs) && t.end == t.start + |last.word|
          else ByWord(init, value, letters, t))
  {
    hide WordApplies;
    var init, n := rules[..|rules| - 1], |rules| - 1;
    var last := rules[n];
    assert rules[n + 1..] == [];
    forall k | 0 < k <= n
      ensures NoWord(rules[k..], value, t.start, letters) <==>
        NoWord(init[k..], value, t.start, letters) && !WordApplies(last, value, t.start, letters)
    {
      assert rules[k..] == init[k..] + [last];
      MoreWords(init[k..], last, value, t.start, letters);
    }
    assert rules == init + [last];
    MoreWords(init, last, value, t.start, letters);
  }

  lemma MoreWords(rules: seq<Rule>, last: Rule, value: Text, at: nat, letters: Option<byte -> bool>)
    ensures NoWord(rules + [last], value, at, letters) <==>
      NoWord(rules, value, at, letters) && !WordApplies(last, value, at, letters)
  {
    hide WordApplies;
    assert (rules + [last])[|rules|] == last;
    assert forall k :: 0 <= k < |rules| ==> (rules + [last])[k] == rules[k];
  }

  lemma MorePatterns(rules: seq<RegexRule>, last: RegexRule, m: Matcher, value: Text, at: nat)
    ensures NoPattern(rules + [last], m, value, at) <==>
      NoPattern(rules, m, value, at) && m(last.regex, value, at) < 0
  {
    assert (rules + [last])[|rules|] == last;
    assert forall k :: 0 <= k < |rules| ==> (rules + [last])[k] == rules[k];
  }

  lemma ByLastPattern(rules: seq<RegexRule>, m: Matcher, value: Text, t: Token)
    requires rules != []
    ensures var init, last := rules[..|rules| - 1], rules[|rules| - 1];
      var n := m(last.regex, value, t.start);
      && (NoPattern(rules, m, value, t.start) <==> NoPattern(init, m, value, t.start) && n < 0)
      && (ByPattern(rules, m, value, t) <==>
          if n >= 0 then t.look == Rhs(last.rhs) && t.end == t.start + n else ByPattern(init, m, value, t))
  {
    var init, n := rules[..|rules| - 1], |rules| - 1;
    var last := rules[n];
    assert rules[n + 1..] == [];
    forall k | 0 < k <= n
      ensures NoPattern(rules[k..], m, value, t.start) <==>
        NoPattern(init[k..], m, value, t.start) && m(last.regex, value, t.start) < 0
    {
      assert rules[k..] == init[k..] + [last];
      MorePatterns(init[k..], last, m, value, t.start);
    }
    assert rules == init + [last];
    MorePatterns(init, last, m, value, t.start);
  }

  lemma {:induction false} PatternFound(rules: seq<RegexRule>, m: Matcher, value: Text, at: nat, t: Token)
    requires t.start == at
    ensures var h := LastRegex(rules, m, value, at);
      && (h.Miss? <==> NoPattern(rules, m, value, at))
      && (ByPattern(rules, m, value, t) <==> h.Hit? && t.look == Rhs(h.rhs) && t.end == at + h.length)
  {
    if rules != [] {
      PatternFound(rules[..|rules| - 1], m, value, at, t);
      ByLastPattern(rules, m, value, t);
      hide ByPattern, NoPattern;
    }
  }

  lemma RuleFound(words: Words, m: Matcher, value: Text, at: nat, whole: bool, letter: byte -> bool, t: Token)
    requires t.start == at < |value|
    ensures var h, letters := MatchWords(words, m, value, at, whole, letter), if whole then Some(letter) else None;
      && (h.Miss? <==> NoRule(words, m, value, at, letters))
      && (ByRule(words, m, value, letters, t) <==> h.Hit? && t.look == Rhs(h.rhs) && t.end == at + h.length)
  {
    hide LastWord, LastRegex, ByWord, ByPattern, NoWord, NoPattern;
    WordFound(words.table(value[at]), value, at, whole, letter, t);
    PatternFound(words.regexps, m, value, at, t);
  }

  lemma OpeningHere(s: Sequence, m: Matcher, value: Text, at: nat, t: Token)
    requires t.start == at
    ensures var h := OpeningHit(s.open, m, value, at);
      && (h.Hit? <==> Opens(s, m, value, at))
      && (Opened(s, m, value, t) <==> h.Hit? && t.look == Rhs(h.rhs) && t.end == at + h.length)
  {
    if s.open.Word? {
      SameWord(s.open.word, value, at, false, NO_ALPHABET);
    }
  }

  lemma MoreOpen(sequences: seq<Sequence>, last: Sequence, m: Matcher, value: Text, at: nat)
    ensures NoneOpens(sequences + [last], m, value, at) <==>
      NoneOpens(sequences, m, value, at) && !Opens(last, m, value, at)
  {
    hide Opens;
    assert (sequences + [last])[|sequences|] == last;
    assert forall k :: 0 <= k < |sequences| ==> (sequences + [last])[k] == sequences[k];
  }

  lemma ByLastOpening(sequences: seq<Sequence>, m: Matcher, value: Text, t: Token, after: Option<Sequence>)
    requires sequences != []
    ensures var init, last := sequences[..|sequences| - 1], sequences[|sequences| - 1];
      && (NoneOpens(sequences, m, value, t.start) <==>
          NoneOpens(init, m, value, t.start) && !Opens(last, m, value, t.start))
      && (ByOpening(sequences, m, value, t, after) <==>
          if Opens(last, m, value, t.start) then Opened(last, m, value, t) && after == Some(last)
          else ByOpening(init, m, value, t, after))
  {
    assert forall s: Sequence :: Opened(s, m, value, t) ==> Opens(s, m, value, t.start);
    hide Opens, Opened;
    var init, n := sequences[..|sequences| - 1], |sequences| - 1;
    var last := sequences[n];
    assert sequences[n + 1..] == [];
    forall k | 0 < k <= n
      ensures NoneOpens(sequences[k..], m, value, t.start) <==>
        NoneOpens(init[k..], m, value, t.start) && !Opens(last, m, value, t.start)
    {
      assert sequences[k..] == init[k..] + [last];
      MoreOpen(init[k..], last, m, value, t.start);
    }
    assert sequences == init + [last];
    MoreOpen(init, last, m, value, t.start);
  }

  lemma {:induction false} LastFound(sequences: seq<Sequence>, m: Matcher, value: Text, at: nat, t: Token,
                                     after: Option<Sequence>)
    requires t.start == at
    ensures var k := LastOpening(sequences, m, value, at);
      && (k == 0 <==> NoneOpens(sequences, m, value, at))
      && (ByOpening(sequences, m, value, t, after) <==>
          k > 0 && after == Some(sequences[k - 1])
          && var h := OpeningHit(sequences[k - 1].open, m, value, at);
             h.Hit? && t.look == Rhs(h.rhs) && t.end == at + h.length)
  {
    if sequences != [] {
      var init, last := sequences[..|sequences| - 1], sequences[|sequences| - 1];
      LastFound(init, m, value, at, t, after);
      ByLastOpening(sequences, m, value, t, after);
      OpeningHere(last, m, value, at, t);
      hide ByOpening, NoneOpens, OpeningHit, Opened, Opens;
    }
  }

  lemma {:induction false} WordEnds(sheet: Sheet, content: Text, curr: nat)
    requires curr < |content|
    ensures var e := WordEnd(sheet, content, curr);
      && (forall k :: curr < k < e ==> sheet.alpha2(content[k])) && (e == |content| || !sheet.alpha2(content[e]))
    decreases |content| - curr
  {
    if curr + 1 < |content| && sheet.alpha2(content[curr + 1]) {
      WordEnds(sheet, content, curr + 1);
    }
  }

  lemma InsideNext(sheet: Sheet, m: Matcher, line: TextLine, s: Sequence, t: Token, after: Option<Sequence>)
    requires LineOk(line) && t.start < |line.content|
    ensures Inside(s, m, line.value, t, after) <==> Step(t, after) == Next(sheet, m, line, t.start, Some(s))
  {
    RuleFound(s.exceptions, m, line.value, t.start, false, NO_ALPHABET, t);
    RuleFound(s.close, m, line.value, t.start, false, NO_ALPHABET, t);
    hide MatchWords, ByRule, NoRule;
  }

  lemma OutsideNext(sheet: Sheet, m: Matcher, line: TextLine, t: Token)
    requires LineOk(line) && t.start < |line.content| && LastOpening(sheet.sequences, m, line.value, t.start) == 0
    ensures Outside(sheet, m, line, t) <==> Step(t, None) == Next(sheet, m, line, t.start, None)
  {
    RuleFound(sheet.keywords, m, line.value, t.start, true, sheet.alpha2, t);
    RuleFound(sheet.operators, m, line.value, t.start, false, NO_ALPHABET, t);
    WordEnds(sheet, line.content, t.start);
    hide MatchWords, ByRule, NoRule, WordEnd;
  }

  /** What comes next is what is right, and nothing else is. */
  lemma NextRight(sheet: Sheet, m: Matcher, line: TextLine, open: Option<Sequence>, t: Token, after: Option<Sequence>)
    requires LineOk(line) && t.start < |line.content|
    ensures Right(sheet, m, line, open, t, after) <==> Step(t, after) == Next(sheet, m, line, t.start, open)
  {
    match open
    case Some(s) => InsideNext(sheet, m, line, s, t, after);
    case None =>
      LastFound(sheet.sequences, m, line.value, t.start, t, after);
      OpeningFound(sheet.sequences, m, line.value, t.start);
      hide ByOpening, NoneOpens, Outside, MatchWords, OpeningHit, LastOpening, WordEnd;
      if LastOpening(sheet.sequences, m, line.value, t.start) == 0 {
        OutsideNext(sheet, m, line, t);
      }
  }

  /** No two readings of a token are right: what went before tells them, and which sequence is open next. */
  lemma OneReading(sheet: Sheet, m: Matcher, line: TextLine, open: Option<Sequence>, t: Token, after: Option<Sequence>,
                   t': Token, after': Option<Sequence>)
    requires LineOk(line) && t.start == t'.start
    requires Right(sheet, m, line, open, t, after) && Right(sheet, m, line, open, t', after')
    ensures t == t' && after == after'
  {
    NextRight(sheet, m, line, open, t, after);
    NextRight(sheet, m, line, open, t', after');
  }

  // ----- whole files -----

  /** Plain characters look like the open sequence, or plain. */
  predicate FaceRight(open: Option<Sequence>, t: Token) {
    t.look.InFace? ==> t.look.face == if open.Some? then open.value.face else Plain
  }

  /** The sequences open before and after each token. */
  ghost predicate LineRight(sheet: Sheet, m: Matcher, line: TextLine, tokens: seq<Token>,
                            opens: seq<Option<Sequence>>)
    requires LineOk(line)
  {
    |opens| == |tokens| + 1 &&
    forall k :: 0 <= k < |tokens| ==>
      Right(sheet, m, line, opens[k], tokens[k], opens[k + 1]) && FaceRight(opens[k], tokens[k])
  }

  lemma RightFace(sheet: Sheet, m: Matcher, line: TextLine, open: Option<Sequence>, t: Token, after: Option<Sequence>)
    requires LineOk(line) && Right(sheet, m, line, open, t, after)
    ensures FaceRight(open, t)
  {
  }

  lemma {:induction false} LineOpens(sheet: Sheet, m: Matcher, line: TextLine, curr: nat, open: Option<Sequence>)
    returns (opens: seq<Option<Sequence>>)
    requires LineOk(line)
    ensures var r := LineTokens(sheet, m, line, curr, open);
      LineRight(sheet, m, line, r.0, opens) && opens[0] == open && opens[|r.0|] == r.1
    decreases |line.content| - curr
  {
    hide Next, Right, FaceRight;
    opens := [open];
    if curr < |line.content| {
      var st := Next(sheet, m, line, curr, open);
      NextFirst(sheet, m, line, curr, open);
      opens := [open, st.sequence];
      if st.token.end > curr {
        opens := LineOpens(sheet, m, line, st.token.end, st.sequence);
        opens := [open] + opens;
      }
    }
  }

  lemma NextFirst(sheet: Sheet, m: Matcher, line: TextLine, curr: nat, open: Option<Sequence>)
    requires LineOk(line) && curr < |line.content|
    ensures var st := Next(sheet, m, line, curr, open);
      st.token.start == curr && Right(sheet, m, line, open, st.token, st.sequence) && FaceRight(open, st.token)
  {
    var st := Next(sheet, m, line, curr, open);
    assert st.token.start == curr;
    NextRight(sheet, m, line, open, st.token, st.sequence);
    RightFace(sheet, m, line, open, st.token, st.sequence);
  }

  /** A sequence left open at the end of a line is open at the beginning of the next. */
  ghost predicate FileRight(sheet: Sheet, m: Matcher, input: seq<TextLine>, tokens: seq<seq<Token>>,
                            opens: seq<seq<Option<Sequence>>>)
    requires forall k :: 0 <= k < |input| ==> LineOk(input[k])
  {
    && |tokens| == |input| == |opens|
    && (forall k :: 0 <= k < |input| ==> LineRight(sheet, m, input[k], tokens[k], opens[k]))
    && forall k :: 0 < k < |input| ==> opens[k][0] == opens[k - 1][|tokens[k - 1]|]
  }

  /** Every token of a file is right. */
  lemma {:induction false} FileReadRight(sheet: Sheet, m: Matcher, input: seq<TextLine>, open: Option<Sequence>)
    returns (opens: seq<seq<Option<Sequence>>>)
    requires forall k :: 0 <= k < |input| ==> LineOk(input[k])
    ensures FileRight(sheet, m, input, FileTokens(sheet, m, input, open), opens)
    ensures input != [] ==> opens[0][0] == open
  {
    hide LineTokens, Right, FaceRight;
    opens := [];
    if input != [] {
      var first := LineTokens(sheet, m, input[0], 0, open);
      var one := LineOpens(sheet, m, input[0], 0, open);
      var rest := FileReadRight(sheet, m, input[1..], first.1);
      opens := [one] + rest;
    }
  }
}
