/** Page ranges: parsed from text, tested, and written relative to an offset. */
module PageRange {
  import opened Bytes
  import opened PostScript

  /** Pages from `min` to `max`; no end when `max` is zero. */
  datatype Interval = Interval(min: nat, max: nat)

  const COMMA: byte := ',' as int
  const DASH: byte := '-' as int
  const COLON: byte := ':' as int
  const BLANK_TAB: byte := 9
  const TOC: seq<byte> := ['t' as int, 'o' as int, 'c' as int]

  predicate IsIn(i: Interval, num: nat) {
    if i.min != 0 && i.max != 0 then i.min <= num <= i.max
    else if i.min != 0 then i.min <= num
    else num <= i.max
  }

  ghost predicate AnyIn(intervals: seq<Interval>, num: nat) {
    exists k :: 0 <= k < |intervals| && IsIn(intervals[k], num)
  }

  /** No range at all selects every page. */
  ghost predicate Selects(intervals: seq<Interval>, num: nat) {
    intervals == [] || AnyIn(intervals, num)
  }

  // ----- reading -----

  predicate IsDelimiter(b: byte) {
    b == COMMA || b == SPACE || b == BLANK_TAB
  }

  function WordLength(s: seq<byte>): (n: nat)
    ensures n <= |s| && (n < |s| ==> IsDelimiter(s[n]))
    ensures forall k :: 0 <= k < n ==> !IsDelimiter(s[k])
    ensures s != [] && !IsDelimiter(s[0]) ==> n > 0
  {
    if s == [] || IsDelimiter(s[0]) then 0 else 1 + WordLength(s[1..])
  }

  /** `strtok` */
  function Tokens(s: seq<byte>): seq<seq<byte>>
    decreases |s|
  {
    if s == [] then []
    else if IsDelimiter(s[0]) then Tokens(s[1..])
    else [s[..WordLength(s)]] + Tokens(s[WordLength(s)..])
  }

  function DigitCount(s: seq<byte>): (n: nat)
    ensures n <= |s| && (forall k :: 0 <= k < n ==> IsDigit(s[k])) && (n < |s| ==> !IsDigit(s[n]))
  {
    if s == [] || !IsDigit(s[0]) then 0 else 1 + DigitCount(s[1..])
  }

  datatype Read = Pages(interval: Interval) | Toc | Invalid

  function ReadToken(token: seq<byte>): Read {
    var n := DigitCount(token);
    var min, rest := NumberOf(token[..n]), token[n..];
    if rest == [] then Pages(Interval(min, min))
    else if rest[0] == COLON || rest[0] == DASH then
      var m := DigitCount(rest[1..]);
      var max := NumberOf(rest[1..][..m]);
      if m < |rest| - 1 || (max != 0 && max < min) then Invalid else Pages(Interval(min, max))
    else if rest == TOC then Toc
    else Invalid
  }

  /** The intervals of the tokens, if all are well formed. */
  function ReadTokens(tokens: seq<seq<byte>>): seq<Interval> {
    if tokens == [] then []
    else
      var r := ReadToken(tokens[|tokens| - 1]);
      ReadTokens(tokens[..|tokens| - 1]) + (if r.Pages? then [r.interval] else [])
  }

  predicate AllValid(tokens: seq<seq<byte>>) {
    forall k :: 0 <= k < |tokens| ==> ReadToken(tokens[k]) != Invalid
  }

  // ----- writing -----

  /** The whole of the interval comes before the page at the offset. */
  predicate Passed(i: Interval, offset: nat) {
    i.max != 0 && i.max < offset
  }

  predicate AppliesAbove(i: Interval, offset: nat) {
    !(i.min <= offset && i.max == 0)
  }

  /** The interval has a part in the text. */
  predicate Stays(i: Interval, offset: nat) {
    AppliesAbove(i, offset) && !Passed(i, offset)
  }

  /** As read: an upper bound is not below the lower one. */
  predicate WellFormed(i: Interval) {
    i.max == 0 || i.min <= i.max
  }

  /** Without a lower bound, and not yet passed: it is written as text that cannot be read. */
  predicate Unreadable(i: Interval, offset: nat) {
    i.min == 0 < offset < i.max
  }

  /** Ends just at the offset: what is written for it has page one, and more unless the offset is one. */
  predicate Ending(i: Interval, offset: nat, p: nat) {
    1 <= i.min <= i.max == offset && (offset > 1 || p == 1)
  }

  /** Without an end and begun by the offset: every page past it is in, and the text leaves it out. */
  predicate Begun(i: Interval, offset: nat) {
    1 <= i.min <= offset && i.max == 0
  }

  /** What is read back from the text of an interval: the interval counted from the offset, or, when nothing of it is
      left, what is written all the same. */
  function Left(i: Interval, offset: nat): Interval
    requires WellFormed(i) && Stays(i, offset)
  {
    if i.max == 0 then Interval(i.min - offset, 0)
    else if i.max > offset then Interval(if i.min <= offset then 1 else i.min - offset, i.max - offset)
    else if i.min == 0 then Interval((i.min - offset) % WORD, 0)
    else Interval(1, if offset == 1 then 1 else 0)
  }

  lemma LeftIsIn(i: Interval, offset: nat, p: nat)
    requires WellFormed(i) && !Unreadable(i, offset) && p >= 1 && p + offset < WORD
    ensures IsIn(i, p + offset) || Ending(i, offset, p) <==>
      Begun(i, offset) || (Stays(i, offset) && IsIn(Left(i, offset), p))
  {
  }

  function Dashed(min: nat, max: seq<byte>): seq<byte> {
    Decimal(min) + [DASH] + max
  }

  /** What is read back from what is written. */
  lemma DecimalRead(n: nat, rest: seq<byte>)
    requires rest == [] || !IsDigit(rest[0])
    ensures DigitCount(Decimal(n) + rest) == |Decimal(n)| && (Decimal(n) + rest)[..|Decimal(n)|] == Decimal(n)
    ensures NumberOf(Decimal(n)) == n && (Decimal(n) + rest)[|Decimal(n)|..] == rest
  {
    DecimalRoundTrip(n);
    CountDigits(Decimal(n), rest);
  }

  lemma {:induction false} CountDigits(digits: seq<byte>, rest: seq<byte>)
    requires forall k :: 0 <= k < |digits| ==> IsDigit(digits[k])
    requires rest == [] || !IsDigit(rest[0])
    ensures DigitCount(digits + rest) == |digits|
  {
    if digits == [] {
      assert digits + rest == rest;
    } else {
      CountDigits(digits[1..], rest);
      assert (digits + rest)[1..] == digits[1..] + rest;
    }
  }

  lemma ReadNumber(n: nat)
    ensures ReadToken(Decimal(n)) == Pages(Interval(n, n))
  {
    DecimalRead(n, []);
    assert Decimal(n) + [] == Decimal(n);
  }

  lemma ReadDashed(min: nat, max: nat)
    requires max == 0 || min <= max
    ensures ReadToken(Dashed(min, Decimal(max))) == Pages(Interval(min, max))
    ensures ReadToken(Dashed(min, [])) == Pages(Interval(min, 0))
  {
    hide Decimal;
    DecimalRead(max, []);
    assert Decimal(max) + [] == Decimal(max);
    DashRead(min, Decimal(max));
    DashRead(min, []);
  }

  lemma DashRead(min: nat, max: seq<byte>)
    requires forall k :: 0 <= k < |max| ==> IsDigit(max[k])
    ensures var value := NumberOf(max);
      ReadToken(Dashed(min, max)) == if value != 0 && value < min then Invalid else Pages(Interval(min, value))
  {
    hide Decimal;
    var rest := [DASH] + max;
    DecimalRead(min, rest);
    assert Dashed(min, max) == Decimal(min) + rest;
    assert rest[1..] == max;
    CountDigits(max, []);
    assert max + [] == max && max[..|max|] == max;
  }

  /** Bounds are of type `int`. */
  predicate InRange(i: Interval) {
    i.min < 0x8000_0000 && i.max < 0x8000_0000
  }

  /** The text of one interval: nothing when it has passed. One without a lower bound is not well formed once
      something is taken off. */
  method IntervalToBuffer(i: Interval, offset: nat) returns (buf: seq<byte>)
    requires InRange(i)
    ensures Passed(i, offset) ==> buf == []
    ensures WellFormed(i) && Stays(i, offset) && !Unreadable(i, offset) ==> Says(buf, Left(i, offset))
    ensures Unreadable(i, offset) ==> NoDelimiter(buf) && buf != [] && ReadToken(buf) == Invalid
  {
    hide Decimal, ReadToken, Tokens, Says, NoDelimiter;
    SaysSomething(1, i.max - (if offset <= i.max then offset else i.max));
    if WellFormed(i) && Stays(i, offset) && !Unreadable(i, offset) {
      SaysSomething(Left(i, offset).min, Left(i, offset).max);
    }
    if Unreadable(i, offset) {
      SaysNothing(WORD - offset, i.max - offset);
    }
    if i.max != 0 && i.max < offset {
      return [];
    }
    var min: int;
    if i.min != 0 && i.min <= offset {
      min := 1;
    } else {
      min := (i.min - offset) % WORD;
    }
    if min == i.max {
      buf := Decimal(min);
    } else if min != 0 && i.max != 0 {
      buf := Decimal(min) + [DASH] + Decimal(i.max - offset);
    } else if min != 0 {
      buf := Decimal(min) + [DASH];
    } else {
      buf := Decimal(1) + [DASH] + Decimal(i.max - offset);
    }
  }

  /** One token that is read as the interval. */
  predicate Says(text: seq<byte>, i: Interval) {
    text != [] && NoDelimiter(text) && ReadToken(text) == Pages(i)
  }

  predicate NoDelimiter(text: seq<byte>) {
    forall k :: 0 <= k < |text| ==> !IsDelimiter(text[k])
  }

  lemma SaysSomething(min: nat, max: nat)
    ensures Says(Decimal(min), Interval(min, min))
    ensures max == 0 || min <= max ==> Says(Decimal(min) + [DASH] + Decimal(max), Interval(min, max))
    ensures Says(Decimal(min) + [DASH], Interval(min, 0))
  {
    hide Decimal, ReadToken;
    ReadNumber(min);
    if max == 0 || min <= max {
      ReadDashed(min, max);
    }
    ReadDashed(min, 0);
    DecimalRoundTrip(min);
    DecimalRoundTrip(max);
    assert Dashed(min, []) == Decimal(min) + [DASH];
  }

  lemma SaysNothing(min: nat, max: nat)
    requires 0 < max < min
    ensures var text := Decimal(min) + [DASH] + Decimal(max);
      text != [] && NoDelimiter(text) && ReadToken(text) == Invalid
  {
    hide Decimal, ReadToken;
    DecimalRoundTrip(min);
    DecimalRoundTrip(max);
    DashRead(min, Decimal(max));
  }

  // ----- lists -----

  lemma {:induction false} WordTokens(word: seq<byte>)
    requires NoDelimiter(word)
    ensures Tokens(word) == if word == [] then [] else [word]
  {
    if word != [] {
      WholeWord(word, []);
      assert word + [] == word;
      assert word[|word|..] == [] && word[..|word|] == word;
    }
  }

  lemma {:induction false} WholeWord(word: seq<byte>, rest: seq<byte>)
    requires NoDelimiter(word) && (rest == [] || IsDelimiter(rest[0]))
    ensures WordLength(word + rest) == |word|
  {
    if word == [] {
      assert word + rest == rest;
    } else {
      WholeWord(word[1..], rest);
      assert (word + rest)[1..] == word[1..] + rest;
    }
  }

  /** A comma and one more word, which may be empty. */
  lemma {:induction false} TokensMore(s: seq<byte>, word: seq<byte>)
    requires NoDelimiter(word)
    ensures Tokens(s + [COMMA] + word) == Tokens(s) + (if word == [] then [] else [word])
    decreases |s|
  {
    var all := s + [COMMA] + word;
    if s == [] {
      assert all[1..] == word;
      WordTokens(word);
    } else if IsDelimiter(s[0]) {
      assert all[1..] == s[1..] + [COMMA] + word;
      TokensMore(s[1..], word);
    } else {
      var n := WordLength(s);
      assert all == s[..n] + (s[n..] + [COMMA] + word);
      WholeWord(s[..n], s[n..] + [COMMA] + word);
      assert all[..n] == s[..n] && all[n..] == s[n..] + [COMMA] + word;
      TokensMore(s[n..], word);
    }
  }

  predicate AllFormed(intervals: seq<Interval>) {
    forall k :: 0 <= k < |intervals| ==> WellFormed(intervals[k])
  }

  predicate AllReadable(intervals: seq<Interval>, offset: nat) {
    forall k :: 0 <= k < |intervals| ==> !Unreadable(intervals[k], offset)
  }

  /** What is left of those that stay and can be read. */
  function Remaining(intervals: seq<Interval>, offset: nat): seq<Interval>
    requires AllFormed(intervals)
  {
    if intervals == [] then []
    else
      var last := intervals[|intervals| - 1];
      Remaining(intervals[..|intervals| - 1], offset) +
        (if Stays(last, offset) && !Unreadable(last, offset) then [Left(last, offset)] else [])
  }

  lemma {:induction false} ReadMore(tokens: seq<seq<byte>>, word: seq<byte>)
    ensures ReadTokens(tokens + [word]) ==
      ReadTokens(tokens) + (if ReadToken(word).Pages? then [ReadToken(word).interval] else [])
  {
    assert (tokens + [word])[..|tokens|] == tokens;
  }

  /** What is read is well formed. */
  lemma {:induction false} ReadFormed(tokens: seq<seq<byte>>)
    ensures AllFormed(ReadTokens(tokens))
    decreases |tokens|
  {
    if tokens != [] {
      ReadFormed(tokens[..|tokens| - 1]);
      hide ReadTokens;
      assert ReadToken(tokens[|tokens| - 1]).Pages? ==> WellFormed(ReadToken(tokens[|tokens| - 1]).interval);
      LastRead(tokens);
    }
  }

  lemma LastRead(tokens: seq<seq<byte>>)
    requires tokens != []
    ensures var r := ReadToken(tokens[|tokens| - 1]);
      ReadTokens(tokens) == ReadTokens(tokens[..|tokens| - 1]) + (if r.Pages? then [r.interval] else [])
  {
  }

  /** The whole range, with commas between the intervals, even those of which nothing is left. It can be read unless
      some interval cannot. */
  method RangeToBuffer(intervals: seq<Interval>, offset: nat) returns (buf: seq<byte>)
    requires forall k :: 0 <= k < |intervals| ==> InRange(intervals[k])
    ensures AllFormed(intervals) ==>
      && ReadTokens(Tokens(buf)) == Remaining(intervals, offset)
      && (AllValid(Tokens(buf)) <==> AllReadable(intervals, offset))
  {
    hide ReadToken, Tokens, Remaining, ReadTokens, AppliesAbove, Written, WellFormed, Unreadable;
    ghost var formed := AllFormed(intervals);
    var comma := false;
    buf := [];
    NothingWritten(intervals, offset);
    for i := 0 to |intervals|
      invariant !comma ==> buf == []
      invariant formed ==> Written(buf, intervals[..i], offset)
    {
      if AppliesAbove(intervals[i], offset) {
        var piece := IntervalToBuffer(intervals[i], offset);
        if formed {
          OneWritten(buf, piece, comma, intervals, i, offset);
        }
        if comma {
          buf := buf + [COMMA];
        }
        buf := buf + piece;
        comma := true;
      } else {
        if formed {
          NoneWritten(buf, intervals, i, offset);
        }
      }
    }
    assert intervals[..|intervals|] == intervals;
    if formed {
      WhatIsWritten(buf, intervals, offset);
    }
  }

  ghost predicate Written(buf: seq<byte>, intervals: seq<Interval>, offset: nat) {
    && AllFormed(intervals) && ReadTokens(Tokens(buf)) == Remaining(intervals, offset)
    && (AllValid(Tokens(buf)) <==> AllReadable(intervals, offset))
  }

  lemma WhatIsWritten(buf: seq<byte>, intervals: seq<Interval>, offset: nat)
    requires Written(buf, intervals, offset)
    ensures AllFormed(intervals) && ReadTokens(Tokens(buf)) == Remaining(intervals, offset)
    ensures AllValid(Tokens(buf)) <==> AllReadable(intervals, offset)
  {
  }

  lemma NothingWritten(intervals: seq<Interval>, offset: nat)
    ensures Written([], intervals[..0], offset)
  {
    assert intervals[..0] == [];
  }

  lemma OneMoreReadable(intervals: seq<Interval>, i: nat, offset: nat)
    requires i < |intervals| && AllFormed(intervals)
    ensures AllFormed(intervals[..i]) && AllFormed(intervals[..i + 1])
    ensures AllReadable(intervals[..i + 1], offset) <==>
      AllReadable(intervals[..i], offset) && !Unreadable(intervals[i], offset)
  {
    hide Unreadable, WellFormed;
    assert forall k :: 0 <= k < i ==> intervals[..i + 1][k] == intervals[..i][k];
    assert intervals[..i + 1][i] == intervals[i];
  }

  lemma NoneWritten(buf: seq<byte>, intervals: seq<Interval>, i: nat, offset: nat)
    requires i < |intervals| && AllFormed(intervals) && Written(buf, intervals[..i], offset)
    requires !AppliesAbove(intervals[i], offset)
    ensures Written(buf, intervals[..i + 1], offset)
  {
    hide ReadToken, Tokens, Passed, Left;
    OneMoreReadable(intervals, i, offset);
    assert intervals[..i + 1][..i] == intervals[..i];
    assert Remaining(intervals[..i], offset) + [] == Remaining(intervals[..i], offset);
  }

  lemma OneWritten(buf: seq<byte>, piece: seq<byte>, comma: bool, intervals: seq<Interval>, i: nat, offset: nat)
    requires i < |intervals| && AllFormed(intervals) && Written(buf, intervals[..i], offset)
    requires AppliesAbove(intervals[i], offset) && (!comma ==> buf == [])
    requires if Passed(intervals[i], offset) then piece == []
             else if Unreadable(intervals[i], offset) then
               NoDelimiter(piece) && piece != [] && ReadToken(piece) == Invalid
             else Says(piece, Left(intervals[i], offset))
    ensures Written((if comma then buf + [COMMA] else buf) + piece, intervals[..i + 1], offset)
  {
    hide ReadToken, Tokens, Left;
    OneMoreReadable(intervals, i, offset);
    assert intervals[..i + 1][..i] == intervals[..i];
    PieceAdded(buf, piece, comma);
    ReadMore(Tokens(buf), piece);
    MoreValid(Tokens(buf), piece);
    assert Tokens(buf) + [] == Tokens(buf);
    assert Remaining(intervals[..i], offset) + [] == Remaining(intervals[..i], offset);
  }

  lemma MoreValid(tokens: seq<seq<byte>>, word: seq<byte>)
    ensures AllValid(tokens + [word]) <==> AllValid(tokens) && ReadToken(word) != Invalid
  {
    hide ReadToken;
    assert (tokens + [word])[|tokens|] == word;
    assert forall k :: 0 <= k < |tokens| ==> (tokens + [word])[k] == tokens[k];
  }

  lemma PieceAdded(buf: seq<byte>, piece: seq<byte>, comma: bool)
    requires NoDelimiter(piece) && (!comma ==> buf == [])
    ensures Tokens((if comma then buf + [COMMA] else buf) + piece) ==
      Tokens(buf) + (if piece == [] then [] else [piece])
  {
    if comma {
      TokensMore(buf, piece);
    } else {
      assert [] + piece == piece;
      WordTokens(piece);
      WordTokens([]);
    }
  }

  ghost predicate AnyBegun(intervals: seq<Interval>, offset: nat) {
    exists k :: 0 <= k < |intervals| && Begun(intervals[k], offset)
  }

  ghost predicate AnyEnding(intervals: seq<Interval>, offset: nat, p: nat) {
    exists k :: 0 <= k < |intervals| && Ending(intervals[k], offset, p)
  }

  /** What is read back selects a page just when the range selects it counted from the offset, but for intervals already
      begun, which are left out, and those that end at the offset, which are not. */
  lemma {:induction false} RemainingSelects(intervals: seq<Interval>, offset: nat, p: nat)
    requires AllFormed(intervals) && AllReadable(intervals, offset) && p >= 1 && p + offset < WORD
    ensures AnyIn(intervals, p + offset) || AnyEnding(intervals, offset, p) <==>
      AnyIn(Remaining(intervals, offset), p) || AnyBegun(intervals, offset)
  {
    hide AnyIn, IsIn, Left, Passed, WellFormed, Unreadable, Stays, Begun, Ending, AnyEnding;
    if intervals == [] {
      NoneIn(p);
      NoneIn(p + offset);
      NoneEnding(offset, p);
    } else {
      var init, last := intervals[..|intervals| - 1], intervals[|intervals| - 1];
      RemainingSelects(init, offset, p);
      LeftIsIn(last, offset, p);
      var r := Remaining(init, offset);
      assert intervals == init + [last];
      MoreIn(init, last, p + offset);
      MoreBegun(init, last, offset);
      MoreEnding(init, last, offset, p);
      if Stays(last, offset) {
        assert Remaining(intervals, offset) == r + [Left(last, offset)];
        MoreIn(r, Left(last, offset), p);
      } else {
        assert Remaining(intervals, offset) == r + [] == r;
      }
    }
  }

  lemma NoneEnding(offset: nat, p: nat)
    ensures !AnyEnding([], offset, p)
  {
  }

  lemma MoreEnding(s: seq<Interval>, last: Interval, offset: nat, p: nat)
    ensures AnyEnding(s + [last], offset, p) <==> AnyEnding(s, offset, p) || Ending(last, offset, p)
  {
    hide Ending;
    if AnyEnding(s, offset, p) {
      var k :| 0 <= k < |s| && Ending(s[k], offset, p);
      assert (s + [last])[k] == s[k];
    }
    assert (s + [last])[|s|] == last;
  }

  /** Nothing is left when no interval stays. */
  lemma {:induction false} NothingRemains(intervals: seq<Interval>, offset: nat)
    requires AllFormed(intervals) && AllReadable(intervals, offset)
    ensures Remaining(intervals, offset) == [] <==> forall k :: 0 <= k < |intervals| ==> !Stays(intervals[k], offset)
  {
    hide Left, Stays, WellFormed, Unreadable;
    if intervals != [] {
      var init, last := intervals[..|intervals| - 1], intervals[|intervals| - 1];
      NothingRemains(init, offset);
      assert intervals == init + [last];
      assert forall k :: 0 <= k < |init| ==> intervals[k] == init[k];
    }
  }

  lemma MoreBegun(s: seq<Interval>, last: Interval, offset: nat)
    ensures AnyBegun(s + [last], offset) <==> AnyBegun(s, offset) || Begun(last, offset)
  {
    hide Begun;
    if AnyBegun(s, offset) {
      var k :| 0 <= k < |s| && Begun(s[k], offset);
      assert (s + [last])[k] == s[k];
    }
    assert (s + [last])[|s|] == last;
  }

  lemma NoneIn(p: nat)
    ensures !AnyIn([], p)
  {
  }

  lemma MoreIn(s: seq<Interval>, last: Interval, p: nat)
    ensures AnyIn(s + [last], p) <==> AnyIn(s, p) || IsIn(last, p)
  {
    hide IsIn;
    if AnyIn(s, p) {
      var k :| 0 <= k < |s| && IsIn(s[k], p);
      assert (s + [last])[k] == s[k];
    }
    assert (s + [last])[|s|] == last;
  }

  lemma BegunSelects(intervals: seq<Interval>, offset: nat, p: nat)
    requires AnyBegun(intervals, offset)
    ensures AnyIn(intervals, p + offset)
  {
    var k :| 0 <= k < |intervals| && Begun(intervals[k], offset);
    assert IsIn(intervals[k], p + offset);
  }

  predicate Page(p: nat, offset: nat) {
    p >= 1 && p + offset < WORD
  }

  /** Exactly when writing and reading back keeps the meaning of a range that can be read. An interval already begun,
      which the text leaves out, does no harm when nothing else is left or what is left selects every page by
      itself; without one, something must be left, as no text at all selects every page, and what is written for an
      interval that ends at the offset must select no page that is not selected anyway. */
  lemma RoundTrip(intervals: seq<Interval>, offset: nat)
    requires AllFormed(intervals) && AllReadable(intervals, offset) && Page(1, offset)
    ensures var none := forall k :: 0 <= k < |intervals| ==> !Stays(intervals[k], offset);
      (forall p: nat :: Page(p, offset) ==>
        (Selects(Remaining(intervals, offset), p) <==> Selects(intervals, p + offset)))
       <==> if AnyBegun(intervals, offset)
            then none || forall p: nat :: Page(p, offset) ==> AnyIn(Remaining(intervals, offset), p)
            else intervals == [] || (!none && forall p: nat :: Page(p, offset) && AnyEnding(intervals, offset, p) ==>
                                               AnyIn(intervals, p + offset))
  {
    var rest := Remaining(intervals, offset);
    NothingRemains(intervals, offset);
    hide Stays, Remaining, Begun, AnyIn, AnyBegun, AnyEnding, AllFormed, AllReadable;
    forall p: nat | Page(p, offset)
      ensures AnyIn(intervals, p + offset) || AnyEnding(intervals, offset, p) <==>
        AnyIn(rest, p) || AnyBegun(intervals, offset)
      ensures AnyBegun(intervals, offset) ==> AnyIn(intervals, p + offset)
    {
      RemainingSelects(intervals, offset, p);
      if AnyBegun(intervals, offset) {
        BegunSelects(intervals, offset, p);
      }
    }
    if AnyBegun(intervals, offset) {
      BegunSelects(intervals, offset, 1);
      NoneIn(1 + offset);
      forall p: nat | Page(p, offset)
        ensures Selects(rest, p) == Selects(intervals, p + offset) <==> rest == [] || AnyIn(rest, p)
      {
      }
    } else if rest == [] && intervals != [] {
      NoneIn(1);
      assert Selects(rest, 1) && !Selects(intervals, 1 + offset);
    } else {
      assert intervals == [] ==> rest == [];
      forall p: nat | Page(p, offset)
        ensures Selects(rest, p) == Selects(intervals, p + offset) <==>
          intervals == [] || (AnyEnding(intervals, offset, p) ==> AnyIn(intervals, p + offset))
      {
      }
    }
  }

  /** An interval that ends just at the offset is written as one that begins there. */
  lemma EndsAtOffset(i: Interval, offset: nat)
    requires 1 <= i.min <= i.max == offset
    ensures Stays(i, offset) && IsIn(Left(i, offset), 1) && !IsIn(i, 1 + offset)
  {
  }

  // ----- the range of a job -----

  /** `atoi`, and how many digits it takes. */
  method Atoi(s: seq<byte>, from: nat) returns (value: nat, next: nat)
    requires from <= |s|
    ensures next == from + DigitCount(s[from..]) <= |s| && value == NumberOf(s[from..][..next - from])
  {
    value, next := 0, from;
    assert s[from..][..0] == [];
    while next < |s| && IsDigit(s[next])
      invariant from <= next <= |s| && forall k :: from <= k < next ==> IsDigit(s[k])
      invariant value == NumberOf(s[from..][..next - from])
    {
      var digits := s[from..][..next + 1 - from];
      assert digits[..|digits| - 1] == s[from..][..next - from];
      value := 10 * value + (s[next] as int - 48);
      next := next + 1;
    }
    assert s[from..] == s[from..next] + s[next..];
    CountDigits(s[from..next], s[next..]);
  }

  method ParseToken(cp: seq<byte>) returns (r: Read)
    ensures r == ReadToken(cp)
  {
    var min, p := Atoi(cp, 0);
    assert cp[0..] == cp;
    ghost var rest := cp[p..];
    if p == |cp| {
      return Pages(Interval(min, min));
    }
    if cp[p] == COLON || cp[p] == DASH {
      var max, q := Atoi(cp, p + 1);
      assert rest[1..] == cp[p + 1..];
      if q != |cp| || (max != 0 && max < min) {
        return Invalid;
      }
      return Pages(Interval(min, max));
    }
    if cp[p..] == TOC {
      return Toc;
    }
    r := Invalid;
  }

  ghost predicate AsksToc(tokens: seq<seq<byte>>) {
    exists k :: 0 <= k < |tokens| && ReadToken(tokens[k]) == Toc
  }

  /** Of a text, `done` is behind and `rest` ahead. */
  ghost predicate Taken(text: seq<byte>, done: seq<seq<byte>>, rest: seq<byte>, before: seq<Interval>,
                        intervals: seq<Interval>, toc: bool) {
    && done + Tokens(rest) == Tokens(text)
    && AllValid(done) && intervals == before + ReadTokens(done) && (toc <==> AsksToc(done))
  }

  lemma NothingTaken(text: seq<byte>, intervals: seq<Interval>)
    ensures Taken(text, [], text, intervals, intervals, false)
  {
    hide Tokens;
    assert [] + Tokens(text) == Tokens(text);
  }

  lemma TakeDelimiter(text: seq<byte>, done: seq<seq<byte>>, rest: seq<byte>, before: seq<Interval>,
                      intervals: seq<Interval>, toc: bool)
    requires Taken(text, done, rest, before, intervals, toc) && rest != [] && IsDelimiter(rest[0])
    ensures Taken(text, done, rest[1..], before, intervals, toc)
  {
    hide AllValid, AsksToc, ReadTokens;
  }

  lemma TakeToken(text: seq<byte>, done: seq<seq<byte>>, rest: seq<byte>, n: nat, before: seq<Interval>,
                  intervals: seq<Interval>, toc: bool)
    requires Taken(text, done, rest, before, intervals, toc) && rest != [] && !IsDelimiter(rest[0])
    requires n <= |rest| && (forall k :: 0 <= k < n ==> !IsDelimiter(rest[k])) && (n < |rest| ==> IsDelimiter(rest[n]))
    ensures n > 0
    ensures var r := ReadToken(rest[..n]);
      if r == Invalid then !AllValid(Tokens(text))
      else
        var intervals' := intervals + (if r.Pages? then [r.interval] else []);
        Taken(text, done + [rest[..n]], rest[n..], before, intervals', toc || r == Toc)
  {
    hide ReadToken, Tokens;
    var word := rest[..n];
    FirstToken(rest, n);
    assert Tokens(text)[|done|] == word;
    ReadMore(done, word);
    Associative(done, [word], Tokens(rest[n..]));
    var more := done + [word];
    assert more[|done|] == word && forall k :: 0 <= k < |done| ==> more[k] == done[k];
    assert before + ReadTokens(more) == intervals + (if ReadToken(word).Pages? then [ReadToken(word).interval] else []);
  }

  lemma FirstToken(rest: seq<byte>, n: nat)
    requires rest != [] && !IsDelimiter(rest[0])
    requires n <= |rest| && (forall k :: 0 <= k < n ==> !IsDelimiter(rest[k])) && (n < |rest| ==> IsDelimiter(rest[n]))
    ensures n > 0 && Tokens(rest) == [rest[..n]] + Tokens(rest[n..])
  {
    assert rest == rest[..n] + rest[n..];
    WholeWord(rest[..n], rest[n..]);
  }

  lemma AllTaken(text: seq<byte>, done: seq<seq<byte>>, before: seq<Interval>, intervals: seq<Interval>, toc: bool)
    requires Taken(text, done, [], before, intervals, toc)
    ensures done == Tokens(text) && AllValid(done) && intervals == before + ReadTokens(done) && (toc <==> AsksToc(done))
  {
    assert done + [] == done;
  }

  class Range {
    var intervals: seq<Interval>
    var toc: bool

    constructor ()
      ensures intervals == [] && !toc
    {
      intervals, toc := [], false;
    }

    /** Adds the intervals of the text, token by token, up to one that is not well formed. */
    method SetString(text: seq<byte>) returns (ok: bool)
      modifies this
      ensures ok <==> AllValid(Tokens(text))
      ensures ok ==> intervals == old(intervals) + ReadTokens(Tokens(text)) && (toc <==> AsksToc(Tokens(text)))
    {
      hide Tokens, Taken;
      toc := false;
      var rest := text;
      ghost var done: seq<seq<byte>> := [];
      NothingTaken(text, intervals);
      while rest != []
        invariant Taken(text, done, rest, old(intervals), intervals, toc)
        decreases |rest|
      {
        if IsDelimiter(rest[0]) {
          TakeDelimiter(text, done, rest, old(intervals), intervals, toc);
          rest := rest[1..];
          continue;
        }
        var n := 0;
        while n < |rest| && !IsDelimiter(rest[n])
          invariant n <= |rest| && forall k :: 0 <= k < n ==> !IsDelimiter(rest[k])
          modifies {}
        {
          n := n + 1;
        }
        var r := ParseToken(rest[..n]);
        TakeToken(text, done, rest, n, old(intervals), intervals, toc);
        if r == Invalid {
          return false;
        }
        match r {
          case Pages(i) => intervals := intervals + [i];
          case Toc =>
            assert intervals + [] == intervals;
            toc := true;
        }
        done := done + [rest[..n]];
        rest := rest[n..];
      }
      AllTaken(text, done, old(intervals), intervals, toc);
      ok := true;
    }

    /** Whether a page is printed: one of the table of contents is when that is asked for. */
    method PrintPage(num: nat, isToc: bool) returns (r: bool)
      ensures r <==> (toc && isToc) || (if toc then AnyIn(intervals, num) else Selects(intervals, num))
    {
      if toc && isToc {
        return true;
      }
      if |intervals| == 0 && !toc {
        return true;
      }
      for i := 0 to |intervals|
        invariant forall k :: 0 <= k < i ==> !IsIn(intervals[k], num)
      {
        if IsIn(intervals[i], num) {
          return true;
        }
      }
      r := false;
    }
  }
}
