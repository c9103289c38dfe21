/** The lines a reader sees of a whole file. A form feed at the end of a line takes the end of line with it. */
module ReadLines {
  import opened Bytes
  import opened LineBuffer

  // ----- the text without ends of lines after form feeds -----

  /** The text with each end of line replaced by a newline, or by nothing after a form feed; `feed` when one comes just
      before the text. */
  function Kept(eol: Eol, s: Text, feed: bool): Text {
    if s == [] then []
    else
      var n := EolLen(eol, s);
      if n > 0 then (if feed then [] else [LF]) + Kept(eol, s[n..], false)
      else [s[0]] + Kept(eol, s[1..], s[0] == FORM_FEED)
  }

  predicate EndsInFeed(s: Text) {
    s != [] && s[|s| - 1] == FORM_FEED
  }

  /** How many characters come after the last end of line, when `before` came before the text. */
  function Unended(eol: Eol, s: Text, before: nat): nat {
    if s == [] then before
    else if EolLen(eol, s) > 0 then Unended(eol, s[EolLen(eol, s)..], 0)
    else Unended(eol, s[1..], before + 1)
  }

  predicate FeedLastButOne(s: Text) {
    |s| >= 2 && s[|s| - 2] == FORM_FEED
  }

  /** The last line has no end of line, and its last character but one is a form feed. */
  predicate FeedBeforeLast(eol: Eol, a: Text, b: Text) {
    Unended(eol, b, Unended(eol, a, 0)) >= 2 && FeedLastButOne(a + b)
  }

  /** What is read of a string and a stream: then the last character is lost. */
  function AllKept(eol: Eol, a: Text, b: Text): Text {
    KeptLong(eol, a, 0, false);
    KeptLong(eol, b, Unended(eol, a, 0), EndsInFeed(a));
    Less(Kept(eol, a, false) + Kept(eol, b, EndsInFeed(a)), FeedBeforeLast(eol, a, b))
  }

  function Less(text: Text, lost: bool): Text
    requires lost ==> text != []
  {
    if lost then text[..|text| - 1] else text
  }

  /** What comes after the last end of line is kept. */
  lemma {:induction false} KeptLong(eol: Eol, s: Text, before: nat, feed: bool)
    ensures Unended(eol, s, before) <= before + |Kept(eol, s, feed)|
    decreases |s|
  {
    hide EolLen;
    if s != [] {
      var n := EolLen(eol, s);
      KeptLong(eol, s[if n > 0 then n else 1..], if n > 0 then 0 else before + 1, n == 0 && s[0] == FORM_FEED);
    }
  }

  function Trimmed(line: Text): Text {
    if |line| >= 2 && line[|line| - 2] == FORM_FEED then line[..|line| - 1] else line
  }

  function AllTrimmed(raws: seq<Text>): seq<Text> {
    seq(|raws|, k requires 0 <= k < |raws| => Trimmed(raws[k]))
  }

  // ----- where nothing is dropped -----

  /** Nothing is dropped but newlines after form feeds. */
  lemma {:induction false} KeptExactly(eol: Eol, s: Text, feed: bool)
    ensures |Kept(eol, s, feed)| <= |Normal(eol, s)|
    ensures |Kept(eol, s, feed)| == |Normal(eol, s)| ==> Kept(eol, s, feed) == Normal(eol, s)
    ensures Kept(eol, s, feed) == Normal(eol, s) <==> !(feed && EolLen(eol, s) > 0) && !FeedEnds(eol, s)
    decreases |s|
  {
    if s != [] {
      hide EolLen;
      var n := EolLen(eol, s);
      var rest, feed' := s[if n > 0 then n else 1..], n == 0 && s[0] == FORM_FEED;
      KeptExactly(eol, rest, feed');
      FeedEndsOn(eol, s);
      SameFirst(if n > 0 then LF else s[0], Kept(eol, rest, feed'), Normal(eol, rest));
    }
  }

  lemma SameFirst(x: byte, s: Text, t: Text)
    ensures [x] + s == [x] + t <==> s == t
  {
    assert ([x] + s)[1..] == s && ([x] + t)[1..] == t;
  }

  /** Some end of line comes after a form feed. */
  ghost predicate FeedEnds(eol: Eol, s: Text) {
    exists k :: 0 <= k < |s| && s[k] == FORM_FEED && EolLen(eol, s[k + 1..]) > 0
  }

  lemma FeedEndsOn(eol: Eol, s: Text)
    requires s != []
    ensures var n := EolLen(eol, s);
      FeedEnds(eol, s) <==>
        if n > 0 then FeedEnds(eol, s[n..]) else FeedEnds(eol, s[1..]) || (s[0] == FORM_FEED && EolLen(eol, s[1..]) > 0)
  {
    var n := EolLen(eol, s);
    if n > 0 {
      assert forall k :: 0 <= k < n ==> s[k] != FORM_FEED;
      FeedEndsFrom(eol, s, n);
    } else if s[0] == FORM_FEED && EolLen(eol, s[1..]) > 0 {
      assert s[0] == FORM_FEED && EolLen(eol, s[0 + 1..]) > 0;
    } else {
      FeedEndsFrom(eol, s, 1);
    }
  }

  lemma FeedEndsFrom(eol: Eol, s: Text, step: nat)
    requires step <= |s| && forall k :: 0 <= k < step ==> s[k] != FORM_FEED || EolLen(eol, s[k + 1..]) == 0
    ensures FeedEnds(eol, s) <==> FeedEnds(eol, s[step..])
  {
    hide EolLen;
    var rest := s[step..];
    forall k | step <= k < |s|
      ensures rest[k - step] == s[k] && rest[k - step + 1..] == s[k + 1..]
    {
    }
    if FeedEnds(eol, s) {
      var k :| 0 <= k < |s| && s[k] == FORM_FEED && EolLen(eol, s[k + 1..]) > 0;
      assert rest[k - step] == FORM_FEED && EolLen(eol, rest[k - step + 1..]) > 0;
    }
    if FeedEnds(eol, rest) {
      var k :| 0 <= k < |rest| && rest[k] == FORM_FEED && EolLen(eol, rest[k + 1..]) > 0;
      assert s[k + step] == FORM_FEED && rest[k + 1..] == s[k + step + 1..];
    }
  }

  /** The lines make up the text exactly where no end of line comes after a form feed, and no last character either. */
  lemma KeptWhole(eol: Eol, a: Text, b: Text)
    ensures AllKept(eol, a, b) == Normal(eol, a) + Normal(eol, b) <==>
      && !FeedEnds(eol, a) && !FeedEnds(eol, b) && !(EndsInFeed(a) && EolLen(eol, b) > 0)
      && !FeedBeforeLast(eol, a, b)
  {
    KeptExactly(eol, a, false);
    KeptExactly(eol, b, EndsInFeed(a));
    KeptLong(eol, a, 0, false);
    KeptLong(eol, b, Unended(eol, a, 0), EndsInFeed(a));
    hide Kept, Normal, EolLen, FeedEnds, Unended, EndsInFeed;
  }

  /** So they do without form feeds. */
  lemma PlainKept(eol: Eol, a: Text, b: Text)
    requires FORM_FEED !in a && FORM_FEED !in b
    ensures AllKept(eol, a, b) == Normal(eol, a) + Normal(eol, b)
  {
    KeptWhole(eol, a, b);
    hide AllKept, Normal, EolLen, Unended;
    assert forall k :: 0 <= k < |a + b| ==> (a + b)[k] in a || (a + b)[k] in b;
  }

  /** Of a file of the three characters a, form feed and b, the b is never seen. */
  lemma LastLost(eol: Eol)
    ensures AllKept(eol, [], [97, FORM_FEED, 98]) == [97, FORM_FEED]
  {
    var b := [97, FORM_FEED, 98];
    assert b[1..] == [FORM_FEED, 98] && b[2..] == [98] && [FORM_FEED, 98][1..] == [98] && [98][1..] == [];
    assert Kept(eol, [98], true) == [98] && Unended(eol, [98], 2) == 3;
    assert Kept(eol, [FORM_FEED, 98], false) == [FORM_FEED] + [98];
    assert Kept(eol, b, false) == [97] + [FORM_FEED, 98];
    assert Unended(eol, b, 0) == Unended(eol, [FORM_FEED, 98], 1) == Unended(eol, [98], 2);
  }

  // ----- line after line -----

  /** What is kept of a line that has its end of line. */
  function KeptLine(line: Text, feed: bool): Text {
    if (|line| == 1 && feed) || (|line| >= 2 && line[|line| - 2] == FORM_FEED) then line[..|line| - 1] else line
  }

  lemma {:induction false} CutKept(eol: Eol, s: Text, feed: bool)
    ensures var r := Cut(eol, s);
      if r.ended then Kept(eol, s, feed) == KeptLine(r.text, feed) + Kept(eol, r.rest, false) && r.text != []
      else Kept(eol, s, feed) == s == r.text && r.rest == []
  {
    hide EolLen;
    if s != [] {
      if EolLen(eol, s) > 0 {
        CutEnd(eol, s);
      } else {
        var feed', r := s[0] == FORM_FEED, Cut(eol, s[1..]);
        CutKept(eol, s[1..], feed');
        CutOn(eol, s);
        KeptOn(eol, s, feed);
        KeptLineOn(s[0], r.text, feed);
        hide Cut, Kept, KeptLine;
        Associative([s[0]], KeptLine(r.text, feed'), Kept(eol, r.rest, false));
      }
    }
  }

  lemma KeptOn(eol: Eol, s: Text, feed: bool)
    requires s != [] && EolLen(eol, s) == 0
    ensures Kept(eol, s, feed) == [s[0]] + Kept(eol, s[1..], s[0] == FORM_FEED)
  {
  }

  lemma KeptLineOn(x: byte, line: Text, feed: bool)
    ensures line != [] ==> KeptLine([x] + line, feed) == [x] + KeptLine(line, x == FORM_FEED)
  {
    if |line| == 1 && x == FORM_FEED {
      assert ([x] + line)[..1] == [x] + line[..0];
    } else if |line| >= 2 {
      assert ([x] + line)[|line| - 1] == line[|line| - 2];
      assert ([x] + line)[..|line|] == [x] + line[..|line| - 1];
    }
  }

  /** What is left when a line has been taken off ends as the whole did. */
  lemma {:induction false} CutSuffix(eol: Eol, s: Text, before: nat) returns (start: Text)
    ensures var r := Cut(eol, s);
      if r.ended then
        && s == start + r.rest && Unended(eol, s, before) == Unended(eol, r.rest, 0)
        && (EndsInFeed(s) <==> EndsInFeed(r.rest))
      else Unended(eol, s, before) == before + |s|
  {
    hide EolLen, Cut, Unended, EndsInFeed;
    start := [];
    if s == [] {
      CutNothing(eol);
      UnendedNothing(eol, before);
    } else if EolLen(eol, s) > 0 {
      CutEnd(eol, s);
      UnendedOn(eol, s, before);
      start := EndTaken(eol, s);
    } else {
      CutOn(eol, s);
      UnendedOn(eol, s, before);
      start := CutSuffix(eol, s[1..], before + 1);
      if Cut(eol, s).ended {
        EndedNotEmpty(eol, s[1..]);
        FeedAtEnd([s[0]], s[1..]);
        Associative([s[0]], start, Cut(eol, s).rest);
        start := [s[0]] + start;
      }
    }
  }

  lemma EndTaken(eol: Eol, s: Text) returns (start: Text)
    requires EolLen(eol, s) > 0
    ensures s == start + s[EolLen(eol, s)..] && (EndsInFeed(s) <==> EndsInFeed(s[EolLen(eol, s)..]))
  {
    EolChars(eol, s);
    start := s[..EolLen(eol, s)];
    FeedAtEnd(start, s[EolLen(eol, s)..]);
  }

  lemma UnendedNothing(eol: Eol, before: nat)
    ensures Unended(eol, [], before) == before
  {
  }

  lemma EndedNotEmpty(eol: Eol, s: Text)
    requires Cut(eol, s).ended
    ensures s != []
  {
  }

  lemma FeedAtEnd(start: Text, end: Text)
    ensures EndsInFeed(start + end) <==> if end != [] then EndsInFeed(end) else EndsInFeed(start)
  {
  }

  lemma UnendedOn(eol: Eol, s: Text, before: nat)
    requires s != []
    ensures var n := EolLen(eol, s);
      Unended(eol, s, before) == if n > 0 then Unended(eol, s[n..], 0) else Unended(eol, s[1..], before + 1)
  {
  }

  lemma EolChars(eol: Eol, s: Text)
    requires EolLen(eol, s) > 0
    ensures s[EolLen(eol, s) - 1] != FORM_FEED
  {
  }

  lemma {:induction false} UnendedFew(eol: Eol, s: Text, before: nat)
    ensures Unended(eol, s, before) <= before + |s|
    decreases |s|
  {
    hide EolLen;
    if s != [] {
      var n := EolLen(eol, s);
      UnendedFew(eol, s[if n > 0 then n else 1..], if n > 0 then 0 else before + 1);
    }
  }

  lemma JoinTrimmed(raw: Text, raws: seq<Text>)
    ensures Concat(AllTrimmed([raw] + raws)) == Trimmed(raw) + Concat(AllTrimmed(raws))
  {
    assert AllTrimmed([raw] + raws)[1..] == AllTrimmed(raws);
  }

  lemma SameFeed(eol: Eol, start: Text, rest: Text, b: Text)
    requires Unended(eol, start + rest, 0) == Unended(eol, rest, 0)
    ensures FeedBeforeLast(eol, start + rest, b) <==> FeedBeforeLast(eol, rest, b)
  {
    UnendedFew(eol, rest, 0);
    UnendedFew(eol, b, Unended(eol, rest, 0));
    hide Unended, FeedLastButOne;
    FeedInEnd(start, rest + b);
    Associative(start, rest, b);
  }

  lemma FeedInEnd(start: Text, end: Text)
    ensures |end| >= 2 ==> (FeedLastButOne(start + end) <==> FeedLastButOne(end))
  {
  }

  lemma LessAfter(x: Text, text: Text, lost: bool)
    requires lost ==> text != []
    ensures Less(x + text, lost) == x + Less(text, lost)
  {
  }

  /** The string holds a whole line. */
  lemma KeptOfString(eol: Eol, a: Text, b: Text)
    requires Cut(eol, a).ended
    ensures AllKept(eol, a, b) == Trimmed(Cut(eol, a).text) + AllKept(eol, Cut(eol, a).rest, b)
  {
    var r := Cut(eol, a);
    CutKept(eol, a, false);
    var start := CutSuffix(eol, a, 0);
    SameFeed(eol, start, r.rest, b);
    KeptLong(eol, r.rest, 0, false);
    KeptLong(eol, b, Unended(eol, r.rest, 0), EndsInFeed(a));
    var x, y, z := KeptLine(r.text, false), Kept(eol, r.rest, false), Kept(eol, b, EndsInFeed(a));
    assert x == Trimmed(r.text);
    hide Kept, Unended, EolLen, Cut, EndsInFeed, Less, KeptLine, Trimmed;
    Associative(x, y, z);
    LessAfter(x, y + z, FeedBeforeLast(eol, a, b));
  }

  /** The line ends in the stream. */
  lemma KeptOfStream(eol: Eol, a: Text, b: Text)
    requires !Cut(eol, a).ended && Cut(eol, b).ended
    ensures AllKept(eol, a, b) == Trimmed(Cut(eol, a).text + Cut(eol, b).text) + AllKept(eol, [], Cut(eol, b).rest)
  {
    var more := Cut(eol, b);
    CutKept(eol, a, false);
    CutKept(eol, b, EndsInFeed(a));
    StreamFeed(eol, a, b);
    KeptLong(eol, more.rest, 0, false);
    LineAcross(a, more.text);
    NothingKept(eol);
    var x, y, z := a, KeptLine(more.text, EndsInFeed(a)), Kept(eol, more.rest, false);
    assert [] + z == z;
    hide Kept, Unended, EolLen, Cut, EndsInFeed, Less, KeptLine, Trimmed, FeedBeforeLast;
    Associative(x, y, z);
    LessAfter(x + y, z, FeedBeforeLast(eol, a, b));
  }

  lemma StreamFeed(eol: Eol, a: Text, b: Text)
    requires !Cut(eol, a).ended && Cut(eol, b).ended
    ensures var rest := Cut(eol, b).rest;
      && (FeedBeforeLast(eol, a, b) <==> FeedBeforeLast(eol, [], rest))
      && (FeedBeforeLast(eol, a, b) ==> Unended(eol, rest, 0) >= 2)
  {
    var rest := Cut(eol, b).rest;
    var _ := CutSuffix(eol, a, 0);
    var start := CutSuffix(eol, b, |a|);
    UnendedFew(eol, rest, 0);
    NothingKept(eol);
    hide Unended, Cut, FeedLastButOne;
    assert [] + rest == rest;
    FeedInEnd(a + start, rest);
    Associative(a, start, rest);
  }

  lemma NothingKept(eol: Eol)
    ensures Kept(eol, [], false) == [] && Unended(eol, [], 0) == 0
  {
  }

  lemma LineAcross(a: Text, line: Text)
    requires line != []
    ensures Trimmed(a + line) == a + KeptLine(line, EndsInFeed(a))
  {
    if |line| == 1 {
      assert (a + line)[..|a|] == a;
    } else {
      assert (a + line)[|a + line| - 2] == line[|line| - 2];
      DropLast(a, line);
    }
  }

  lemma DropLast(x: Text, text: Text)
    requires text != []
    ensures (x + text)[..|x + text| - 1] == x + text[..|text| - 1]
  {
  }

  /** No line is left. */
  lemma KeptOfNone(eol: Eol, a: Text, b: Text)
    requires !Cut(eol, a).ended && !Cut(eol, b).ended
    ensures AllKept(eol, a, b) == Trimmed(a + b) && Cut(eol, a).text == a && Cut(eol, b).text == b
  {
    CutKept(eol, a, false);
    CutKept(eol, b, EndsInFeed(a));
    var _ := CutSuffix(eol, a, 0);
    var _ := CutSuffix(eol, b, |a|);
    hide Kept, Unended, EolLen, Cut, EndsInFeed;
    assert FeedBeforeLast(eol, a, b) <==> FeedLastButOne(a + b);
  }

  /** The lines make up what is kept. */
  lemma {:induction false} TakeAllKept(eol: Eol, a: Text, b: Text)
    requires NoEof(a)
    ensures Concat(AllTrimmed(TakeAll(eol, a, b))) == AllKept(eol, a, b)
    decreases |a| + |b|
  {
    hide Cut, CutString, AllKept, NoEof, Trimmed, Concat, AllTrimmed;
    CutWhole(eol, a);
    NoEofNothing();
    NoneKept(eol);
    var r, more, t := Cut(eol, a), Cut(eol, b), Take(eol, a, b);
    if t.text != [] {
      TakeAllKept(eol, t.left, t.ahead);
      JoinTrimmed(t.text, TakeAll(eol, t.left, t.ahead));
    }
    if r.ended {
      KeptOfString(eol, a, b);
    } else if more.ended {
      KeptOfStream(eol, a, b);
    } else {
      KeptOfNone(eol, a, b);
    }
  }

  lemma NoneKept(eol: Eol)
    ensures AllKept(eol, [], []) == [] && Trimmed([]) == [] && Concat(AllTrimmed([])) == []
  {
  }

  // ----- reading -----

  /** Line after line until one is empty. */
  method ReadAll(b: Buffer) returns (lines: seq<Text>, ghost raws: seq<Text>)
    requires b.Valid()
    modifies b
    ensures raws == TakeAll(b.eol, old(b.Sample()), old(b.stream[b.position..])) && |lines| == |raws|
    ensures forall k :: 0 <= k < |lines| ==>
      var n := |raws[k]|;
      lines[k] == if n >= 2 && raws[k][n - 2] == FORM_FEED then raws[k][..n - 1] else raws[k]
    ensures old(NoEof(b.Sample())) ==>
      Concat(lines) == AllKept(b.eol, old(b.Sample()), old(b.stream[b.position..]))
    ensures b.line == old(b.line) + |lines| + 1
  {
    hide Take, TakeAll, AllKept, Concat, NoEof;
    lines, raws := [], [];
    ghost var a0, b0 := b.Sample(), b.stream[b.position..];
    ghost var all := TakeAll(b.eol, a0, b0);
    assert [] + all == all;
    while true
      invariant b.Valid() && |lines| == |raws| && b.line == old(b.line) + |lines|
      invariant raws + TakeAll(b.eol, b.Sample(), b.stream[b.position..]) == all
      invariant forall k :: 0 <= k < |lines| ==> lines[k] == Trimmed(raws[k])
      decreases |b.Sample()| + |b.stream[b.position..]|
    {
      ghost var left, rest := b.Sample(), b.stream[b.position..];
      var raw := b.Get();
      TakeOne(b.eol, left, rest);
      NoneEmpty(raw);
      if |b.content| == 0 {
        assert raws + [] == raws;
        break;
      }
      Associative(raws, [raw], TakeAll(b.eol, b.Sample(), b.stream[b.position..]));
      lines, raws := lines + [b.content], raws + [raw];
    }
    assert lines == AllTrimmed(raws);
    if NoEof(a0) {
      TakeAllKept(b.eol, a0, b0);
    }
  }

  lemma TakeOne(eol: Eol, a: Text, b: Text)
    ensures var t := Take(eol, a, b);
      TakeAll(eol, a, b) == if t.text == [] then [] else [t.text] + TakeAll(eol, t.left, t.ahead)
    ensures Take(eol, a, b).text != [] ==> |Take(eol, a, b).left| + |Take(eol, a, b).ahead| < |a| + |b|
  {
  }

  lemma NoneEmpty(raw: Text)
    ensures Trimmed(raw) == [] <==> raw == []
  {
  }
}
