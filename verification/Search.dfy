/** Searching for the first place where the pattern matches, with or without the first-byte map. */
module Search {
  import opened Answering
  import opened Bytecode
  import opened Bytes
  import opened CodeShape
  import opened Ere
  import opened Fastmap
  import opened LoopDepth
  import opened LoopForms
  import opened Machine
  import opened MatcherState
  import opened MatcherSteps
  import opened PastTheEnd
  import opened PopDecision
  import opened Regex
  import opened Rewriting

  ghost predicate Accurate(code: seq<byte>, fastmap: array<bool>, canBeNull: bool)
    reads fastmap
  {
    && fastmap.Length == 256
    && (forall c: byte :: fastmap[c] <==> FirstByte(code, c))
    && (canBeNull <==> Reachable(code, |code|))
  }

  /** The last place tried, which stays within the text. */
  function LastPlace(length: nat, startpos: nat, range: int): (r: nat)
    ensures r <= length
  {
    if startpos + range < 0 then 0 else if startpos + range > length then length else startpos + range
  }

  // ----- what may be found -----

  /** The matcher may find a match at `i`. */
  ghost predicate MayMatch(code: seq<byte>, text: seq<byte>, i: nat) {
    exists n: nat, l: nat :: Runs(text, i, First(code, i), n, Matched(l))
  }

  /** It may find none, or is bound not to find any. */
  ghost predicate MayFail(code: seq<byte>, text: seq<byte>, i: nat) {
    (exists n: nat :: Runs(text, i, First(code, i), n, NoMatch)) || forall j: nat :: !Accepts(code, text, i, j)
  }

  /** Nowhere else to look, or the matcher has given up. */
  datatype Found = At(pos: nat) | Nowhere | GivenUp(pos: nat)

  predicate Between(from: nat, i: nat, to': nat) {
    if from <= to' then from <= i <= to' else to' <= i <= from
  }

  /** On the way from `from` to `to'`, which may be either way, `i` comes before `pos`. */
  predicate Earlier(from: nat, i: nat, pos: nat, to': nat) {
    Between(from, i, to') && if from <= to' then i < pos else i > pos
  }

  ghost predicate FailedBefore(code: seq<byte>, text: seq<byte>, from: nat, pos: nat, to': nat) {
    forall i: nat :: Earlier(from, i, pos, to') ==> MayFail(code, text, i)
  }

  /** The first place at which there is a match. */
  ghost predicate FirstFound(code: seq<byte>, text: seq<byte>, from: nat, to': nat, r: Found) {
    match r
    case At(pos) => Between(from, pos, to') && MayMatch(code, text, pos) && FailedBefore(code, text, from, pos, to')
    case Nowhere => forall i: nat :: Between(from, i, to') ==> MayFail(code, text, i)
    case GivenUp(pos) => Between(from, pos, to') && FailedBefore(code, text, from, pos, to')
  }

  /** A place at which there is a match is not one at which there is none. */
  lemma Settled(code: seq<byte>, starts: set<nat>, text: seq<byte>, i: nat)
    requires Shape(code, 0, |code|, starts, {}) && i <= |text|
    ensures !(MayMatch(code, text, i) && MayFail(code, text, i))
  {
    hide Shape, Running, Runs, Rewritten, Accepts;
    if MayMatch(code, text, i) && MayFail(code, text, i) {
      var job := Job(code, starts, text, i);
      var n: nat, l: nat :| Runs(text, i, First(code, i), n, Matched(l));
      Init(job);
      Unchanged(code, starts);
      RunsRight(job, First(code, i), n, Matched(l));
      assert Accepts(code, text, i, i + l);
      var m: nat :| Runs(text, i, First(code, i), m, NoMatch);
      OnlyAnswer(job, n, Matched(l), m, NoMatch);
    }
  }

  /** So two searches agree, whether or not they go by a first-byte map, and whatever each of them has rewritten. */
  lemma FirstMatchUnique(code: seq<byte>, starts: set<nat>, text: seq<byte>, from: nat, to': nat, r: Found, r': Found)
    requires Shape(code, 0, |code|, starts, {}) && from <= |text| && to' <= |text|
    requires FirstFound(code, text, from, to', r) && !r.GivenUp?
    requires FirstFound(code, text, from, to', r') && !r'.GivenUp?
    ensures r == r'
  {
    hide MayMatch, MayFail, Shape;
    if r.At? {
      Settled(code, starts, text, r.pos);
    }
    if r'.At? {
      Settled(code, starts, text, r'.pos);
    }
    if r.At? && r'.At? {
      InOrder(from, r.pos, r'.pos, to');
    }
  }

  lemma InOrder(from: nat, i: nat, j: nat, to': nat)
    requires Between(from, i, to') && Between(from, j, to')
    ensures i == j || Earlier(from, i, j, to') || Earlier(from, j, i, to')
  {
  }

  /** Something is accepted from `i`. */
  ghost predicate MatchesAt(code: seq<byte>, text: seq<byte>, i: nat) {
    exists j: nat :: Accepts(code, text, i, j)
  }

  /** If nothing that matters is thrown away, what the matcher may find is what there is. */
  lemma MayExactly(code: seq<byte>, starts: set<nat>, text: seq<byte>, i: nat)
    requires Shape(code, 0, |code|, starts, {}) && i <= |text| && Sure(Job(code, starts, text, i))
    ensures MayMatch(code, text, i) ==> MatchesAt(code, text, i)
    ensures MayFail(code, text, i) ==> !MatchesAt(code, text, i)
  {
    hide Shape, Running, Runs, Rewritten, Sure, Accepts;
    var job := Job(code, starts, text, i);
    Init(job);
    Unchanged(code, starts);
    if MayMatch(code, text, i) {
      var n: nat, l: nat :| Runs(text, i, First(code, i), n, Matched(l));
      RunsRight(job, First(code, i), n, Matched(l));
      assert Accepts(code, text, i, i + l);
    }
    if MayFail(code, text, i) && exists n: nat :: Runs(text, i, First(code, i), n, NoMatch) {
      var n: nat :| Runs(text, i, First(code, i), n, NoMatch);
      RunsRight(job, First(code, i), n, NoMatch);
    }
  }

  /** The first place where there is a match, if there is one. */
  ghost predicate TrulyFirst(code: seq<byte>, text: seq<byte>, from: nat, to': nat, r: Found) {
    match r
    case At(pos) =>
      && Between(from, pos, to') && MatchesAt(code, text, pos)
      && forall i: nat :: Earlier(from, i, pos, to') ==> !MatchesAt(code, text, i)
    case Nowhere => forall i: nat :: Between(from, i, to') ==> !MatchesAt(code, text, i)
    case GivenUp(_) => false
  }

  /** Then the search finds the first place there is. */
  lemma FoundExactly(code: seq<byte>, starts: set<nat>, text: seq<byte>, from: nat, to': nat, r: Found)
    requires Shape(code, 0, |code|, starts, {}) && from <= |text| && to' <= |text|
    requires Neat(code, starts) && forall t :: Closes(code, starts, t) ==> Trusted(code, starts, t)
    requires FirstFound(code, text, from, to', r) && !r.GivenUp?
    ensures TrulyFirst(code, text, from, to', r)
  {
    hide Shape, MayMatch, MayFail, MatchesAt, Neat, Trusted, Sure;
    forall i: nat | Between(from, i, to')
      ensures MayMatch(code, text, i) ==> MatchesAt(code, text, i)
      ensures MayFail(code, text, i) ==> !MatchesAt(code, text, i)
    {
      SureWhen(Job(code, starts, text, i));
      MayExactly(code, starts, text, i);
    }
  }

  /** Where the map has no entry for the next character, there is no match. */
  lemma NoStart(code: seq<byte>, text: seq<byte>, i: nat)
    requires i <= |text| && !Reachable(code, |code|)
    requires i < |text| ==> !FirstByte(code, text[i])
    ensures MayFail(code, text, i)
  {
    forall j: nat
      ensures !Accepts(code, text, i, j)
    {
      if Accepts(code, text, i, j) {
        AcceptedStarts(code, text, i, j);
      }
    }
  }

  // ----- the search -----

  /** Tries to match at `startpos`, then one place after another, at most `range` places on. */
  method Find(buffer: PatternBuffer, text: seq<byte>, fastmap: array?<bool>, canBeNull: bool,
              startpos: int, range: int, fuel: nat) returns (r: Found)
    requires buffer.Valid() && (fastmap != null ==> Accurate(buffer.original, fastmap, canBeNull))
    modifies buffer.buffer
    ensures buffer.Valid()
    ensures if 0 <= startpos <= |text| then
      FirstFound(buffer.original, text, startpos, LastPlace(|text|, startpos, range), r)
      else r == Nowhere
    ensures Neat(buffer.original, buffer.starts) && fuel >= Enough(buffer.used, |text|) ==> !r.GivenUp?
  {
    hide FirstByte, Reachable, Accepts, MayMatch, MayFail, PatternBuffer.Valid, Runs, Neat, Enough, Longest;
    if startpos < 0 || startpos > |text| {
      return Nowhere;
    }
    ghost var code := buffer.original;
    var at: nat, left := startpos, range;
    if startpos + range < 0 {
      left := 0 - startpos;
    } else if startpos + range > |text| {
      left := |text| - startpos;
    }
    ghost var to' := LastPlace(|text|, startpos, range);
    while true
      invariant buffer.Valid() && (fastmap != null ==> Accurate(code, fastmap, canBeNull))
      invariant at + left == to' && at <= |text|
      invariant if startpos <= to' then startpos <= at && left >= 0 else at <= startpos && left <= 0
      invariant FailedBefore(code, text, startpos, at, to')
      decreases if left >= 0 then left else -left
    {
      var skip := false;
      if fastmap != null && at < |text| && !canBeNull {
        if left > 0 {
          while left > 0 && !fastmap[text[at]]
            invariant at + left == to' && 0 <= left && startpos <= at <= |text|
            invariant FailedBefore(code, text, startpos, at, to')
            decreases left
            modifies {}
          {
            NoStart(code, text, at);
            at, left := at + 1, left - 1;
          }
        } else {
          skip := !fastmap[text[at]];
          if skip {
            NoStart(code, text, at);
          }
        }
      }
      if left >= 0 && at == |text| && fastmap != null && !canBeNull {
        NoStart(code, text, at);
        return Nowhere;
      }
      if !skip {
        var val := buffer.Match(text, at, fuel);
        if val.Matched? {
          Matches(code, text, at, fuel, val);
          return At(at);
        }
        if val == OutOfFuel {
          return GivenUp(at);
        }
        Fails(code, text, at, fuel);
      }
      if left == 0 {
        break;
      } else if left > 0 {
        at, left := at + 1, left - 1;
      } else {
        at, left := at - 1, left + 1;
      }
    }
    r := Nowhere;
  }

  lemma Matches(code: seq<byte>, text: seq<byte>, i: nat, n: nat, r: Outcome)
    requires Runs(text, i, First(code, i), n, r) && r.Matched?
    ensures MayMatch(code, text, i)
  {
    hide Runs;
    assert r == Matched(r.length);
  }

  lemma Fails(code: seq<byte>, text: seq<byte>, i: nat, n: nat)
    requires Runs(text, i, First(code, i), n, NoMatch)
    ensures MayFail(code, text, i)
  {
    hide Runs;
  }

  /** A search that first makes the map, from the code as it stands. Only when the analysis goes astray,
      past the end of the code, is there nothing to go by. */
  method FindWithMap(buffer: PatternBuffer, after: byte, text: seq<byte>, startpos: int, range: int, fuel: nat)
    returns (r: Found, astray: bool)
    requires buffer.Valid()
    modifies buffer.buffer
    ensures buffer.Valid()
    ensures astray <==> LooksPast(buffer.original) && after == ON_FAILURE_JUMP
    ensures buffer.Modest() ==> (astray <==> OpenEnded(buffer.alts) && after == ON_FAILURE_JUMP)
    ensures !astray && 0 <= startpos <= |text| ==>
      FirstFound(buffer.original, text, startpos, LastPlace(|text|, startpos, range), r)
  {
    hide FirstByte, Reachable, LooksPast, FirstFound, OpenEnded;
    var fastmap := new bool[256];
    AsItStands(buffer);
    var now := buffer.buffer[..buffer.used];
    var analysis, looked := CompileFastmap(now, after, fastmap, buffer.original, buffer.starts);
    if analysis.Overrun? {
      return Nowhere, true;
    }
    astray := false;
    r := Find(buffer, text, fastmap, analysis.canBeNull, startpos, range, fuel);
  }

  lemma AsItStands(buffer: PatternBuffer)
    requires buffer.Valid()
    ensures buffer.used <= buffer.buffer.Length && Shape(buffer.original, 0, |buffer.original|, buffer.starts, {})
    ensures Variant(buffer.original, buffer.buffer[..buffer.used], buffer.starts)
    ensures buffer.Modest() ==> (LooksPast(buffer.original) <==> OpenEnded(buffer.alts))
  {
    hide Shape, Accepts, AltsMatch, LooksPast, OpenEnded;
  }
}
