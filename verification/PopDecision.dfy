/** At the closing jump of a loop: whether the alternative saved by the loop's fork can be thrown
    away, because what the loop's body begins with cannot begin what follows the loop. */
module PopDecision {
  import opened Bytecode
  import opened Bytes
  import opened CodeShape
  import Ere
  import opened Fastmap
  import opened FreeRuns
  import opened Judgement
  import opened LoopDepth
  import opened LoopForms
  import opened MatcherState
  import opened MatcherSteps

  /** `c` can come next when an instruction passes. */
  predicate Admits(instr: Instr, c: byte) {
    if instr.LineEnd? then c == Ere.NEWLINE else Starts(instr, c)
  }

  ghost predicate Disjoint(body: Instr, follow: Instr) {
    forall c: byte :: !(Starts(body, c) && Admits(follow, c))
  }

  /** The two comparisons that go wrong: the size of a full bitmap is cut to eight bits, and the
      length of a literal is taken for its first character. */
  predicate Misread(body: Instr, follow: Instr) {
    match body
    case Exact(_) => follow.CharSet?
    case CharSet(_, m) => |m| >= 32 && !follow.CharSet?
    case _ => false
  }

  predicate Comparable(body: Instr, follow: Instr) {
    && (body.Exact? || body.CharSet?) && (body.Exact? ==> 0 < |body.bytes| < 256)
    && (follow.Exact? || follow.LineEnd? || (follow.CharSet? && !follow.negated))
    && (follow.Exact? ==> follow.bytes != [])
  }

  /** But for those two, the decision is exact on everything the matcher compares. */
  lemma JudgementExact(body: Instr, follow: Instr)
    requires Comparable(body, follow) && !Misread(body, follow)
    ensures Judged(body, follow) <==> Disjoint(body, follow)
  {
    if follow.CharSet? {
      if Disjoint(body, follow) {
        forall c: byte
          ensures body.negated ==> (InBitmap(follow.bitmap, c) ==> InBitmap(body.bitmap, c))
          ensures !body.negated ==> !(InBitmap(follow.bitmap, c) && InBitmap(body.bitmap, c))
        {
          assert !(Starts(body, c) && Admits(follow, c));
        }
      }
    } else {
      var c := if follow.Exact? then follow.bytes[0] else Ere.NEWLINE;
      assert forall c' :: Admits(follow, c') <==> c' == c;
      assert Disjoint(body, follow) <==> !Starts(body, c);
    }
  }

  /** What the instruction after the loop begins with, when it is but one character. */
  function OnlyStart(follow: Instr): byte
    requires follow.Exact? ==> follow.bytes != []
  {
    if follow.Exact? then follow.bytes[0] else Ere.NEWLINE
  }

  /** The two ways to be wrong: the length of a literal is not in the set that follows, though its first
      character is; or a full bitmap has the one character that follows. */
  predicate Mistaken(body: Instr, follow: Instr)
    requires Comparable(body, follow)
  {
    if follow.CharSet? then
      body.Exact? && !InBitmap(follow.bitmap, |body.bytes|) && InBitmap(follow.bitmap, body.bytes[0])
    else body.CharSet? && !body.negated && |body.bitmap| == 32 && InBitmap(body.bitmap, OnlyStart(follow))
  }

  predicate ShortMap(instr: Instr) {
    instr.CharSet? ==> |instr.bitmap| <= 32
  }

  /** The decision to throw a loop's alternative away is wrong exactly in these two ways. */
  lemma MistakenExactly(body: Instr, follow: Instr)
    requires Comparable(body, follow) && ShortMap(body) && ShortMap(follow)
    ensures Judged(body, follow) && !Disjoint(body, follow) <==> Mistaken(body, follow)
  {
    if !Misread(body, follow) {
      JudgementExact(body, follow);
    } else if follow.CharSet? {
      assert Admits(follow, body.bytes[0]) <==> InBitmap(follow.bitmap, body.bytes[0]);
      assert forall c: byte :: Starts(body, c) <==> c == body.bytes[0];
    } else {
      var c := OnlyStart(follow);
      assert forall c': byte :: Admits(follow, c') <==> c' == c;
      assert Disjoint(body, follow) <==> !Starts(body, c);
    }
  }

  lemma FollowIsStart(code: seq<byte>, starts: set<nat>, p: nat)
    requires Shape(code, 0, |code|, starts, {}) && p in starts
    ensures Follow(code, p) in starts
    decreases |code| - p
  {
    hide Shape, Leads, Decode;
    EndIsStart(code, 0, |code|, starts, {});
    if p < |code| {
      FollowStep(code, starts, p);
      if p + 2 < |code| && (code[p] == STOP_MEMORY || code[p] == START_MEMORY) {
        FollowIsStart(code, starts, p + 3);
      } else if p + 6 < |code| && code[p] == DUMMY_FAILURE_JUMP {
        FollowIsStart(code, starts, p + 6);
      }
    }
  }

  lemma FollowStep(code: seq<byte>, starts: set<nat>, p: nat)
    requires Shape(code, 0, |code|, starts, {}) && p in starts && p < |code|
    ensures code[p] == STOP_MEMORY || code[p] == START_MEMORY ==> Decode(code, p) == Memory && p + 3 in starts
    ensures code[p] == DUMMY_FAILURE_JUMP ==> Decode(code, p) == Jump(p + 6) && p + 6 in starts
  {
    hide Shape, Target;
    InstructionOk(code, starts, p);
    if code[p] == DUMMY_FAILURE_JUMP {
      JumpLeads(code, p);
      LeadsTo(code, 0, |code|, starts, {}, p, p + 6);
    }
  }

  /** What is skipped consumes nothing. */
  lemma FollowSame(code: seq<byte>, starts: set<nat>, text: seq<byte>, p: nat, i: nat)
    requires Shape(code, 0, |code|, starts, {}) && p in starts
    ensures Same(code, text, p, i, Follow(code, p), i)
    decreases |code| - p
  {
    hide Shape, Decode;
    EndIsStart(code, 0, |code|, starts, {});
    if p < |code| {
      FollowStep(code, starts, p);
      if p + 2 < |code| && (code[p] == STOP_MEMORY || code[p] == START_MEMORY) {
        PlainStep(code, text, p, i);
        FollowSame(code, starts, text, p + 3, i);
      } else if p + 6 < |code| && code[p] == DUMMY_FAILURE_JUMP {
        JumpStep(code, text, p, i);
        FollowSame(code, starts, text, p + 6, i);
      }
    }
  }

  /** After a sound decision: where the body of the loop can begin, nothing is accepted past the loop. */
  lemma NoNeedToBacktrack(code: seq<byte>, starts: set<nat>, text: seq<byte>, p: nat, body: Instr, i: nat, j: nat)
    requires Shape(code, 0, |code|, starts, {}) && p in starts && Follow(code, p) < |code|
    requires var follow := Decode(code, Follow(code, p)); Comparable(body, follow) && Disjoint(body, follow)
    requires i < |text| && Starts(body, text[i])
    ensures !AccFrom(code, text, p, i, j)
  {
    hide Shape, Decode;
    var p2 := Follow(code, p);
    var follow := Decode(code, p2);
    assert !Admits(follow, text[i]);
    FollowSame(code, starts, text, p, i);
    PlainStep(code, text, p2, i);
    if follow.Exact? {
      FirstMatches(text, i, follow.bytes);
    }
  }

  lemma FirstMatches(text: seq<byte>, i: nat, s: seq<byte>)
    requires s != []
    ensures i + |s| <= |text| && text[i..i + |s|] == s ==> text[i] == s[0]
  {
    assert i + |s| <= |text| ==> text[i..i + |s|][0] == text[i];
  }

  // ----- loops over a single instruction -----

  /** The closing jump at `t` is not decided wrongly. */
  ghost predicate Fair(code: seq<byte>, t: nat)
    requires TightAt(code, t)
  {
    var p2 := Follow(code, t + 3);
    p2 < |code| && Judged(Body(code, t), Decode(code, p2)) ==> Disjoint(Body(code, t), Decode(code, p2))
  }

  lemma OnlyComparable(body: Instr, follow: Instr)
    requires Single(body) && Judged(body, follow)
    ensures Comparable(body, follow)
  {
  }

  lemma MapsShort(code: seq<byte>, starts: set<nat>, x: nat)
    requires Shape(code, 0, |code|, starts, {}) && x in starts && x < |code|
    ensures ShortMap(Decode(code, x))
  {
    hide Shape;
    InstructionOk(code, starts, x);
  }

  /** It is decided wrongly exactly in the two ways to be mistaken. */
  lemma FairExactly(code: seq<byte>, starts: set<nat>, t: nat)
    requires Shape(code, 0, |code|, starts, {}) && Closes(code, starts, t) && TightAt(code, t)
    ensures var p2 := Follow(code, t + 3);
      Fair(code, t) <==>
        !(p2 < |code| && Comparable(Body(code, t), Decode(code, p2)) && Mistaken(Body(code, t), Decode(code, p2)))
  {
    hide Shape, Decode, Judged, Disjoint, Mistaken, Comparable;
    var p2 := Follow(code, t + 3);
    if p2 < |code| {
      TightPlaces(code, starts, t);
      LoopExit(Job(code, starts, [], 0), t, 0);
      FollowIsStart(code, starts, t + 3);
      MapsShort(code, starts, p2);
      MapsShort(code, starts, Target(code, t) + 3);
      var body, follow := Body(code, t), Decode(code, p2);
      if Judged(body, follow) {
        OnlyComparable(body, follow);
      }
      if Comparable(body, follow) {
        MistakenExactly(body, follow);
      }
    }
  }

  /** Then the alternative thrown away leads to no longer match. */
  lemma FairHarmless(job: Job, t: nat)
    requires Shape(job.code, 0, |job.code|, job.starts, {}) && Closes(job.code, job.starts, t)
    requires TightAt(job.code, t) && Fair(job.code, t) && Pops(job.code, t)
    ensures Harmless(job, t)
  {
    hide Shape, Decode, Judged, AccFrom, Passes, Disjoint, Comparable, Target;
    LoopExit(job, t, 0);
    var p2 := Follow(job.code, t + 3);
    forall i: nat, j: nat | Leaves(job, t, i, j)
      ensures AsFar(job, t, i + 1, j)
    {
      if p2 < |job.code| {
        OnlyComparable(Body(job.code, t), Decode(job.code, p2));
        SingleStarts(Body(job.code, t), job.text, i);
        NoNeedToBacktrack(job.code, job.starts, job.text, t + 3, Body(job.code, t), i, j);
        assert false;
      } else {
        LastTurn(job, t, i, i + 1, j);
      }
    }
  }

  lemma SingleStarts(body: Instr, text: seq<byte>, i: nat)
    requires Single(body) && i < |text| && Passes(body, text, i)
    ensures Starts(body, text[i])
  {
    assert body.Exact? ==> text[i..i + 1][0] == text[i];
  }

  /** At the end of the pattern the loop accepts more the longer it goes on. */
  lemma LastTurn(job: Job, t: nat, i: nat, k: nat, j: nat)
    requires Shape(job.code, 0, |job.code|, job.starts, {}) && Closes(job.code, job.starts, t)
    requires t + 3 in job.starts && t + 3 <= |job.code| && Follow(job.code, t + 3) >= |job.code|
    requires AccFrom(job.code, job.text, t + 3, i, j) && i <= k
    ensures AsFar(job, t, k, j)
  {
    hide Shape, Decode, AccFrom, Target, Goes;
    var code, text := job.code, job.text;
    LoopExit(job, t, k);
    FollowSame(code, job.starts, text, t + 3, i);
    FollowSame(code, job.starts, text, t + 3, k);
    EndStep(code, text, i, j);
    EndStep(code, text, k, k);
    GoesAccepted(code, text, Target(code, t), k, t + 3, k, k);
    GoesAccepted(code, text, t, k, Target(code, t), k, k);
  }

  lemma LastAtEnd(job: Job, t: nat)
    requires Shape(job.code, 0, |job.code|, job.starts, {}) && Closes(job.code, job.starts, t)
    requires Follow(job.code, t + 3) >= |job.code|
    ensures Last(job, t)
  {
    hide Shape, Target, AccFrom, AsFar;
    LoopPlaces(job.code, job.starts, t);
    forall i: nat, j: nat, k: nat | i <= k <= |job.text| && AcceptsPast(job, t, i, j)
      ensures AsFar(job, t, k, j)
    {
      LastTurn(job, t, i, k, j);
    }
  }

  // ----- when the matcher can be trusted -----

  /** A loop over a single instruction is decided rightly; one over a group has something after it, or ends in
      alternatives, or saves nothing. */
  ghost predicate Trusted(code: seq<byte>, starts: set<nat>, t: nat) {
    if TightAt(code, t) then Fair(code, t)
    else Follow(code, t + 3) < |code| || DummyEnd(code, starts, t) || Straight(code, starts, t)
  }

  /** A loop over a group drops nothing unless nothing follows it. */
  lemma GroupPops(code: seq<byte>, t: nat)
    requires GroupAt(code, t) && MayPop(code, t)
    ensures Follow(code, t + 3) >= |code|
  {
    hide Target, Follow;
  }

  /** When every loop can be trusted, nothing that matters is thrown away. */
  lemma SureWhen(job: Job)
    requires Shape(job.code, 0, |job.code|, job.starts, {}) && Neat(job.code, job.starts)
    requires forall t :: Closes(job.code, job.starts, t) ==> Trusted(job.code, job.starts, t)
    ensures Sure(job)
  {
    hide Shape, Neat, Trusted, SafeAt, MayPop;
    forall t | Closes(job.code, job.starts, t) && MayPop(job.code, t)
      ensures SafeAt(job, t)
    {
      TrustedSafe(job, t);
    }
  }

  lemma TrustedSafe(job: Job, t: nat)
    requires Shape(job.code, 0, |job.code|, job.starts, {}) && Neat(job.code, job.starts)
    requires Closes(job.code, job.starts, t) && Trusted(job.code, job.starts, t) && MayPop(job.code, t)
    ensures SafeAt(job, t)
  {
    hide Shape, Fair, Pops, Harmless, Last, Target, Decode, DummyEnd, Straight, GroupAt;
    assert NeatAt(job.code, job.starts, t);
    if TightAt(job.code, t) {
      FairHarmless(job, t);
    } else {
      hide TightAt;
      GroupPops(job.code, t);
      if !DummyEnd(job.code, job.starts, t) {
        LastAtEnd(job, t);
      }
    }
  }

  // ----- the decision as the matcher takes it -----

  predicate BitsWithin(a: byte, b: byte) {
    forall k | 0 <= k < 8 :: Bit(a, k) ==> Bit(b, k)
  }

  predicate BitsMeet(a: byte, b: byte) {
    exists k | 0 <= k < 8 :: Bit(a, k) && Bit(b, k)
  }

  /** A bitmap read at `o`, after its length. */
  ghost predicate MapAt(buffer: seq<byte>, o: nat, m: seq<byte>) {
    && o + 1 + |m| <= |buffer| && buffer[o] == |m| <= 32
    && forall k :: 0 <= k < |m| ==> buffer[o + 1 + k] == m[k]
  }

  /** `c` against the body of the loop that starts at `b`. */
  method DecideByChar(code: array<byte>, used: nat, b: nat, c: byte) returns (pop: bool)
    requires used <= code.Length && b < used && Decode(code[..used], b) != Bad
    requires code[b] == CHARSET || code[b] == CHARSET_NOT ==> code[b + 1] <= 32
    ensures pop <==> JudgedByChar(Decode(code[..used], b), c)
  {
    if code[b] == EXACTN {
      pop := code[b + 2] != c;
    } else if code[b] == CHARSET || code[b] == CHARSET_NOT {
      var not := code[b] == CHARSET_NOT;
      if c as int < code[b + 1] as int * 8 % 256 && Bit(code[b + 2 + c / 8], c % 8) {
        not := !not;
      }
      pop := !not;
    } else {
      pop := false;
    }
  }

  lemma ByteOfMap(m: seq<byte>, idx: nat, k: nat)
    requires idx < |m| && k < 8 && idx * 8 + k < 256
    ensures InBitmap(m, idx * 8 + k) <==> Bit(m[idx], k)
  {
  }

  lemma MapsWithin(m: seq<byte>, b: seq<byte>)
    requires |m| <= 32 && |b| <= 32
    ensures (forall idx :: 0 <= idx < |m| ==> m[idx] == 0 || (idx < |b| && BitsWithin(m[idx], b[idx])))
       <==> (forall c: byte :: InBitmap(m, c) ==> InBitmap(b, c))
  {
    if forall c: byte :: InBitmap(m, c) ==> InBitmap(b, c) {
      forall idx | 0 <= idx < |m|
        ensures m[idx] == 0 || (idx < |b| && BitsWithin(m[idx], b[idx]))
      {
        if m[idx] != 0 {
          var k := SomeBit(m[idx]);
          ByteOfMap(m, idx, k);
          assert InBitmap(b, idx * 8 + k);
          forall k: nat | k < 8 && Bit(m[idx], k)
            ensures Bit(b[idx], k)
          {
            ByteOfMap(m, idx, k);
            ByteOfMap(b, idx, k);
          }
        }
      }
    }
    if forall idx :: 0 <= idx < |m| ==> m[idx] == 0 || (idx < |b| && BitsWithin(m[idx], b[idx])) {
      forall c: byte | InBitmap(m, c)
        ensures InBitmap(b, c)
      {
        ZeroBits(c % 8);
      }
    }
  }

  lemma ZeroBits(k: nat)
    ensures !Bit(0, k)
  {
  }

  /** A byte that is not zero has a bit set. */
  lemma SomeBit(a: byte) returns (k: nat)
    requires a != 0
    ensures k < 8 && Bit(a, k)
  {
    k := LowBit(a, 8);
  }

  lemma LowBit(a: nat, n: nat) returns (k: nat)
    requires 0 < a < Pow2(n)
    ensures k < n && Bit(a, k)
  {
    if a % 2 == 1 {
      k := 0;
    } else {
      k := LowBit(a / 2, n - 1);
      k := k + 1;
    }
  }

  lemma MapsMeet(m: seq<byte>, b: seq<byte>)
    requires |m| <= 32 && |b| <= 32
    ensures (forall idx :: 0 <= idx < |m| && idx < |b| ==> !BitsMeet(m[idx], b[idx]))
       <==> (forall c: byte :: !(InBitmap(m, c) && InBitmap(b, c)))
  {
    if forall c: byte :: !(InBitmap(m, c) && InBitmap(b, c)) {
      forall idx, k: nat | 0 <= idx < |m| && idx < |b| && k < 8
        ensures !(Bit(m[idx], k) && Bit(b[idx], k))
      {
        ByteOfMap(m, idx, k);
        ByteOfMap(b, idx, k);
        assert !(InBitmap(m, idx * 8 + k) && InBitmap(b, idx * 8 + k));
      }
    }
    if forall idx :: 0 <= idx < |m| && idx < |b| ==> !BitsMeet(m[idx], b[idx]) {
      forall c: byte
        ensures !(InBitmap(m, c) && InBitmap(b, c))
      {
        if c / 8 < |m| && c / 8 < |b| {
          assert !BitsMeet(m[c / 8], b[c / 8]);
        }
      }
    }
  }

  /** The bitmap that follows the loop, at `p2`, against the body of the loop at `b`. */
  /** Instructions with a count and that many bytes. */
  lemma CountedAt(now: seq<byte>, b: nat)
    requires b < |now| && Decode(now, b) != Bad
    ensures now[b] == EXACTN <==> Decode(now, b).Exact?
    ensures now[b] == CHARSET || now[b] == CHARSET_NOT <==> Decode(now, b).CharSet?
    ensures Decode(now, b).Exact? ==> b + 1 < |now| && |Decode(now, b).bytes| == now[b + 1]
    ensures Decode(now, b).CharSet? ==>
      var m := Decode(now, b).bitmap;
      && b + 2 + |m| <= |now| && |m| == now[b + 1] && (Decode(now, b).negated <==> now[b] == CHARSET_NOT)
      && forall k :: 0 <= k < |m| ==> now[b + 2 + k] == m[k]
  {
  }

  method DecideBySet(code: array<byte>, used: nat, b: nat, p2: nat) returns (pop: bool)
    requires used <= code.Length && b < used && p2 < used
    requires Decode(code[..used], b) != Bad && Decode(code[..used], p2) != Bad && code[p2] == CHARSET
    requires code[b] == CHARSET || code[b] == CHARSET_NOT ==> code[b + 1] <= 32
    requires code[p2 + 1] <= 32
    ensures pop <==> JudgedBySet(Decode(code[..used], b), Decode(code[..used], p2).bitmap)
  {
    ghost var now := code[..used];
    ghost var body, m := Decode(now, b), Decode(now, p2).bitmap;
    CountedAt(now, b);
    CountedAt(now, p2);
    hide Decode;
    if code[b] == EXACTN {
      var n := code[b + 1];
      pop := !(code[p2 + 1] as int * 8 > n as int && Bit(code[p2 + 2 + n / 8], n % 8));
    } else if code[b] == CHARSET || code[b] == CHARSET_NOT {
      pop := DecideByMaps(code, code[b] == CHARSET_NOT, b, body.bitmap, p2, m);
    } else {
      pop := false;
    }
  }

  method DecideByMaps(code: array<byte>, not: bool, b: nat, ghost s: seq<byte>, p2: nat, ghost m: seq<byte>)
    returns (pop: bool)
    requires MapAt(code[..], b + 1, s) && MapAt(code[..], p2 + 1, m)
    ensures pop <==> JudgedBySet(CharSet(not, s), m)
  {
    assert forall k :: 0 <= k < |m| ==> code[p2 + 2 + k] == m[k];
    assert forall k :: 0 <= k < |s| ==> code[b + 2 + k] == s[k];
    var idx: int := 0;
    if not {
      while idx < code[p2 + 1] as int
        invariant 0 <= idx <= |m|
        invariant forall k :: 0 <= k < idx ==> m[k] == 0 || (k < |s| && BitsWithin(m[k], s[k]))
      {
        if !(code[p2 + 2 + idx] == 0
             || (idx < code[b + 1] as int && BitsWithin(code[p2 + 2 + idx], code[b + 2 + idx]))) {
          assert !(m[idx] == 0 || (idx < |s| && BitsWithin(m[idx], s[idx])));
          break;
        }
        idx := idx + 1;
      }
      MapsWithin(m, s);
      pop := idx == code[p2 + 1] as int;
    } else {
      while idx < code[p2 + 1] as int && idx < code[b + 1] as int
        invariant 0 <= idx <= |m| && idx <= |s|
        invariant forall k :: 0 <= k < idx ==> !BitsMeet(m[k], s[k])
      {
        if BitsMeet(code[p2 + 2 + idx], code[b + 2 + idx]) {
          assert BitsMeet(m[idx], s[idx]);
          break;
        }
        idx := idx + 1;
      }
      MapsMeet(m, s);
      pop := idx == code[p2 + 1] as int || idx == code[b + 1] as int;
    }
  }

  lemma WhatFollows(code: seq<byte>, p2: nat)
    requires p2 < |code| && Decode(code, p2) != Bad
    ensures code[p2] == EXACTN ==>
      p2 + 2 < |code| && forall body :: Judged(body, Decode(code, p2)) <==> JudgedByChar(body, code[p2 + 2])
    ensures code[p2] == ENDLINE ==> forall body :: Judged(body, Decode(code, p2)) <==> JudgedByChar(body, Ere.NEWLINE)
    ensures code[p2] == CHARSET ==> Decode(code, p2).CharSet?
    ensures code[p2] == CHARSET ==>
      forall body :: Judged(body, Decode(code, p2)) <==> JudgedBySet(body, Decode(code, p2).bitmap)
    ensures !(code[p2] in {EXACTN, ENDLINE, CHARSET}) ==> forall body :: !Judged(body, Decode(code, p2))
  {
    hide JudgedByChar, JudgedBySet;
  }

  /** Past the marks of groups and the forks of `+`. */
  method SkipMarks(code: array<byte>, used: nat, p: nat) returns (p2: nat)
    requires used <= code.Length && p <= used
    ensures p2 == Follow(code[..used], p) <= used
  {
    p2 := p;
    while true
      invariant p2 <= used && Follow(code[..used], p2) == Follow(code[..used], p)
      decreases used - p2
    {
      if p2 + 2 < used && (code[p2] == STOP_MEMORY || code[p2] == START_MEMORY) {
        p2 := p2 + 3;
      } else if p2 + 6 < used && code[p2] == DUMMY_FAILURE_JUMP {
        p2 := p2 + 6;
      } else {
        break;
      }
    }
  }

  /** Past the loop closed just before `p`; its body begins at `b`. */
  method Decide(code: array<byte>, used: nat, p: nat, b: nat, ghost starts: set<nat>) returns (pop: bool)
    requires used <= code.Length && p <= used && b < used && Decode(code[..used], b) != Bad
    requires code[b] == CHARSET || code[b] == CHARSET_NOT ==> code[b + 1] <= 32
    requires var p2 := Follow(code[..used], p);
      p2 < used ==> Decode(code[..used], p2) != Bad && (code[p2] == CHARSET ==> code[p2 + 1] <= 32)
    ensures var p2 := Follow(code[..used], p);
      pop <==> p2 == used || Judged(Decode(code[..used], b), Decode(code[..used], p2))
  {
    ghost var now := code[..used];
    hide JudgedByChar, JudgedBySet;
    if Follow(now, p) < used {
      WhatFollows(now, Follow(now, p));
    }
    hide Judged, Decode, Follow;
    var p2 := SkipMarks(code, used, p);
    if p2 == used {
      return true;
    }
    if code[p2] == EXACTN || code[p2] == ENDLINE {
      pop := DecideByChar(code, used, b, if code[p2] == ENDLINE then Ere.NEWLINE else code[p2 + 2]);
    } else if code[p2] == CHARSET {
      pop := DecideBySet(code, used, b, p2);
    } else {
      pop := false;
    }
  }
}
