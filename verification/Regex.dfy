/** Compiling a pattern and matching it against a text, as a caller does. */
module Regex {
  import opened Answering
  import opened Bytecode
  import opened Bytes
  import opened CodeMeaning
  import opened CodeShape
  import opened CodeTree
  import opened Ere
  import opened EreParser
  import opened Fastmap
  import opened LoopCode
  import opened LoopForms
  import opened LoopSafety
  import opened LoopTrust
  import opened Machine
  import opened Matcher
  import opened MatcherState
  import opened MatcherSteps
  import opened Numbering
  import opened PastTheEnd
  import opened PopDecision
  import opened RegexCompiler
  import opened Rewriting

  /** A compiled pattern, with what its closing jumps have been rewritten to so far. */
  class PatternBuffer {
    const buffer: array<byte>
    const used: nat
    ghost const original: seq<byte>
    ghost const starts: set<nat>
    ghost const alts: Alts

    ghost predicate Valid()
      reads this, buffer
    {
      && used <= buffer.Length && used < JUMP_LIMIT
      && Shape(original, 0, |original|, starts, {}) && Rewritten(original, buffer[..used], starts)
      && (forall text, i: nat, j: nat :: Accepts(original, text, i, j) <==> AltsMatch(alts, text, i, j))
      && (Numberable(alts) ==> Neat(original, starts))
      && (Numberable(alts) && SafeLoops(alts) ==> Reliable())
      && (Modest() ==> (LooksPast(original) <==> OpenEnded(alts)))
    }

    /** Groups can be numbered in a byte, and the code is not too long. */
    ghost predicate Modest() {
      AltsGroups(alts) <= MAX_REGNUM && |original| + 1 < JUMP_LIMIT
    }

    constructor (buffer: array<byte>, used: nat, ghost tree: Choice)
      requires used <= buffer.Length && used < JUMP_LIMIT && buffer[..used] == ChoiceCode(tree) && ChoiceOk(tree)
      requires ChoiceNumbered(tree, 0)
      ensures Valid() && this.buffer == buffer && this.used == used && alts == ExpandChoice(tree)
      ensures original == buffer[..used]
    {
      hide Shape, Accepts, AltsMatch, Numberable, Neat, SafeLoops, Trusted, LooksPast, OpenEnded, AltsGroups;
      ghost var shape := CodeShaped(tree);
      this.buffer, this.used := buffer, used;
      this.original, this.starts, this.alts := ChoiceCode(tree), shape, ExpandChoice(tree);
      new;
      CodeMeansTree(tree);
      if Numberable(alts) {
        CodeNeat(tree, starts);
        if SafeLoops(alts) {
          CodeTrusted(tree, starts);
        }
      }
      if Modest() {
        LooksPastExactly(tree);
      }
    }

    /** Every loop is over a single instruction or a group with its own number, and the matcher is right about it. */
    ghost predicate Reliable() {
      Neat(original, starts) && forall t :: Closes(original, starts, t) ==> Trusted(original, starts, t)
    }

    /** What the expression tells. */
    lemma WhenReliable()
      requires Valid()
      ensures Numberable(alts) ==> Neat(original, starts)
      ensures Numberable(alts) && SafeLoops(alts) ==> Reliable()
    {
      hide Shape, Accepts, AltsMatch, Rewritten, Neat, Trusted, LooksPast, OpenEnded, AltsGroups;
    }

    /** Matches at `pos`. The answer is one that can be given from the code as it was compiled, whatever
        has been rewritten since. What is returned is a match of the expression; when the matcher can be relied
        on it is the longest, and there is none when none is found. */
    method Match(text: seq<byte>, pos: int, fuel: nat) returns (r: Outcome)
      requires Valid()
      modifies buffer
      ensures Valid()
      ensures pos < 0 || pos > |text| ==> r == NoMatch
      ensures 0 <= pos <= |text| ==> Runs(text, pos, First(original, pos), fuel, r)
      ensures r.Matched? ==> 0 <= pos && pos + r.length <= |text| && AltsMatch(alts, text, pos, pos + r.length)
      ensures Reliable() ==> Longest(alts, text, pos, r)
      ensures Neat(original, starts) && fuel >= Enough(used, |text|) ==> r != OutOfFuel
    {
      hide Shape, Accepts, AltsMatch, Rewritten, Running, Runs, Neat, Trusted, Enough;
      hide SafeLoops, Numberable, LooksPast, OpenEnded, AltsGroups;
      if pos < 0 || pos > |text| {
        return NoMatch;
      }
      ghost var job := Job(original, starts, text, pos);
      ghost var now := buffer[..used];
      var run := new Activation(buffer, used, text, pos, job);
      AtFirst(job, now);
      r := run.Run(pos, fuel);
      FromOriginal(job, now, fuel, r);
      if Reliable() {
        SureWhen(job);
      }
    }
  }

  /** What is answered from rewritten code can be answered from the code as compiled. */
  lemma FromOriginal(job: Job, now: seq<byte>, fuel: nat, r: Outcome)
    requires Shape(job.code, 0, |job.code|, job.starts, {}) && job.start <= |job.text|
    requires Rewritten(job.code, now, job.starts)
    requires Runs(job.text, job.start, First(now, job.start), fuel, r)
    ensures Runs(job.text, job.start, First(job.code, job.start), fuel, r)
  {
    hide Shape, Running, Runs, Closing;
    Init(job);
    assert Rewritten(job.code, job.code, job.starts);
    hide Rewritten;
    RunsAlike(job, First(now, job.start), fuel, r, job.code);
  }

  /** The code of a pattern that short has no jump too long for its two bytes. */
  const SHORT := 2730

  datatype Answer = NotCompiled(status: Status) | TooLong | Ran(outcome: Outcome)

  /** Compiles a pattern and matches it at one place of a text. */
  method CompileAndMatch(pattern: Text, text: seq<byte>, pos: int, fuel: nat) returns (a: Answer)
    ensures a.Ran? ==> Parse(pattern).Parsed?
    ensures a.Ran? && a.outcome.Matched? ==>
      0 <= pos && AltsMatch(Parse(pattern).alts, text, pos, pos + a.outcome.length)
    ensures a.Ran? && Parse(pattern).Parsed? ==> Dependable(Parse(pattern).alts, text, pos, fuel, a.outcome)
    ensures match a
      case Ran(_) => true
      case TooLong => |pattern| > SHORT
      case NotCompiled(Unsupported) => Parse(pattern) == OutOfFragment
      case NotCompiled(Rejected(e)) => Parse(pattern) == Failed(e) || (e == ESIZE && |pattern| > ALWAYS_FITS)
      case NotCompiled(Going) => false
  {
    hide Parse, AltsMatch, Accepts, Shape, Longest, Enough, Trusted, Neat, Runs, SafeLoops, Numberable, ChoiceNumbered;
    hide PatternBuffer.Valid, PatternBuffer.Reliable;
    var compiler := new Compiler(pattern);
    var status, tree := compiler.Compile();
    if status != Going {
      return NotCompiled(status);
    }
    if compiler.b >= JUMP_LIMIT {
      return TooLong;
    }
    var compiled := new PatternBuffer(compiler.buffer, compiler.b, tree);
    compiled.WhenReliable();
    EnoughForAny(compiled.used, |text|);
    var r := compiled.Match(text, pos, fuel);
    a := Ran(r);
  }

  /** The longest match is returned, and none only when there is none. */
  ghost predicate Longest(alts: Alts, text: seq<byte>, pos: int, r: Outcome) {
    && (r.Matched? ==> 0 <= pos && forall j: nat :: AltsMatch(alts, text, pos, j) ==> j <= pos + r.length)
    && (r == NoMatch && 0 <= pos <= |text| ==> forall j: nat :: !AltsMatch(alts, text, pos, j))
  }

  /** What can be relied on, unless loops are over groups of which there are too many to be numbered: there is an
      answer in the end, and it is the right one if the loops are safe. */
  ghost predicate Dependable(alts: Alts, text: seq<byte>, pos: int, fuel: nat, r: Outcome) {
    && (Numberable(alts) && fuel >= Enough(JUMP_LIMIT, |text|) ==> r != OutOfFuel)
    && (Numberable(alts) && SafeLoops(alts) ==> Longest(alts, text, pos, r))
  }

  lemma EnoughForAny(used: nat, length: nat)
    requires used < JUMP_LIMIT
    ensures Enough(used, length) <= Enough(JUMP_LIMIT, length)
  {
    hide Pow2;
    Square(used + 2, JUMP_LIMIT + 2);
    MoreOften(length + 1, Times(used + 2, used + 2), Times(JUMP_LIMIT + 2, JUMP_LIMIT + 2));
    NoLess(Times(length + 1, Times(used + 2, used + 2)), Times(length + 1, Times(JUMP_LIMIT + 2, JUMP_LIMIT + 2)));
  }

  lemma Square(m: nat, n: nat)
    requires m <= n
    ensures Times(m, m) <= Times(n, n)
  {
    assert m * m <= n * n;
  }

  lemma MoreOften(k: nat, m: nat, n: nat)
    requires m <= n
    ensures Times(k, m) <= Times(k, n)
  {
    assert k * m <= k * n;
  }
}
