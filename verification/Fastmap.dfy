/** The first-byte map of a compiled pattern. */
module Fastmap {
  import opened Bytes
  import opened Bytecode
  import opened CodeShape
  import opened LoopDepth
  import Ere

  // ----- what the map should hold -----

  /** `pc` is reached from the start in `n` steps that consume nothing, anchors being passed freely. */
  ghost predicate Reached(code: seq<byte>, pc: nat, n: nat)
    decreases n
  {
    if n == 0 then pc == 0 else exists x: nat :: Reached(code, x, n - 1) && Silent(code, x, pc)
  }

  ghost predicate Reachable(code: seq<byte>, pc: nat) {
    exists n: nat :: Reached(code, pc, n)
  }

  /** `c` can be the first character an instruction consumes. */
  predicate Starts(instr: Instr, c: byte) {
    if instr.Exact? then instr.bytes != [] && instr.bytes[0] == c else Eats(instr, c)
  }

  ghost predicate FirstByte(code: seq<byte>, c: byte) {
    exists pc: nat :: pc < |code| && Reachable(code, pc) && Starts(Decode(code, pc), c)
  }

  lemma ReachableStep(code: seq<byte>, pc: nat, to: nat)
    requires Reachable(code, pc) && Silent(code, pc, to)
    ensures Reachable(code, to)
  {
    var n: nat :| Reached(code, pc, n);
    assert Reached(code, to, n + 1);
  }

  /** The next step of a run consumes a character or is silent. */
  lemma RunStep(code: seq<byte>, text: seq<byte>, pc: nat, i: nat, j: nat, n: nat) returns (eats: bool, to: nat)
    requires Acc(code, text, pc, i, j, n) && n > 0
    ensures if eats then pc < |code| && i < |text| && Starts(Decode(code, pc), text[i])
      else Silent(code, pc, to) && Acc(code, text, to, i, j, n - 1)
  {
    var instr := Decode(code, pc);
    eats, to := false, 0;
    match instr {
      case Exact(s) =>
        eats := true;
        assert s != [];
        assert text[i..i + |s|][0] == text[i];
      case AnyChar => eats := true;
      case CharSet(_, _) => eats := true;
      case Fork(t) => to := if Acc(code, text, pc + 3, i, j, n - 1) then pc + 3 else t;
      case Jump(t) => to := t;
      case _ => to := pc + instr.Length();
    }
  }

  /** What an accepting run consumes first is a first byte; if it consumes nothing, the end is reachable. */
  lemma {:induction false} RunStarts(code: seq<byte>, text: seq<byte>, pc: nat, i: nat, j: nat, n: nat)
    requires Acc(code, text, pc, i, j, n) && Reachable(code, pc)
    ensures (j == i && Reachable(code, |code|)) || (i < |text| && FirstByte(code, text[i]))
    decreases n
  {
    if n > 0 {
      hide Acc, Silent;
      var eats, to := RunStep(code, text, pc, i, j, n);
      if !eats {
        ReachableStep(code, pc, to);
        RunStarts(code, text, to, i, j, n - 1);
      }
    }
  }

  /** An accepted text begins with a first byte, unless nothing is accepted at its start. */
  lemma AcceptedStarts(code: seq<byte>, text: seq<byte>, i: nat, j: nat)
    requires Accepts(code, text, i, j)
    ensures (j == i && Reachable(code, |code|)) || (i < |text| && FirstByte(code, text[i]))
  {
    var n: nat :| Acc(code, text, 0, i, j, n);
    assert Reached(code, 0, 0);
    RunStarts(code, text, 0, i, j, n);
  }

  // ----- the traversal: places done, places to do, and whether the end was met -----

  /** From a closing jump the traversal goes to the end of the loop, not back to its fork. */
  ghost predicate Followed(code: seq<byte>, x: nat, y: nat, known: set<nat>, ended: bool) {
    || y in known || (y == |code| && ended)
    || (x + 3 <= |code| && code[x] == MAYBE_POP_JUMP && y == Target(code, x)
        && (x + 3 in known || (x + 3 == |code| && ended)))
  }

  ghost predicate Closed(code: seq<byte>, done: set<nat>, known: set<nat>, ended: bool) {
    forall x, y: nat :: x in done && Silent(code, x, y) ==> Followed(code, x, y, known, ended)
  }

  /** Having met any place in the body of a loop, the traversal has met its start. */
  ghost predicate Entered(code: seq<byte>, starts: set<nat>, known: set<nat>) {
    forall t, x: nat :: t in starts && x in known && InLoop(code, t, x) ==> (Target(code, t) + 3) in known
  }

  ghost predicate Traversal(code: seq<byte>, starts: set<nat>, done: set<nat>, todo: set<nat>, ended: bool) {
    && Shape(code, 0, |code|, starts, {})
    && done + todo <= starts && |code| !in done + todo
    && (0 in done + todo || (|code| == 0 && ended))
    && (forall x :: x in done + todo ==> Reachable(code, x))
    && (ended ==> Reachable(code, |code|))
    && Closed(code, done, done + todo, ended)
    && Entered(code, starts, done + todo)
  }

  /** At the end nothing reachable has been missed. */
  lemma {:induction false} NothingMissed(code: seq<byte>, starts: set<nat>, done: set<nat>, ended: bool, pc: nat,
                                         n: nat)
    requires Traversal(code, starts, done, {}, ended) && Reached(code, pc, n)
    ensures pc in done || (pc == |code| && ended)
         || (exists t: nat :: t in done && t + 3 <= |code| && code[t] == MAYBE_POP_JUMP && pc == Target(code, t))
    decreases n
  {
    hide Traversal, Silent, Target;
    if n == 0 {
      StartMet(code, starts, done, ended);
    } else {
      var x: nat :| Reached(code, x, n - 1) && Silent(code, x, pc);
      NothingMissed(code, starts, done, ended, x, n - 1);
      if x in done {
        NextMet(code, starts, done, ended, x, pc);
      } else if x == |code| {
        EndIsSilent(code, pc);
      } else {
        var t: nat :| t in done && t + 3 <= |code| && code[t] == MAYBE_POP_JUMP && x == Target(code, t);
        LoopMet(code, starts, done, ended, t, pc);
      }
    }
  }

  lemma StartMet(code: seq<byte>, starts: set<nat>, done: set<nat>, ended: bool)
    requires Traversal(code, starts, done, {}, ended)
    ensures 0 in done || (|code| == 0 && ended)
  {
    hide Shape, Silent, InLoop, Followed;
    assert done + {} == done;
  }

  lemma NextMet(code: seq<byte>, starts: set<nat>, done: set<nat>, ended: bool, x: nat, y: nat)
    requires Traversal(code, starts, done, {}, ended) && x in done && Silent(code, x, y)
    ensures Followed(code, x, y, done, ended)
  {
    hide Shape, Silent, InLoop, Followed;
    assert done + {} == done;
  }

  /** What a loop's fork leads to: the body of the loop, and what follows the loop. */
  lemma LoopMet(code: seq<byte>, starts: set<nat>, done: set<nat>, ended: bool, t: nat, y: nat)
    requires Traversal(code, starts, done, {}, ended) && t in done && t + 3 <= |code| && code[t] == MAYBE_POP_JUMP
    requires 0 <= Target(code, t) != |code| && Target(code, t) !in done && Silent(code, Target(code, t), y)
    ensures y in done || (y == |code| && ended)
  {
    hide Shape, Silent, Target;
    assert done + {} == done;
    FromLoopHead(code, starts, t, y);
    assert Followed(code, t, Target(code, t), done, ended);
  }

  lemma EndIsSilent(code: seq<byte>, y: nat)
    ensures !Silent(code, |code|, y)
  {
  }

  lemma FromLoopHead(code: seq<byte>, starts: set<nat>, t: nat, y: nat)
    requires Shape(code, 0, |code|, starts, {}) && t in starts && t + 3 <= |code| && code[t] == MAYBE_POP_JUMP
    requires Silent(code, Target(code, t), y)
    ensures y == Target(code, t) + 3 || y == t + 3
    ensures Silent(code, t, Target(code, t)) && InLoop(code, t, t)
  {
    hide Shape;
    LoopHead(code, starts, t);
  }

  /** The closing jump of a loop leads to a fork, to the start of the body or past the jump. */
  lemma LoopHead(code: seq<byte>, starts: set<nat>, t: nat)
    requires Shape(code, 0, |code|, starts, {}) && t in starts && t < |code| && code[t] == MAYBE_POP_JUMP
    ensures t + 3 <= |code| && Decode(code, t) == Jump(Target(code, t))
    ensures var q := Target(code, t);
      0 <= q && q + 3 <= t && code[q] == ON_FAILURE_JUMP && Decode(code, q) == Fork(t + 3) && Target(code, q) == t + 3
  {
    hide Shape, Silent;
    InstructionOk(code, starts, t);
    hide StartOk;
    LoopHeadDecodes(code, t);
  }

  lemma LoopHeadDecodes(code: seq<byte>, t: nat)
    requires t < |code| && Decode(code, t) != Bad && code[t] == MAYBE_POP_JUMP && OpcodeOk(code, t)
    ensures t + 3 <= |code| && Decode(code, t) == Jump(Target(code, t))
    ensures Decode(code, Target(code, t)) == Fork(Target(code, Target(code, t)))
  {
    hide Target;
  }


  /** The traversal does `p`: all that `p` leads to is known from now on. */
  lemma Visit(code: seq<byte>, starts: set<nat>, done: set<nat>, todo: set<nat>, ended: bool,
              p: nat, todo': set<nat>, ended': bool)
    requires Traversal(code, starts, done, todo, ended) && p in todo
    requires var known' := done + {p} + todo';
      && done + todo <= known' && |code| !in known'
      && (forall y :: y in known' && y !in done + todo ==>
            Silent(code, p, y) || (code[p] == MAYBE_POP_JUMP && y == p + 3))
      && (forall y: nat :: Silent(code, p, y) ==> Followed(code, p, y, known', ended'))
    requires ended ==> ended'
    requires ended' && !ended ==>
      Silent(code, p, |code|) || (code[p] == MAYBE_POP_JUMP && p + 3 == |code|)
    ensures Traversal(code, starts, done + {p}, todo', ended')
  {
    hide Silent, Decode, InLoop, Shape, Reachable;
    var done', known' := done + {p}, done + {p} + todo';
    assert done' + todo' == known';
    EndIsStart(code, 0, |code|, starts, {});
    forall y | y in known'
      ensures y in starts && Reachable(code, y)
    {
      if y !in done + todo {
        Discovered(code, starts, p, y);
      }
    }
    if ended' && !ended {
      Discovered(code, starts, p, |code|);
    }
    forall t, x: nat | t in starts && x in known' && InLoop(code, t, x)
      ensures (Target(code, t) + 3) in known'
    {
      if x !in done + todo {
        StillEntered(code, starts, p, x, t);
      }
    }
    forall x, y: nat | x in done' && Silent(code, x, y)
      ensures Followed(code, x, y, known', ended')
    {
      if x != p {
        assert Followed(code, x, y, done + todo, ended);
      }
    }
  }

  lemma SilentTo(code: seq<byte>, o: nat, e: nat, starts: set<nat>, exits: set<nat>, x: nat, y: nat)
    requires Shape(code, o, e, starts, exits) && x in starts && x < e && Silent(code, x, y)
    ensures y in starts || y in exits
  {
    hide Shape, Silent;
    SilentLeads(code, x, y);
    LeadsTo(code, o, e, starts, exits, x, y);
  }

  lemma Discovered(code: seq<byte>, starts: set<nat>, p: nat, y: nat)
    requires Shape(code, 0, |code|, starts, {}) && p in starts && p < |code| && Reachable(code, p)
    requires Silent(code, p, y) || (code[p] == MAYBE_POP_JUMP && y == p + 3)
    ensures y in starts && Reachable(code, y)
  {
    hide Shape, Reachable;
    if Silent(code, p, y) {
      ReachableStep(code, p, y);
      SilentTo(code, 0, |code|, starts, {}, p, y);
    } else {
      LoopHead(code, starts, p);
      var q: nat := Target(code, p);
      ReachableStep(code, p, q);
      ReachableStep(code, q, p + 3);
      SilentTo(code, 0, |code|, starts, {}, p, q);
      SilentTo(code, 0, |code|, starts, {}, q, p + 3);
    }
  }

  /** If `p` leads into the body of a loop, it leads to its start or is in the body itself. */
  lemma StillEntered(code: seq<byte>, starts: set<nat>, p: nat, y: nat, t: nat)
    requires Shape(code, 0, |code|, starts, {}) && p in starts && p < |code| && t in starts && InLoop(code, t, y)
    requires Silent(code, p, y) || (code[p] == MAYBE_POP_JUMP && y == p + 3)
    ensures y == Target(code, t) + 3 || InLoop(code, t, p)
  {
    hide Shape;
    if Silent(code, p, y) {
      EntryAtStart(code, starts, t, p, y);
    } else {
      LoopHead(code, starts, p);
      var q: nat := Target(code, p);
      SilentTo(code, 0, |code|, starts, {}, p, q);
      EndIsStart(code, 0, |code|, starts, {});
      EntryAtStart(code, starts, t, q, y);
      if InLoop(code, t, q) {
        EntryAtStart(code, starts, t, p, q);
      }
    }
  }

  lemma EntryAtStart(code: seq<byte>, starts: set<nat>, t: nat, x: nat, y: nat)
    requires Shape(code, 0, |code|, starts, {}) && t in starts && x in starts && x < |code|
    requires Silent(code, x, y) && InLoop(code, t, y)
    ensures y == Target(code, t) + 3 || InLoop(code, t, x)
  {
    hide Leads, StartOk;
    SilentLeads(code, x, y);
    assert LoopEntry(code, t, x, y) ==> EntryOk(code, t, x, y);
  }

  // ----- the algorithm -----

  ghost function Items(stack: seq<nat>): set<nat> {
    set k | 0 <= k < |stack| :: stack[k]
  }

  /** A bound on the work left: a place and the places a fork replaces it by are ever nearer the end. */
  ghost function Work(length: nat, stack: seq<nat>): nat {
    if stack == [] then 0
    else
      var top := stack[|stack| - 1];
      (if top <= length then Pow2(length - top) else 0) + Work(length, stack[..|stack| - 1])
  }

  lemma WorkPush(length: nat, stack: seq<nat>, x: nat)
    requires x <= length
    ensures Work(length, stack + [x]) == Work(length, stack) + Pow2(length - x)
  {
    assert (stack + [x])[..|stack|] == stack;
  }

  lemma ItemsPush(stack: seq<nat>, x: nat)
    ensures Items(stack + [x]) == Items(stack) + {x}
  {
    var both := stack + [x];
    forall y | y in Items(stack) + {x}
      ensures y in Items(both)
    {
      if y in Items(stack) {
        var k :| 0 <= k < |stack| && stack[k] == y;
        assert both[k] == y;
      } else {
        assert both[|stack|] == y;
      }
    }
  }

  /** Marks what a consuming instruction can start with. */
  method Mark(code: seq<byte>, pc: nat, fastmap: array<bool>)
    requires fastmap.Length == 256 && pc < |code|
    requires Decode(code, pc).Exact? || Decode(code, pc).AnyChar? || Decode(code, pc).CharSet?
    requires code[pc] == CHARSET || code[pc] == CHARSET_NOT ==> code[pc + 1] <= 32
    modifies fastmap
    ensures forall c: byte :: fastmap[c] <==> old(fastmap[c]) || Starts(Decode(code, pc), c)
  {
    var op := code[pc];
    var p := pc + 1;
    if op == EXACTN {
      fastmap[code[p + 1]] := true;
    } else if op == ANYCHAR {
      var newline := fastmap[Ere.NEWLINE];
      for j := 0 to 256
        invariant forall c: byte :: fastmap[c] <==> old(fastmap[c]) || c < j
      {
        fastmap[j] := true;
      }
      fastmap[Ere.NEWLINE] := newline;
    } else if op == CHARSET {
      var j: int := code[p] as int * 8;
      while j > 0
        invariant 0 <= j <= code[p] as int * 8
        invariant forall c: byte :: fastmap[c] <==> old(fastmap[c]) || (c >= j && Starts(Decode(code, pc), c))
      {
        j := j - 1;
        if Bit(code[p + 1 + j / 8], j % 8) {
          fastmap[j] := true;
        }
      }
    } else {
      var bits: int := code[p] as int * 8;
      for j := bits to 256
        invariant forall c: byte :: fastmap[c] <==> old(fastmap[c]) || (bits <= c < j)
      {
        fastmap[j] := true;
      }
      var j := bits;
      while j > 0
        invariant 0 <= j <= bits
        invariant forall c: byte :: fastmap[c] <==> old(fastmap[c]) || (c >= j && Starts(Decode(code, pc), c))
      {
        j := j - 1;
        if !Bit(code[p + 1 + j / 8], j % 8) {
          fastmap[j] := true;
        }
      }
    }
  }

  /** What the loop below keeps: the places on the stack and `p` are still to be done. */
  ghost predicate Going(code: seq<byte>, starts: set<nat>, done: set<nat>, p: nat, stack: seq<nat>,
                        canBeNull: bool, pathCanBeNull: bool) {
    && p <= |code| && (p < |code| ==> pathCanBeNull)
    && (forall k :: 0 <= k < |stack| ==> stack[k] < |code|)
    && Traversal(code, starts, done, Items(stack) + (if p < |code| then {p} else {}),
                 canBeNull || (p == |code| && pathCanBeNull))
  }

  /** Where the traversal goes from `p`: past the closing jump of a loop, otherwise wherever `p` leads. */
  function Next(code: seq<byte>, p: nat): seq<int>
    requires p < |code|
  {
    match Decode(code, p)
    case Memory => [p + 3]
    case LineStart => [p + 1]
    case LineEnd => [p + 1]
    case PushDummy => [p + 1]
    case Jump(t) => if code[p] == MAYBE_POP_JUMP then [p + 3] else [t]
    case Fork(t) => [p + 3, t]
    case _ => []
  }

  lemma NextSilent(code: seq<byte>, starts: set<nat>, p: nat, y: nat)
    requires Shape(code, 0, |code|, starts, {}) && p in starts && p < |code|
    ensures y in Next(code, p) ==> p < y <= |code|
    ensures y in Next(code, p) ==> Silent(code, p, y) || (code[p] == MAYBE_POP_JUMP && y == p + 3)
    ensures Silent(code, p, y) ==>
      y in Next(code, p) ||
        (p + 3 <= |code| && code[p] == MAYBE_POP_JUMP && y == Target(code, p) && p + 3 in Next(code, p))
  {
    hide LoopsClosed, InLoop;
    assert StartOk(code, p, starts, {});
  }

  /** After `p` has been done, the places it leads to are to be done, but for the end. */
  ghost predicate Moved(next: seq<int>, length: nat, stack: seq<nat>, p': nat, stack': seq<nat>,
                        canBeNull: bool, canBeNull': bool) {
    && next != [] && next[0] == p'
    && if |next| == 1 then
         && canBeNull' == canBeNull
         && (stack' == stack || (stack != [] && stack[|stack| - 1] == p' && stack' == stack[..|stack| - 1]))
       else
         && |next| == 2 && 0 <= next[1]
         && if next[1] < length then stack' == stack + [next[1]] && canBeNull' == canBeNull
            else stack' == stack && canBeNull'
  }

  lemma Move(code: seq<byte>, starts: set<nat>, done: set<nat>, p: nat, stack: seq<nat>, canBeNull: bool,
             p': nat, stack': seq<nat>, canBeNull': bool)
    requires Going(code, starts, done, p, stack, canBeNull, true) && p < |code|
    requires Moved(Next(code, p), |code|, stack, p', stack', canBeNull, canBeNull')
    ensures Going(code, starts, done + {p}, p', stack', canBeNull', true)
    ensures Work(|code|, stack' + [p']) < Work(|code|, stack + [p])
  {
    hide Next, Silent, Shape, Decode, Reachable, Closed, Entered;
    var todo := Items(stack) + {p};
    var todo' := Items(stack') + (if p' < |code| then {p'} else {});
    var ended, ended' := canBeNull, canBeNull' || p' == |code|;
    var next := Next(code, p);
    NextBounds(code, starts, p);
    MovedItems(|code|, next, stack, p', stack', canBeNull, canBeNull');
    forall y: nat
      ensures y in next ==> p < y <= |code|
      ensures y in next ==> Silent(code, p, y) || (code[p] == MAYBE_POP_JUMP && y == p + 3)
      ensures Silent(code, p, y) ==>
        y in next || (p + 3 <= |code| && code[p] == MAYBE_POP_JUMP && y == Target(code, p) && p + 3 in next)
    {
      NextSilent(code, starts, p, y);
    }
    Visit(code, starts, done, todo, ended, p, todo', ended');
    MovedWork(|code|, next, p, stack, p', stack', canBeNull, canBeNull');
  }

  lemma NextBounds(code: seq<byte>, starts: set<nat>, p: nat)
    requires Shape(code, 0, |code|, starts, {}) && p in starts && p < |code|
    ensures forall k :: 0 <= k < |Next(code, p)| ==> p < Next(code, p)[k] <= |code|
    ensures |Next(code, p)| == 2 ==> p + 3 <= Next(code, p)[0] && p + 3 <= Next(code, p)[1]
  {
    hide LoopsClosed, InLoop, Silent;
    assert StartOk(code, p, starts, {});
  }

  lemma MovedItems(length: nat, next: seq<int>, stack: seq<nat>, p': nat, stack': seq<nat>,
                   canBeNull: bool, canBeNull': bool)
    requires Moved(next, length, stack, p', stack', canBeNull, canBeNull')
    requires forall k :: 0 <= k < |stack| ==> stack[k] < length
    requires forall k :: 0 <= k < |next| ==> 0 <= next[k] <= length
    ensures forall k :: 0 <= k < |stack'| ==> stack'[k] < length
    ensures Items(stack') + (if p' < length then {p'} else {})
         == Items(stack) + (set y: nat | y in next && y < length)
    ensures (canBeNull' || p' == length) <==> (canBeNull || length in next)
  {
    if |next| == 2 && next[1] < length {
      ItemsPush(stack, next[1]);
    }
    if stack' != stack && |next| == 1 {
      PopItem(stack);
    }
    assert |next| == 1 ==> next == [next[0]];
    assert |next| == 2 ==> next == [next[0], next[1]];
  }

  lemma PopItem(stack: seq<nat>)
    requires stack != []
    ensures Items(stack) == Items(stack[..|stack| - 1]) + {stack[|stack| - 1]}
  {
    var rest, top := stack[..|stack| - 1], stack[|stack| - 1];
    assert stack == rest + [top];
    ItemsPush(rest, top);
  }

  lemma MovedWork(length: nat, next: seq<int>, p: nat, stack: seq<nat>, p': nat, stack': seq<nat>,
                  canBeNull: bool, canBeNull': bool)
    requires Moved(next, length, stack, p', stack', canBeNull, canBeNull')
    requires forall k :: 0 <= k < |stack| ==> stack[k] < length
    requires p < length && forall k :: 0 <= k < |next| ==> p < next[k] <= length
    requires |next| == 2 ==> p + 3 <= next[0] && p + 3 <= next[1]
    ensures p' <= length && forall k :: 0 <= k < |stack'| ==> stack'[k] < length
    ensures Work(length, stack' + [p']) < Work(length, stack + [p])
  {
    if |next| == 2 && next[1] < length {
      assert next[0] == p';
      PushedWork(length, p, stack, p', next[1]);
    } else if stack' == stack {
      assert next[0] == p';
      SteppedWork(length, p, stack, p');
    } else {
      assert next[0] == p';
      assert stack == stack' + [p'];
      SteppedWork(length, p, stack, p');
    }
  }

  lemma PushedWork(length: nat, p: nat, stack: seq<nat>, a: nat, b: nat)
    requires p < length && p + 1 < a <= length && p + 1 < b <= length
    ensures Work(length, stack + [b] + [a]) < Work(length, stack + [p])
  {
    hide Work;
    WorkPush(length, stack, p);
    WorkPush(length, stack, b);
    WorkPush(length, stack + [b], a);
    Pow2Grows(length - a, length - p - 1);
    Pow2Grows(length - b, length - p - 1);
    Pow2Grows(length - p - 1, length - p);
  }

  lemma SteppedWork(length: nat, p: nat, stack: seq<nat>, a: nat)
    requires p < length && p < a <= length
    ensures Work(length, stack + [a]) < Work(length, stack + [p])
    ensures Work(length, stack) < Work(length, stack + [p])
  {
    hide Work;
    WorkPush(length, stack, p);
    WorkPush(length, stack, a);
    Pow2Grows(length - a, length - p);
  }

  /** After a consuming instruction its path is given up. */
  lemma GiveUp(code: seq<byte>, starts: set<nat>, done: set<nat>, p: nat, stack: seq<nat>, canBeNull: bool)
    requires Going(code, starts, done, p, stack, canBeNull, true) && p < |code| && Next(code, p) == []
    ensures Going(code, starts, done + {p}, |code|, stack, canBeNull, false)
    ensures Work(|code|, stack + [|code|]) < Work(|code|, stack + [p])
  {
    hide Next, Silent, Shape, Decode, Reachable, Closed, Entered;
    forall y: nat
      ensures !Silent(code, p, y)
    {
      NextSilent(code, starts, p, y);
    }
    Visit(code, starts, done, Items(stack) + {p}, canBeNull, p, Items(stack) + {}, canBeNull);
    WorkPush(|code|, stack, p);
    WorkPush(|code|, stack, |code|);
    Pow2Grows(0, |code| - p);
  }

  lemma Restart(code: seq<byte>, starts: set<nat>, done: set<nat>, stack: seq<nat>, canBeNull: bool, path: bool)
    requires Going(code, starts, done, |code|, stack, canBeNull, path) && stack != []
    ensures var top, rest := stack[|stack| - 1], stack[..|stack| - 1];
      Going(code, starts, done, top, rest, canBeNull || path, true)
      && Work(|code|, rest + [top]) < Work(|code|, stack + [|code|])
  {
    hide Traversal, Work;
    var top, rest := stack[|stack| - 1], stack[..|stack| - 1];
    PopItem(stack);
    assert Items(stack) + {} == Items(rest) + {top};
    assert rest + [top] == stack;
    WorkPush(|code|, stack, |code|);
  }

  lemma Start(code: seq<byte>, starts: set<nat>)
    requires Shape(code, 0, |code|, starts, {})
    ensures Going(code, starts, {}, 0, [], false, true)
  {
    hide Shape, Silent, InLoop;
    EndIsStart(code, 0, |code|, starts, {});
    assert Reached(code, 0, 0);
    var todo: set<nat> := Items([]) + (if 0 < |code| then {0} else {});
    assert {} + todo == todo;
    forall t | t in starts
      ensures !InLoop(code, t, 0)
    {
      FirstInLoop(code, starts, t);
    }
  }

  /** No loop body starts at the very beginning. */
  lemma FirstInLoop(code: seq<byte>, starts: set<nat>, t: nat)
    requires Shape(code, 0, |code|, starts, {}) && t in starts
    ensures !InLoop(code, t, 0)
  {
    hide LoopsClosed, StartOk;
  }

  lemma Finish(code: seq<byte>, starts: set<nat>, done: set<nat>, ended: bool)
    requires Traversal(code, starts, done, {}, ended)
    ensures forall x: nat :: Reachable(code, x) && x < |code| && !Decode(code, x).Fork? ==> x in done
    ensures forall x :: x in done ==> Reachable(code, x)
    ensures ended <==> Reachable(code, |code|)
  {
    hide Shape, Silent, InLoop, Closed, Entered;
    assert done + {} == done;
    forall x: nat | Reachable(code, x) && x <= |code|
      ensures x in done || (x == |code| && ended) || (x < |code| && Decode(code, x).Fork?)
    {
      var n: nat :| Reached(code, x, n);
      NothingMissed(code, starts, done, ended, x, n);
      if x !in done && !(x == |code| && ended) {
        var t: nat :| t in done && t + 3 <= |code| && code[t] == MAYBE_POP_JUMP && x == Target(code, t);
        LoopHead(code, starts, t);
      }
    }
  }

  /** What each opcode met by the traversal is known to be. */
  lemma PlaceOk(code: seq<byte>, starts: set<nat>, done: set<nat>, p: nat, stack: seq<nat>,
                canBeNull: bool, path: bool)
    requires Going(code, starts, done, p, stack, canBeNull, path) && p < |code|
    ensures PlaceKnown(code, p) && p in starts
  {
    hide Silent, Decode, OpcodeOk, Closed, Entered, Shape;
    assert p in done + (Items(stack) + {p});
    InstructionOk(code, starts, p);
    OpcodeKnown(code, p);
  }

  predicate PlaceKnown(code: seq<byte>, p: nat)
    requires p < |code|
  {
    var op, next := code[p], Next(code, p);
    if op == EXACTN || op == ANYCHAR || op == CHARSET || op == CHARSET_NOT then
      && next == [] && (op == CHARSET || op == CHARSET_NOT ==> p + 1 < |code| && code[p + 1] <= 32)
      && (Decode(code, p).Exact? || Decode(code, p).AnyChar? || Decode(code, p).CharSet?)
    else if op == BEGLINE || op == ENDLINE || op == PUSH_DUMMY_FAILURE then next == [p + 1]
    else
      && p + 3 <= |code|
      && if op == START_MEMORY || op == STOP_MEMORY then next == [p + 3]
         else
           var t := Target(code, p);
           && 0 <= t <= |code|
           && if op == ON_FAILURE_JUMP then next == [p + 3, t]
              else if op == MAYBE_POP_JUMP then
                next == [p + 3] && t + 3 <= p && code[t] == ON_FAILURE_JUMP && Target(code, t) == p + 3
              else next == [t] && p + 3 <= t && (t == p + 3 ==> t == |code| || code[t] == PUSH_DUMMY_FAILURE)
  }

  lemma OpcodeKnown(code: seq<byte>, p: nat)
    requires p < |code| && Decode(code, p) != Bad && OpcodeOk(code, p)
    ensures PlaceKnown(code, p)
  {
    hide Target;
  }

  /** At `p` is a jump of no length that ends the code. */
  predicate EmptyJump(code: seq<byte>, p: nat) {
    p + 3 == |code| && IsJump(code[p]) && Target(code, p) == |code|
  }

  /** Such a jump can be met without consuming anything: the last alternative is empty, and so can be
      one before it. */
  ghost predicate LooksPast(code: seq<byte>) {
    exists x: nat :: EmptyJump(code, x) && Reachable(code, x)
  }

  /** Takes a jump; from the closing jump of a loop, it goes on past the loop. The opcode at the target
      of any jump that does not go forward is looked at, be it past the end. */
  method TakeJump(now: seq<byte>, after: byte, p: nat, stack: seq<nat>, ghost canBeNull: bool, ghost code: seq<byte>,
                  ghost starts: set<nat>)
    returns (p': nat, stack': seq<nat>, overrun: bool, ghost looked: bool)
    requires Shape(code, 0, |code|, starts, {}) && Variant(code, now, starts)
    requires p in starts && p < |code| && PlaceKnown(code, p) && IsJump(code[p])
    ensures looked <==> p + 3 == |code| == Target(code, p)
    ensures overrun <==> looked && after == ON_FAILURE_JUMP
    ensures !overrun ==> Moved(Next(code, p), |code|, stack, p', stack', canBeNull, canBeNull)
  {
    hide Next, Target, Decode, Shape, Variant;
    VariantJump(code, now, starts, p);
    if Target(code, p) < |code| {
      VariantDecode(code, now, starts, Target(code, p));
      VariantJump(code, now, starts, Target(code, p));
    }
    var target := Target(now, p);
    p', stack', overrun, looked := target, stack, false, false;
    if target <= p + 3 {
      looked := target >= |now|;
      if (if target < |now| then now[target] else after) == ON_FAILURE_JUMP {
        if target >= |now| {
          overrun := true;
          return;
        }
        p' := Target(now, target);
        if stack != [] && stack[|stack| - 1] == p' {
          stack' := stack[..|stack| - 1];
        }
      }
    }
  }

  /** One step of the traversal from an instruction that consumes nothing. */
  method Advance(now: seq<byte>, after: byte, p: nat, stack: seq<nat>, canBeNull: bool,
                 ghost code: seq<byte>, ghost starts: set<nat>, ghost done: set<nat>)
    returns (p': nat, stack': seq<nat>, canBeNull': bool, overrun: bool, ghost looked: bool)
    requires Going(code, starts, done, p, stack, canBeNull, true) && p in starts && p < |code| && PlaceKnown(code, p)
    requires Shape(code, 0, |code|, starts, {}) && Variant(code, now, starts)
    requires !(code[p] in {EXACTN, ANYCHAR, CHARSET, CHARSET_NOT})
    ensures looked <==> EmptyJump(code, p)
    ensures overrun <==> looked && after == ON_FAILURE_JUMP
    ensures !overrun ==> Going(code, starts, done + {p}, p', stack', canBeNull', true) && Next(code, p) != []
    ensures !overrun ==> Work(|code|, stack' + [p']) < Work(|code|, stack + [p])
  {
    hide Going, Next, Target, Decode, Shape, Variant;
    JumpOnlyHere(code, starts, done, p, stack, canBeNull, true);
    VariantDecode(code, now, starts, p);
    VariantJump(code, now, starts, p);
    var op := now[p];
    p', stack', canBeNull', overrun, looked := p, stack, canBeNull, false, false;
    if op == BEGLINE || op == ENDLINE || op == PUSH_DUMMY_FAILURE {
      p' := p + 1;
    } else if op == START_MEMORY || op == STOP_MEMORY {
      p' := p + 3;
    } else if op == ON_FAILURE_JUMP {
      p' := p + 3;
      var target := Target(now, p);
      if target < |now| {
        stack' := stack + [target];
      } else {
        canBeNull' := true;
      }
    } else {
      p', stack', overrun, looked := TakeJump(now, after, p, stack, canBeNull, code, starts);
      if overrun {
        return;
      }
    }
    Move(code, starts, done, p, stack, canBeNull, p', stack', canBeNull');
  }

  lemma SetSame(code: seq<byte>, now: seq<byte>, starts: set<nat>, p: nat)
    requires Shape(code, 0, |code|, starts, {}) && Variant(code, now, starts) && p in starts && p < |code|
    requires PlaceKnown(code, p)
    ensures |now| == |code| && (now[p] == CHARSET || now[p] == CHARSET_NOT ==> p + 1 < |now| && now[p + 1] <= 32)
  {
    hide Shape, Variant;
    VariantDecode(code, now, starts, p);
  }

  lemma SameLength(code: seq<byte>, now: seq<byte>, starts: set<nat>)
    requires Variant(code, now, starts)
    ensures |now| == |code|
  {
  }

  datatype Analysis = Overrun | Analysed(canBeNull: bool)

  /** Fills the map and tells whether a match can be empty. After a jump of no length the traversal
      looks at the next opcode, even past the end of the code: `after` is the byte found there, and if
      that is the opcode of a fork the traversal goes astray. */
  method CompileFastmap(now: seq<byte>, after: byte, fastmap: array<bool>, ghost code: seq<byte>,
                        ghost starts: set<nat>)
    returns (r: Analysis, ghost looked: bool)
    requires Shape(code, 0, |code|, starts, {}) && Variant(code, now, starts) && fastmap.Length == 256
    modifies fastmap
    ensures r.Overrun? <==> LooksPast(code) && after == ON_FAILURE_JUMP
    ensures looked <==> LooksPast(code)
    ensures r.Analysed? ==> forall c: byte :: fastmap[c] <==> FirstByte(code, c)
    ensures r.Analysed? ==> (r.canBeNull <==> Reachable(code, |code|))
  {
    hide Shape, Variant, Decode, Reachable, Going, Next, Target, LooksPast, StartedBy, FirstByte, Starts, Work, Pow2;
    forall k | 0 <= k < 256 {
      fastmap[k] := false;
    }
    var canBeNull := false;
    looked := false;
    var p: nat, pathCanBeNull := 0, true;
    var stack: seq<nat> := [];
    ghost var done: set<nat> := {};
    NoneStarted(code);
    Start(code, starts);
    SameLength(code, now, starts);
    while true
      invariant Going(code, starts, done, p, stack, canBeNull, pathCanBeNull)
      invariant forall c: byte :: fastmap[c] <==> StartedBy(code, done, c)
      invariant looked ==> LooksPast(code)
      invariant forall x :: x in done && EmptyJump(code, x) ==> looked && after != ON_FAILURE_JUMP
      invariant p <= |code| == |now| && forall k :: 0 <= k < |stack| ==> stack[k] < |code|
      decreases Work(|code|, stack + [p])
    {
      InBounds(code, starts, done, p, stack, canBeNull, pathCanBeNull);
      if p == |now| {
        if stack == [] {
          break;
        }
        Restart(code, starts, done, stack, canBeNull, pathCanBeNull);
        canBeNull := canBeNull || pathCanBeNull;
        pathCanBeNull := true;
        p := stack[|stack| - 1];
        stack := stack[..|stack| - 1];
        continue;
      }
      PlaceOk(code, starts, done, p, stack, canBeNull, pathCanBeNull);
      VariantDecode(code, now, starts, p);
      ghost var q := p;
      var op := now[p];
      if op == EXACTN || op == ANYCHAR || op == CHARSET || op == CHARSET_NOT {
        SetSame(code, now, starts, p);
        Mark(now, p, fastmap);
        GiveUp(code, starts, done, p, stack, canBeNull);
        pathCanBeNull := false;
        p := |now|;
      } else {
        Reaching(code, starts, done, p, stack, canBeNull, pathCanBeNull);
        ghost var looks;
        var overrun;
        p, stack, canBeNull, overrun, looks := Advance(now, after, p, stack, canBeNull, code, starts, done);
        looked := looked || looks;
        if overrun {
          return Overrun, true;
        }
        EatsNothing(code, q);
      }
      StartedByMore(code, done, q);
      done := done + {q};
      InBounds(code, starts, done, p, stack, canBeNull, pathCanBeNull);
    }
    canBeNull := canBeNull || pathCanBeNull;
    Finish(code, starts, done, canBeNull);
    DoneStarts(code, done);
    NoneLeft(code, done);
    r := Analysed(canBeNull);
  }

  /** What the traversal is about to do can be reached; if it is a jump of no length, the code looks past its end. */
  lemma Reaching(code: seq<byte>, starts: set<nat>, done: set<nat>, p: nat, stack: seq<nat>, canBeNull: bool,
                 path: bool)
    requires Going(code, starts, done, p, stack, canBeNull, path) && p < |code|
    ensures EmptyJump(code, p) ==> LooksPast(code)
  {
    hide Shape, Closed, Entered, Reachable, EmptyJump;
    assert p in done + (Items(stack) + {p});
  }

  lemma NoneLeft(code: seq<byte>, done: set<nat>)
    requires forall x: nat :: Reachable(code, x) && x < |code| && !Decode(code, x).Fork? ==> x in done
    ensures LooksPast(code) ==> exists x :: x in done && EmptyJump(code, x)
  {
    hide Reachable;
    if LooksPast(code) {
      var x: nat :| EmptyJump(code, x) && Reachable(code, x);
      assert x in done;
    }
  }

  /** Some place done starts with `c`. */
  ghost predicate StartedBy(code: seq<byte>, done: set<nat>, c: byte) {
    exists x :: x in done && x < |code| && Starts(Decode(code, x), c)
  }

  lemma NoneStarted(code: seq<byte>)
    ensures forall c: byte :: !StartedBy(code, {}, c)
  {
  }

  lemma StartedByMore(code: seq<byte>, done: set<nat>, p: nat)
    requires p < |code|
    ensures forall c: byte :: StartedBy(code, done + {p}, c) <==> StartedBy(code, done, c) || Starts(Decode(code, p), c)
  {
    hide Decode, Starts;
    forall c: byte
      ensures StartedBy(code, done + {p}, c) <==> StartedBy(code, done, c) || Starts(Decode(code, p), c)
    {
      if Starts(Decode(code, p), c) {
        assert p in done + {p};
      }
    }
  }

  lemma DoneStarts(code: seq<byte>, done: set<nat>)
    requires forall x :: x in done ==> Reachable(code, x)
    requires forall x: nat :: Reachable(code, x) && x < |code| && !Decode(code, x).Fork? ==> x in done
    ensures forall c: byte :: StartedBy(code, done, c) <==> FirstByte(code, c)
  {
    hide Decode, Reachable;
  }

  lemma JumpOnlyHere(code: seq<byte>, starts: set<nat>, done: set<nat>, p: nat, stack: seq<nat>,
                     canBeNull: bool, path: bool)
    requires Going(code, starts, done, p, stack, canBeNull, path) && p < |code|
    requires PlaceKnown(code, p) && Next(code, p) != []
    ensures IsJump(code[p]) <==>
      !(code[p] in {BEGLINE, ENDLINE, PUSH_DUMMY_FAILURE, START_MEMORY, STOP_MEMORY, ON_FAILURE_JUMP})
  {
    hide Shape, Closed, Entered, Silent, Target, Reachable;
    assert p in done + (Items(stack) + {p});
    InstructionOk(code, starts, p);
  }

  lemma EatsNothing(code: seq<byte>, p: nat)
    requires p < |code| && Next(code, p) != []
    ensures forall c: byte :: !Starts(Decode(code, p), c)
  {
  }

  lemma InBounds(code: seq<byte>, starts: set<nat>, done: set<nat>, p: nat, stack: seq<nat>,
                 canBeNull: bool, path: bool)
    requires Going(code, starts, done, p, stack, canBeNull, path)
    ensures p <= |code| && (p < |code| ==> path)
    ensures forall k :: 0 <= k < |stack| ==> stack[k] < |code|
    ensures stack == [] && p == |code| ==> Traversal(code, starts, done, {}, canBeNull || path)
  {
    hide Traversal;
    if stack == [] && p == |code| {
      assert Items(stack) + {} == {};
    }
  }
}
