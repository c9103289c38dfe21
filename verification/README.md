# GNU a2ps: the algorithms behind the printing

GNU a2ps turns text into PostScript. This project models the parts of it that do real work, in Dafny, and
proves what they promise. Run `dafny verify dfyconfig.toml`.

Regular expressions (`liba2ps/regex.c`), as style sheets use them:

- `Ere` says what an expression matches; `EreParser` reads a pattern under the syntax bits of `src/main.c`
  (lines 109-119); `EreGrammar` relates patterns and expressions in both directions, and `BracketLists` says what
  lists in brackets mean.
- `Bytecode` gives compiled code its meaning: a nondeterministic machine in which a fork is a free choice.
- `RegexCompiler` is the one-pass compiler: a class with the buffer, the pointers into it and the stack of open
  groups, which inserts code in the middle of what it has written and patches jumps. Its invariant
  (`CompilerState`) is that the buffer is the code of a half-built tree of nodes (`CodeTree`), with three
  undecided bytes after the last finished alternative of each open group; `Numbering` says which numbers the
  groups get. `CodeMeaning` proves that the code of a tree means what the tree does, `CodeShape` and `LoopDepth`
  that it is well-formed and its loops closed, and `CodePlaces` where in it the parts of the tree are.
- `Matcher` is the backtracking matcher: a class with the position in code and text, the failure stack and the
  best match so far, working on a buffer whose closing jumps it rewrites as it goes. Each of its steps is the one
  step of an abstract machine (`Machine`), whose runs say what is answered. `FreeRuns` has runs with free choice,
  one instruction at a time; `MatcherState` the invariant of the machine, in two parts: what is known of the stack
  in loops, and that nothing is overlooked, whatever is left to explore being at hand or surpassed;
  `MatcherSteps` that every step keeps both. `Judgement` and `PopDecision` are about the decision to drop failure
  points, `Rewriting` about what has become of the code, `Answering` about what is answered.
- `LoopForms` says how loops are made in code. `LoopSafety` says of a pattern whether its loops are safe; `LoopCode`
  and `LoopTrust` prove that the code of such patterns is as it should be. `Regex` puts it all together.
- `Fastmap` is the analysis of first bytes, `Search` the search that uses it; `PastTheEnd` says for which patterns
  the analysis looks past the end of the code.
- `Pitfalls` and `GroupLoop` are about patterns on which the code does not do what it should.

The central result is `Regex.CompileAndMatch`, by way of `RegexCompiler.Compiler.Compile` (code and expression
accept the same) and `Answering.RunsRight` (the answer is the longest text accepted). The second needs that no
alternative is thrown away that matters (`MatcherState.Sure`), which depends on what stands after each loop:

- after a loop over a character or a list, that the matcher is not mistaken about what comes next; when it is
  mistaken is stated exactly (`PopDecision.MistakenExactly`);
- after a loop over a group, that something comes next, or that the group has alternatives, or that nothing is
  repeated or optional in it.

`LoopSafety.SafeLoops` computes this from a pattern.

The PostScript text generator (`liba2ps/psgen.c`):

- `PostScript` reads what is written the way a printer does: string literals, faces, `S`, `N`, `n`, `T`.
- `Glyphs` has the escapes and the widths, `Layout` what should appear on the pages, character by character,
  and `PsGen` the generator, which opens strings and names faces only when it must. Reading its output gives
  the layout back. `Rows` says what a text becomes line by line, `PageLines` where pages end and that the layout
  shows just those lines, and `JobPages` what a whole job is made of.
- `Sheets` has what becomes of sheets, pages and sheet labels when only some pages are printed, and
  `Diversion` the output put off until all is known (`liba2ps/output.c`).

Data structures: `QuickSort` and `DArray` (`liba2ps/darray.c`, with `Ordering`), `Probing` and `HashTable`
(`liba2ps/hashtab.c`).

Smaller parts: `LineBuffer` (lines from string and stream, `src/buffer.c`) and `ReadLines` (all of them, and what
form feeds do to them), `PageRange` and `RangeText` (`liba2ps/prange.c`), `Lister` (listings in columns,
`liba2ps/lister.c`), `Tokenizer` (style sheets at work, `src/sshread.c`) and `TokenRules` (which rule each token is
due to).
`Bytes` and `Bitmap` hold what several of them share.

Three habits run through the project. Code that changes things in place is a class or a method over an array,
and its contract equates the new state with a function of the old one; what is promised is then proved about
that function. Where the code and its comments differ, the code is followed. Where the code does not do what
one would expect, the case is stated as a lemma beside the exact condition under which it does.

Where the code does something other than one would expect:

- The matcher can prune too much. In two comparisons of `maybe_pop_jump` it mistakes a length for a character
  or a full map for an empty one: `a*[ab]` does not match `a` (`Pitfalls.LiteralMisread`), nor does `[a\377]*a`
  (`Pitfalls.FullMapMisread`). For loops over single characters this is all that can go wrong
  (`Pitfalls.OverlooksExactly`, `Regex.PatternBuffer.Match`). A loop over a group at the end of a pattern can
  drop an alternative that was saved inside the group: the only answer to `(a?(ab)?)*` on `ab` is one character
  (`GroupLoop.StopsShort`).
- For a pattern whose last alternative is empty, and one before it can match nothing, such as `a*|`, the
  analysis of first bytes looks one byte past the end of the code, because the jump over the empty alternative
  has length zero and is taken for a jump backwards (`PastTheEnd.LooksPastExactly`; `Pitfalls.EmptyAfterLoop` is
  the example, and `a|` is no such pattern, `Pitfalls.EmptyAfterCharacter`).
- A jump over 32767 bytes or more wraps without notice (`Bytes.NumberRoundTrip`).
- The sort's guard on its stack is off by one, index 100 of 100 slots would pass it, but the depth that takes
  is never reached (`QuickSort.DepthBound`).
- Merging by the policy under which the other array should win keeps both of two equal items
  (`DArray.DynamicArray.MergeBoth`).
- Growing a hash table treats tombstones as items and hands them to the functions of the user; an item is lost
  exactly when one that compares equal to it comes after it (`HashTable.MovedExactly`), and is counted still.
- In a listing, an item that is not to be put to the left and is wider than the column is put beyond all bounds;
  that happens only after a narrower one already too wide for the line (`Lister.InColumnsExactly`).
- Octal escapes are not padded, so a code below 0100 swallows a digit that follows (`PostScript.RunOctalShort`).
- Filling a rank of virtual pages when pages are not selected can lose the end of a sheet (`Sheets.EndLost`) or
  its beginning (`Sheets.BeginLost`).
- A NUL character put into a diversion is taken for the place of an item (`Diversion.Output.PrintChar`).
- A string and a stream read one after the other gain a newline when an end of line lies across the seam,
  unless it is made up for (`LineBuffer.SeamExactly`), and lose every byte 0xFF of the string
  (`LineBuffer.StringLoses`).
- A last line without an end of line loses its last character if that comes after a form feed
  (`ReadLines.LastLost`, `ReadLines.KeptWhole`).
- In a range of pages, a number right before `toc` is passed over (`RangeText.EntryRead`).
- An interval of pages that ends exactly at the offset is written as one that selects the first page
  (`PageRange.EndsAtOffset`), one without a lower bound is written as text that cannot be read
  (`PageRange.IntervalToBuffer`), and a range of which nothing is left is written as nothing, which selects
  everything (`PageRange.RoundTrip`).

## Model

| member | source | states |
|---|---|---|
| `Bytes.NumberRoundTrip` | liba2ps/regex.c:377-440 | A jump displacement comes back from its two bytes exactly when it fits in sixteen signed bits; otherwise it wraps without notice. |
| `EreGrammar.ParseSpells` | liba2ps/regex.c:1755-1774 | Whatever pattern the tokens and the nesting accept, the expression found spells that pattern, so reading is injective. |
| `EreGrammar.PlainReadBack` | liba2ps/regex.c:1755-2654 | Every expression of plain form, written out, is read back as itself, whatever its nesting: anchors where they are anchors, `^` and `$` as characters where they are not, other special characters escaped, bracket expressions as any list of characters and upward ranges written without ambiguity. |
| `EreGrammar.BracketShift` | liba2ps/regex.c:1929-2148 | A bracket expression denotes the same set and ends at the same place wherever in a pattern it stands, although a hyphen is judged by the characters before it. |
| `BracketLists.ListRead` | liba2ps/regex.c:1929-2148 | A bracket expression written for a list of characters and ranges, negated or not, where no hyphen or bracket can be misread, is read as exactly the characters that are in the list or between the two ends of a range, both included; if some range goes downward it is an error. |
| `Ere.RunCollapses` | liba2ps/regex.c:1796-1830 | A run of `*`, `+` and `?`, applied one after another, means: none allowed if some operator is not `+`, several allowed if some operator is not `?`. |
| `RegexCompiler.Compiler.GetBufferSpace` | liba2ps/regex.c:1373-1468 | The buffer doubles up to 65536 bytes, its contents kept; it is refused only when the code really comes that close to the limit. |
| `RegexCompiler.Compiler.StoreJump` | liba2ps/regex.c:2717-2727 | A jump with a relative target is stored in place and no other byte of the buffer changes. |
| `RegexCompiler.Compiler.InsertJump` | liba2ps/regex.c:2744-2761 | Three bytes are opened in the middle of the code, everything behind moves up unharmed, and the gap holds the jump. |
| `RegexCompiler.Compiler.NormalChar` | liba2ps/regex.c:2620-2652 | A literal joins the current `exactn` or starts one, such that an operator that follows applies to that character alone. |
| `RegexCompiler.Compiler.CompileRange` | liba2ps/regex.c:2856-2900 | A range sets exactly its characters in the map and leaves those already set; it fails just when it is empty or unfinished. |
| `RegexCompiler.Compiler.SetListBit` | liba2ps/regex.c:1516-1519 | Setting one bit adds one character to the set that the bitmap represents. |
| `RegexCompiler.Compiler.BracketExpression` | liba2ps/regex.c:1929-2150 | The set compiled is the one the list denotes, with trailing zero bytes dropped; failures are those of the list. |
| `RegexCompiler.Compiler.ReadRun` | liba2ps/regex.c:1806-1851 | All operators of a run are consumed, and the two flags summarise them. |
| `RegexCompiler.Compiler.Repetition` | liba2ps/regex.c:1796-1919 | The code of the last expression is turned in place into its repetition, with the fork before it, the jump back after it and, for `+`, the jump over the fork. |
| `RegexCompiler.Compiler.OpenParenthesis` | liba2ps/regex.c:2202-2244 | A group is opened: the pointers of what surrounds it are saved such that they can be trusted at its end. |
| `RegexCompiler.Compiler.CloseParenthesis` | liba2ps/regex.c:2258-2313 | The innermost open group becomes one node of what surrounds it, its last alternative patched and the inner-group count filled in; an unmatched parenthesis is an error. |
| `RegexCompiler.Compiler.HandleAlternative` | liba2ps/regex.c:2320-2359 | A fork is inserted before the alternative just read, the exit of the one before is chained to the exit of this one, and space is left for that. |
| `RegexCompiler.Compiler.Token` | liba2ps/regex.c:1755-2654 | One token is compiled: the code goes on standing for exactly what has been read, or the error is the one reading it gives. |
| `RegexCompiler.Compiler.Finish` | liba2ps/regex.c:2657-2673 | At the end the last exit is patched; what the buffer holds is the code of the whole expression, and an open group is an error. |
| `RegexCompiler.Compiler.Compile` | liba2ps/regex.c:1641-1713 | For every pattern of the fragment whose code is shorter than 32768 bytes, the code accepts text[i..j] if and only if the expression that is read matches text[i..j]. There are at most twelve bytes of code for each character, and a pattern of up to 5455 characters is rejected only for the error that reading it gives. |
| `CodeMeaning.CodeAcceptsMeaning` | liba2ps/regex.c:1796-1919 | The code of any tree of groups, alternatives and repetitions, run with free choice at forks, accepts exactly what the expression matches (section 9.4 of POSIX.1-2017 XBD). |
| `CodeMeaning.NodesSound` | liba2ps/regex.c:2320-2359 | From any run through a sequence of nodes, a match of the expression and a shorter run for the rest can be read off. |
| `CodeMeaning.NodesComplete` | liba2ps/regex.c:2320-2359 | Any match of the expression followed by any run of the rest gives a run of the code. |
| `RegexCompiler.CodeMeansTree` | liba2ps/regex.c:2657-2673 | On all texts and places at once, code under the jump limit means its expression. |
| `CodeShape.CodeShaped` | liba2ps/regex.c:1796-1919 | The code divides into instructions; every jump lands on one; backward jumps close loops, which are entered only at their start. |
| `Fastmap.Mark` | liba2ps/regex.c:2984-3040 | One instruction adds to the map exactly the bytes it can consume. |
| `Fastmap.Advance` | liba2ps/regex.c:3042-3142 | Each step of the traversal keeps what is still to be visited on the stack and makes the sum of 2^(end-pc) smaller; it goes astray only where a jump of no length leads past the end to a byte that looks like a fork. |
| `Fastmap.CompileFastmap` | liba2ps/regex.c:2915-3166 | It looks at the byte after the code if and only if a last jump of no length is reached without consuming (then goes astray just when that byte is a fork). Otherwise a byte is marked if and only if it can be consumed first, and the empty flag is set if and only if the end is reachable without consuming; also on code whose loops have been rewritten. |
| `Fastmap.NothingMissed` | liba2ps/regex.c:3042-3142 | When the stack is empty, every place reachable without consuming has been visited, but for loop heads reached only by the loop itself. |
| `Fastmap.AcceptedStarts` | liba2ps/regex.c:2902-2913 | Every accepted text either is empty, the end being reachable silently, or begins with a first byte. |
| `PastTheEnd.LooksPastExactly` | liba2ps/regex.c:3057-3083 | For patterns of at most 255 groups: the byte after the code is looked at if and only if the last alternative is empty and one before it can be passed without consuming anything. |
| `PastTheEnd.AltsMatchNothing` | liba2ps/regex.c:3057-3083 | What can be passed so, as far as the pattern tells, is what matches the empty text. |
| `Pitfalls.EmptyAfterLoop` | liba2ps/regex.c:3057-3083 | The code of `a*` followed by an empty alternative makes the analysis look past its end. |
| `Pitfalls.EmptyAfterCharacter` | liba2ps/regex.c:3057-3083 | That of a character followed by an empty alternative does not, because the path through the character is given up first. |
| `Search.FirstMatchUnique` | liba2ps/regex.c:3250-3370 | Two searches give the same place, with the map or without, and whatever earlier calls have rewritten. |
| `Search.Settled` | liba2ps/regex.c:3250-3370 | The matcher cannot both find a match at a place and find none, whatever the pattern. |
| `Search.FoundExactly` | liba2ps/regex.c:3250-3370 | When the matcher is right about every loop, the place found is the first in the range at which anything is accepted at all, and none is found only if there is none. |
| `Search.NoStart` | liba2ps/regex.c:3297-3344 | Where the map has no entry for the next character, or there is none left, nothing is accepted. |
| `Search.Find` | liba2ps/regex.c:3250-3370 | With this matcher, in either direction, with or without the map, the place returned is the first in the range at which it can find a match, and none is returned only if it fails at all of them; it gives up only where the matcher does. |
| `Search.FindWithMap` | liba2ps/regex.c:3172-3370 | A search that first makes its map, from code as earlier calls have left it, finds the first place just the same, unless the analysis goes astray; when it does can be told from the pattern. |
| `FreeRuns.Unfold` | liba2ps/regex.c:3750-3758 | What a place accepts is what one instruction leads to, for every instruction. |
| `MatcherState.FromStartSound` | liba2ps/regex.c:3750-3758 | Places are reached from the start of the code step by step; what is accepted from such a place is accepted from the start. |
| `MatcherSteps.EndAccepts` | liba2ps/regex.c:3758-3762 | At the end of the code, the text up to the current position is accepted. |
| `MatcherSteps.BestKept` | liba2ps/regex.c:3764-3825 | Keeping the longer of the best and the current match, and failing on, leaves as long a match in hand as before. |
| `MatcherSteps.EndLongest` | liba2ps/regex.c:3764-3825 | If nothing that matters is thrown away: with nothing left on the stack, or at the end of the text, no accepted text is longer than the answer. |
| `MatcherSteps.AcceptedInside` | liba2ps/regex.c:3827-3929 | Accepted texts start where they should and end within the text. |
| `MatcherSteps.ForkKept` | liba2ps/regex.c:4357-4399 | A fork goes on with the first choice and saves the second: both are reached from the start, nothing is overlooked, and the saved place is outside the loops it is in. |
| `MatcherSteps.PopJumpKept` | liba2ps/regex.c:4538-4592 | Dropping a failure point at the end of a loop is possible, the stack being as high as the loops are deep; and where it is safe (a single instruction rightly decided, a group that ends in alternatives, a group at the end of the pattern that saves nothing) no match is lost that is longer than what is still in hand. |
| `MatcherSteps.ForcedExitKept` | liba2ps/regex.c:4155-4190 | Leaving a loop whose group has matched nothing since its start resumes at a place reached from the start, and overlooks nothing: what a further turn could do has been explored from where the turn began. |
| `MatcherState.LoopsKept` | liba2ps/regex.c:4119-4592 | What is known in a loop is kept by every step: in one over a single instruction, on top of the stack is a dummy or the point its own fork saved for the turn; in one over a group without forks likewise; at the end of one with alternatives a dummy; and the closing jump of a loop over a group is met only when the group has matched something. |
| `MatcherState.ForkFree` | liba2ps/regex.c:4357-4399 | What a fork saves is a place at which nothing need be known of the stack, so that going back to it is always allowed. |
| `MatcherState.BeforeClosing` | liba2ps/regex.c:4119-4195 | In code that is neat, the closing jump of a loop over a group is met only from the end of that group. |
| `Machine.MovesLighter` | liba2ps/regex.c:3724-4835 | When every loop is over a single instruction or over a group with a number of its own, every instruction makes the sum of 2^rank over the current place and the saved ones smaller, whatever has been rewritten; a rank counts characters to come above turns of loops that have matched something, above places of the code. |
| `Rewriting.RewrittenDecode` | liba2ps/regex.c:4532-4547 | Rewriting the closing jumps of loops at run time changes no instruction under the choice semantics. |
| `Rewriting.PopsRewritten` | liba2ps/regex.c:4404-4547 | What a closing jump is decided to become does not depend on what has become of others. |
| `Answering.RunsAlike` | liba2ps/regex.c:3518-4835 | So whatever the matcher can answer from one rewriting of the code, it can answer from every other. |
| `Answering.RunsRight` | liba2ps/regex.c:3518-4835 | Every answer is right: a match is an accepted text; if nothing that matters is thrown away it is the longest accepted, and no match means that nothing is accepted. |
| `Answering.OnlyAnswer` | liba2ps/regex.c:3518-4835 | There is one answer to each match, whatever the fuel. |
| `Matcher.Activation.ExactBytes` | liba2ps/regex.c:3938-3965 | It consumes the literal if it is there and fails otherwise. |
| `Matcher.Activation.ByteInSet` | liba2ps/regex.c:3984-4008 | It consumes one character if and only if the set, negated or not, has it, also for characters past the end of the bitmap. |
| `Matcher.Activation.Anchor` | liba2ps/regex.c:4263-4310 | It passes just at the start or end of a line, consuming nothing. |
| `Matcher.Activation.StopMemory` | liba2ps/regex.c:4119-4195 | If the group has matched nothing since its start, and is all of the body of a loop, the exit of the loop is saved and gone to at once; else it goes on. |
| `Matcher.Activation.OnFailureJump` | liba2ps/regex.c:4357-4399 | It saves its target with the current position and goes on with the next instruction. |
| `Matcher.Activation.MaybePopJump` | liba2ps/regex.c:4404-4547 | It rewrites itself to one of two jumps, by the decision on what the loop begins with and what follows it, touches no other byte, and goes back with or without dropping a failure point. |
| `Matcher.Activation.PopFailureJump` | liba2ps/regex.c:4556-4592 | There is a failure point to drop; it is dropped, and the jump taken. |
| `Matcher.Activation.Fail` | liba2ps/regex.c:4783-4829 | Failure points are taken off from the top: dummies and those at closing jumps of loops are passed over, and matching resumes at the first other one. |
| `Matcher.Activation.Run` | liba2ps/regex.c:3518-4835 | It is the run of the machine, so its answer is right; and when loops are over single instructions or groups with numbers of their own it ends with an answer, given fuel enough. |
| `PopDecision.JudgementExact` | liba2ps/regex.c:4456-4538 | But for two misreadings, the test says that the loop and what follows begin differently if and only if no character can begin both. |
| `PopDecision.MistakenExactly` | liba2ps/regex.c:4456-4538 | The test is wrong if and only if the length of a literal is not in the set that follows although its first character is, or a full map of 32 bytes has the one character that follows. |
| `PopDecision.NoNeedToBacktrack` | liba2ps/regex.c:4404-4537 | Where the two begin with no character in common, and the loop can begin once more, nothing that follows the loop is accepted. |
| `PopDecision.FairExactly` | liba2ps/regex.c:4404-4538 | For a loop of compiled code over a single instruction: its closing jump is decided rightly if and only if neither of the two mistakes is made. |
| `PopDecision.FairHarmless` | liba2ps/regex.c:4404-4592 | If it is decided rightly, the alternative it throws away leads to no longer match, also where nothing follows the loop. |
| `PopDecision.GroupPops` | liba2ps/regex.c:4404-4592 | A loop over a group drops a failure point only if nothing but the ends of groups follows it. |
| `PopDecision.SureWhen` | liba2ps/regex.c:4404-4592 | If every loop over a single instruction is decided rightly, and every loop over a group is followed by something, or ends in alternatives, or saves nothing, nothing that matters is thrown away. |
| `PopDecision.Decide` | liba2ps/regex.c:4404-4538 | What the code decides, skipping group commands after the loop and comparing bytes and bitmaps, is that judgement. |
| `PopDecision.DecideBySet` | liba2ps/regex.c:4487-4538 | Two bitmaps, of whatever lengths, are found disjoint, or one within the other, exactly when the sets are. |
| `Pitfalls.JudgedWrongly` | liba2ps/regex.c:4456-4592 | If the test is wrong for `b*f`, a character that begins both is a text that the expression matches and no run of the matcher does. |
| `Pitfalls.OverlooksExactly` | liba2ps/regex.c:4456-4592 | For `b*f` over single characters such a text exists if and only if one of the two mistakes is made. |
| `Pitfalls.OverlooksUnlessSafe` | liba2ps/regex.c:4456-4592 | For these the condition on patterns is exact: such a text exists if and only if the loops of the pattern are not safe. |
| `Pitfalls.RightUnlessMistaken` | liba2ps/regex.c:4456-4592 | Otherwise every answer, on any text and at any place, is right. |
| `Pitfalls.LiteralMisread` | liba2ps/regex.c:4494-4497 | The pattern `a*[ab]` does not match `a`: the length of the literal is taken for its first character. |
| `Pitfalls.FullMapMisread` | liba2ps/regex.c:4469-4484 | The pattern `[a\377]*a` does not match `a`: the size in bits of a 32-byte map, cut to eight bits, is zero. |
| `GroupLoop.StopsShort` | liba2ps/regex.c:4404-4592 | The pattern `(a?(ab)?)*` matches `ab`, but the only answer of the matcher, whatever its fuel, is one character: the loop over a group, at the end of the pattern, drops an alternative saved inside the group. |
| `LoopCode.CodeNeat` | liba2ps/regex.c:1796-1919 | If there are at most 255 groups, or no loop is over one: in the code of a pattern every loop is over a single instruction or a group with a number of its own, and jumps lead neither to a closing jump of a loop over a group nor past the dummy at the end of alternatives. |
| `Numbering.CountedClose` | liba2ps/regex.c:2258-2313 | Groups are numbered one after another as they are opened, and the count written at the end of a group is that of the groups in it. |
| `Numbering.ChoiceExpandGroups` | liba2ps/regex.c:2202-2244 | So the numbers given out are as many as the pattern has groups. |
| `LoopTrust.NodesSeen` | liba2ps/regex.c:4404-4456 | What the matcher looks at after a loop is what comes next in the pattern: a character, a list, something else, or nothing. |
| `LoopTrust.CodeTrusted` | liba2ps/regex.c:4404-4592 | If the loops of a pattern are safe, as told from what each is over and what comes next, the matcher is right about every loop of its code. |
| `LoopSafety.SafeAsTheyStand` | liba2ps/regex.c:4404-4592 | Loops are safe where there are none, and where they are over characters and `.` only and there are no lists. |
| `Regex.PatternBuffer.Match` | liba2ps/regex.c:3518-4835 | Calls of the matcher on one pattern, each with the rewriting left by those before, give the answer that the code as compiled gives, and return only matches of the expression. If the matcher is right about every loop, the match is the longest and none is missed; with fuel enough there is an answer if loops over groups have numbers of their own. |
| `Regex.CompileAndMatch` | src/sshread.c:40-43 | From pattern text to answer: up to 2730 characters it answers exactly when the pattern can be read, and else gives the error of reading it. A match returned is a match of the expression. With at most 255 groups, or no loop over a group, there is an answer; and if the loops are safe (`LoopSafety.SafeLoops`), also those over groups and with lists, it is the longest match, and none only when there is none. |
| `DArray.DynamicArray.Grow` | liba2ps/darray.c:122-141 | The contents are kept and the array becomes strictly larger, unless it is steady, its factor is one, or it has nothing to multiply. |
| `DArray.DynamicArray.Append` | liba2ps/darray.c:234-240 | One item more at the end, for every array that has room or grows. |
| `DArray.DynamicArray.InsertAt` | liba2ps/darray.c:246-262 | The item is at its place and all others keep their order; refused beyond the end. |
| `DArray.DynamicArray.RemoveAt` | liba2ps/darray.c:268-280 | The item at the place is gone and the others keep their order; refused at and beyond the end. |
| `QuickSort.InsertionSort` | liba2ps/darray.c:345-355 | Short segments are left sorted, permuted within themselves only. |
| `QuickSort.MedianOfThree` | liba2ps/darray.c:363-370 | The median of first, middle and last is put second, with one not greater before and one not smaller at the end: the sentinels. |
| `QuickSort.ScanUp` | liba2ps/darray.c:371-375 | The unguarded scan stops at or before the sentinel, at an item not smaller than the pivot. |
| `QuickSort.ScanDown` | liba2ps/darray.c:371-376 | The unguarded scan downwards stops at or after the sentinel, at an item not greater than the pivot. |
| `QuickSort.Partition` | liba2ps/darray.c:363-382 | Without leaving the segment, the items are permuted such that the pivot divides them. |
| `QuickSort.DepthBound` | liba2ps/darray.c:383-397 | A segment still to be divided at depth d has at most n/2^d items, so below 38*2^49 items the 100 slots suffice and the error branch is not reached. |
| `QuickSort.Sort` | liba2ps/darray.c:329-400 | For every length below that and every total preorder, the array is left a sorted permutation of itself, with nothing touched beyond its length. |
| `DArray.DynamicArray.Qsort` | liba2ps/darray.c:329-400 | The contents become a sorted permutation of the contents. |
| `DArray.DynamicArray.Unique` | liba2ps/darray.c:484-495 | Of each group of neighbours that compare equal, the first stays. |
| `DArray.FirstsMeaning` | liba2ps/darray.c:484-495 | On a sorted array what stays is strictly increasing, was there before, and stands for everything that was there. |
| `DArray.FirstsLeast` | liba2ps/darray.c:484-495 | On a sorted array what stays of each class is its first item, the one before which there is none equal to it, and what stays keeps its order. |
| `DArray.DynamicArray.Merge` | liba2ps/darray.c:511-542 | Merging terminates although the array scanned grows; the result is sorted and consists of its own items and of those of the other array that it had no equal of. |
| `DArray.DynamicArray.MergeBoth` | liba2ps/darray.c:511-542 | By the policy under which the other array is to win, the result is sorted and has all items of both: of equal items, both are kept. |
| `DArray.MergedMeaning` | liba2ps/darray.c:503-542 | For strictly increasing arrays the result is strictly increasing, its classes are the union, and on a tie its own item is the one kept. |
| `Probing.Covers` | liba2ps/hashtab.c:32-37 | With a power-of-two size and an odd stride the probes of a key visit every slot within one round. |
| `Probing.NextProbe` | liba2ps/hashtab.c:80-113 | Stepping in unsigned arithmetic that wraps around gives the next probe of the sequence. |
| `HashTable.SearchEnds` | liba2ps/hashtab.c:80-113 | A search ends if and only if there is a slot never used or an item equal to the key. |
| `HashTable.PutKept` | liba2ps/hashtab.c:129-142 | Putting an item where it was looked for replaces the item of its class or adds one, and keeps every other item findable. |
| `HashTable.DeleteKept` | liba2ps/hashtab.c:151-163 | A tombstone removes one item and keeps every other one findable. |
| `HashTable.TombPut` | liba2ps/hashtab.c:193-213 | A tombstone put where it is looked for goes to a free slot, or takes the place of the item that compares equal to it, which is lost; all others stay findable. |
| `HashTable.MovedExactly` | liba2ps/hashtab.c:193-213 | Moving the slots of a table one after another into a larger one loses an item if and only if a tombstone that compares equal to it comes after it in the old vector; it is then the only one lost. |
| `HashTable.OneLost` | liba2ps/hashtab.c:193-213 | A consistent table of two slots whose one item is lost so. |
| `HashTable.HistoryLookup` | liba2ps/hashtab.c:122-142 | After any history of insertions, what is there for a key is exactly the item of its class inserted last. |
| `HashTable.RoundUp2` | liba2ps/hashtab.c:302-316 | The size is the next power of two strictly above the one asked for. |
| `HashTable.Table.constructor` | liba2ps/hashtab.c:44-60 | A new table is empty, and its size a power of two. |
| `HashTable.Table.FindSlot` | liba2ps/hashtab.c:80-113 | Whenever the search ends at all, it ends at the item of the class of the key if there is one, or else at a free slot on the path of the key. |
| `HashTable.Table.FindItem` | liba2ps/hashtab.c:115-120 | Whenever the search ends at all, it returns the item of the class of the key, and nothing if and only if there is none. |
| `HashTable.Table.Insert` | liba2ps/hashtab.c:122-142 | The item takes the place of the one of its class, which is returned, or is added. When the table grows the contents are what moving its slots leaves; with no tombstones, or none that compares equal to an item, nothing else changes, and in any case nothing else but an item that does. |
| `HashTable.Table.InsertAt` | liba2ps/hashtab.c:129-142 | The same at the slot where the item was looked for: fill is counted, and the table grows when it is full. |
| `HashTable.Table.Rehash` | liba2ps/hashtab.c:193-213 | A vector of twice the size, consistent, with the contents that moving slot after slot leaves, whatever the vector; one item fewer just when one is overtaken by a tombstone; and with a slot never used. |
| `HashTable.Table.Delete` | liba2ps/hashtab.c:144-163 | Whenever the search ends, the item of the class of the key is gone, and nothing else. |
| `HashTable.Table.Dump` | liba2ps/hashtab.c:231-250 | Every live item is listed, once, in a vector no longer than the count of items. |
| `HashTable.Table.Load` | liba2ps/hashtab.c:64-73 | Items loaded one after another leave what inserting them in that order leaves, but perhaps for an item that compares equal to a tombstone; exactly that, if there is no such item. |
| `PostScript.FaceNames` | liba2ps/faces.c:103-131 | The printer knows each face by the name that is written. |
| `PostScript.DecimalRoundTrip` | liba2ps/psgen.c:799-835 | A number written is read as itself. |
| `PostScript.RunEscaped` | liba2ps/psgen.c:70-76 | A parenthesis or a backslash, escaped, is one character of the string. |
| `PostScript.RunOctal` | liba2ps/psgen.c:78-86 | An octal escape of a code from 0100 on is read as that character, whatever follows. |
| `PostScript.RunOctalShort` | liba2ps/psgen.c:78-86 | Below 0100 the escape is not padded: it is read as meant if and only if no octal digit follows. |
| `PostScript.RunLineFace` | liba2ps/psgen.c:636-647 | Closing a string with a face and `n` shows it in that face and ends the line, whatever face was set. |
| `Glyphs.EscapeChar` | liba2ps/psgen.c:62-162 | For every byte and each of the six formats, the printer reads from the escape the intended glyphs, and as many as are counted. |
| `Glyphs.CharWidth` | liba2ps/encoding.c:1156-1223 | The width computed apart from the escape is the summed width of those same glyphs. |
| `Glyphs.PrintedAsItself` | liba2ps/psgen.c:69-87 | With a usual font, what the font has is printed as itself, and only that. |
| `Glyphs.SubstituteMeans` | liba2ps/psgen.c:94-160 | What stands for a character tells which it is: a backslash and three octal digits, or `\x` and two hexadecimal ones, with its number as value; a sign before the character 64 above, or `?` for 127, and `M-` for 128 more; and `?` or a blank in the two other formats. |
| `Glyphs.SubstitutesDiffer` | liba2ps/psgen.c:94-160 | So in four formats no two characters are shown alike. |
| `Layout.PutConserves` | liba2ps/psgen.c:687-896 | With lines folded, a character adds its own glyphs in its own face, nothing else, and nothing is cut. |
| `Layout.TextConserved` | liba2ps/psgen.c:687-920 | With lines folded, the glyphs of a text are laid out each once, in order, in their faces. |
| `Layout.TabMovesOn` | liba2ps/psgen.c:799-835 | A tab goes on to a multiple of the tab size strictly past both the column and the width reached. |
| `Layout.PutInMargins` | liba2ps/psgen.c:636-896 | If no single character is wider than a line, nothing sticks out of a line, after any character. |
| `Layout.PutNested` | liba2ps/psgen.c:457-682 | After any character sheets, virtual pages and lines are nested, sheets are numbered in order, no page has more lines than fit, and pages are counted by sheets and position on the sheet. |
| `Layout.SkipKept` | liba2ps/psgen.c:536-554 | A virtual page left empty is counted, adds no glyph and leaves the nest in order. |
| `Layout.FlushKept` | liba2ps/psgen.c:564-573 | Flushing closes the sheet that is open, and only then is one closed. |
| `Layout.TextKept` | liba2ps/psgen.c:687-920 | All of this holds over whole texts. |
| `Rows.RowsEnd` | liba2ps/psgen.c:764-797 | The lines a text becomes end at its newlines and interpreted form feeds, in that order, and otherwise only where they are folded; the last has not ended. |
| `Rows.BrokenWhenFull` | liba2ps/psgen.c:819-896 | A line is folded, or something cut off, only where what comes next in the text does not fit; a folded part begins the next line. |
| `Rows.FittingRows` | liba2ps/psgen.c:836-896 | If every line of a text without tabs fits, what stands on the lines is the text between its line breaks, line by line, and nothing is folded or cut. |
| `PageLines.TextSet` | liba2ps/psgen.c:687-896 | Put character by character from the top of a page, a text becomes its lines: what stands between two ends of lines is a line of it; there are as many ends as newlines, form feeds and folds; a virtual page ends exactly after the line with which it is full and after each that ends with a form feed. |
| `PsGen.Generator.EndOfLine` | liba2ps/psgen.c:636-647 | The printer has shown the string in its face and has the face set; the line is counted. |
| `PsGen.Generator.FoldLine` | liba2ps/psgen.c:657-682 | The line goes on on the next, perhaps on a new virtual page, where no face is taken for granted. |
| `PsGen.Generator.ChangeFace` | liba2ps/psgen.c:844-852 | What is in the string is shown in the old face before the new one applies. |
| `PsGen.Generator.PrintTab` | liba2ps/psgen.c:799-835 | A string is closed, the printer moved and a string opened: the layout has the tab. |
| `PsGen.Generator.PrintGlyphs` | liba2ps/psgen.c:836-894 | A character is escaped into the open string, after folding or cutting as its width demands. |
| `PsGen.Generator.PrintChar` | liba2ps/psgen.c:687-896 | A string is open if and only if a line is; what the printer makes of everything written is the layout with the character put, every glyph in the face requested, though faces are named only when they change. |
| `PsGen.Generator.BeginFile` | liba2ps/psgen.c:927-971 | A file starts on a new virtual page; aligned, the pages before it are a multiple of the rank, a row or a column of pages. |
| `PsGen.Generator.FillRank` | liba2ps/psgen.c:943-950 | Filling a rank ends, with as many empty pages as were missing. |
| `PsGen.Generator.EndFile` | liba2ps/psgen.c:973-994 | The open string is shown and the open virtual page ended. |
| `PsGen.Generator.EndDocument` | liba2ps/prolog.c:463-474 | At the end nothing is open: every sheet begun has been ended. |
| `PsGen.PrintJob` | liba2ps/psgen.c:687-994 | Over a whole job: reading the output, the printer shows the files one after the other, each as the lines and pages its text alone makes (`JobPages.JobSet`); every character of every file once, in order, in its face; sheets, pages and lines nest and hold no more than fits. |
| `JobPages.JobInParts` | liba2ps/psgen.c:927-994 | The events of a job are, file after file, pages left empty, the lines and pages of the text of that file, and the end of its last page if one is open; then the end of the last sheet. |
| `Sheets.SkipExactly` | liba2ps/psgen.c:536-554 | With only some pages printed: a virtual page may be left empty on a sheet if and only if the sheet has been begun, and output is seen when that completes it; otherwise the sheet has no beginning or loses its end. |
| `Sheets.JobOrderly` | liba2ps/psgen.c:311-573 | Whatever pages are selected and wherever new sheets are asked for, if no page is left empty where it cannot be: sheets are numbered in order and begun and ended, their pages are in order and are just those selected, and every sheet has a label. |
| `Sheets.AllChosen` | liba2ps/psgen.c:943-950 | When every page is selected and no new sheet is forced, filling up ranks never leaves a page empty where it cannot be. |
| `Sheets.OrderlyJobs` | liba2ps/psgen.c:311-573 | So a job in which no page is left empty is in order, and so is one with every page selected and no new sheet asked for. |
| `Sheets.LabelsStay` | liba2ps/psgen.c:311-399 | A label once filled stays as it is: it is the one made when its own sheet ended, whatever is printed or not after it. |
| `Sheets.EndLost` | liba2ps/psgen.c:457-554 | Two pages to a sheet, the first alone selected of three: the page that fills the rank ends the sheet unseen, and the sheet is never ended in the output. |
| `Sheets.BeginLost` | liba2ps/psgen.c:457-554 | Four pages to a sheet, the third alone selected, after a file of one page: the page that fills the rank is taken for one on a sheet never begun. |
| `Sheets.Job.VirtualBegin` | liba2ps/psgen.c:457-486 | A virtual page is begun, in the void if it is not selected, and its sheet with it if it is the first on it. |
| `Sheets.Job.PageBegin` | liba2ps/psgen.c:311-334 | The text of a sheet begins with its number and a place for its label. |
| `Sheets.Job.PageEnd` | liba2ps/psgen.c:388-446 | The label is filled in memory, which changes nothing already put in the output. |
| `Sheets.Job.Finish` | liba2ps/psgen.c:564-573 | Dumped at the end, the output is the document with each label in the place left for it. |
| `Diversion.FilledInOrder` | liba2ps/output.c:536-556 | There are as many places as derivations, and filling them one by one gives texts and items in the order of issue. |
| `Diversion.Output.Print` | liba2ps/output.c:162-174 | Text is kept, up to its NUL, unless output goes nowhere. |
| `Diversion.Output.PrintChar` | liba2ps/output.c:179-186 | A character is kept; a NUL would be taken for the place of an item that does not exist. |
| `Diversion.Output.Delay` | liba2ps/output.c:191-258 | An item and its place are kept together. |
| `Diversion.Underivation` | liba2ps/output.c:493-521 | An item is written with the value it has at dump time. |
| `Diversion.Output.Dump` | liba2ps/output.c:536-556 | For any acyclic nesting it ends, and writes all texts and items in the order in which they were issued. |
| `LineBuffer.LinesNormal` | src/buffer.c:190-274 | The lines put together are the text with each end of line made one newline. |
| `LineBuffer.EolMeans` | src/buffer.c:195-263 | Each of the five settings is the end of line its name says; when any will do, a pair is taken before a single character. |
| `LineBuffer.AutoClean` | src/buffer.c:195-263 | When any end of line will do, no line has a return or newline in it but the newline that ends it. |
| `LineBuffer.SeamNormal` | src/buffer.c:378-413 | A string and then a stream give the lines of the whole, if no end of line lies across the seam. |
| `LineBuffer.SeamExactly` | src/buffer.c:378-413 | If one does, exactly one character too many is read, unless any end of line will do and the stream begins with an even number of alternating returns and newlines, when the loss is made up. |
| `LineBuffer.TakeAllNormal` | src/buffer.c:378-413 | Without a byte 0xFF in the string, the lines make up string and stream, each with its own ends of lines made newlines. |
| `LineBuffer.TakeAllLines` | src/buffer.c:378-413 | And where no end of line lies across the seam they are the lines of the whole. |
| `LineBuffer.StringLoses` | src/buffer.c:156-161 | A byte 0xFF in the string, such as a sample of a file, is taken for its end: the lines then never make up the text. |
| `LineBuffer.SeamHarmless` | src/buffer.c:378-413 | So reading in two parts gives the whole text if and only if the string has no byte 0xFF and no end of line is cut, or one that is made up for. |
| `LineBuffer.CleanSeam` | src/buffer.c:441-462 | A sample that ends in neither character of an end of line is such a safe seam. |
| `LineBuffer.Buffer.StringGetLine` | src/buffer.c:287-371 | It takes one line off the string, with the greediest end of line of its kind; a byte 0xFF ends it and is dropped. |
| `LineBuffer.Buffer.StreamGetLine` | src/buffer.c:190-274 | It takes one line off the stream in the same way, after what the string gave. |
| `LineBuffer.Buffer.Get` | src/buffer.c:378-433 | Whatever the string holds and wherever it was cut: the line of the string if it is ended there, otherwise its text and the line of the stream after it; the last character is dropped if and only if the one before it is a form feed. |
| `LineBuffer.Buffer.SampleGet` | src/buffer.c:441-462 | Sampling moves up to 512 characters from stream to string and loses none. |
| `ReadLines.ReadAll` | src/buffer.c:378-433 | Called until a line is empty, it ends, and gives the lines taken one after the other off string and stream, each as it was unless its last character but one is a form feed, and then without the last. Without 0xFF in the string they make up what is kept of the text (`ReadLines.AllKept`). |
| `ReadLines.TakeAllKept` | src/buffer.c:378-413 | What is kept is the text with each end of line made one newline, and none after a form feed; but the last character is lost where it has no end of line and comes after a form feed in its line. |
| `ReadLines.KeptWhole` | src/buffer.c:378-413 | It is the whole text, with its ends of lines made newlines, if and only if no end of line comes after a form feed and no last character is lost. |
| `ReadLines.PlainKept` | src/buffer.c:378-413 | So it is where there is no form feed. |
| `ReadLines.LastLost` | src/buffer.c:409-413 | The last character of a file is lost if it comes after a form feed and has no end of line. |
| `PageRange.Range.SetString` | liba2ps/prange.c:241-307 | Intervals are added token by token; all text is accepted if and only if every token is well formed. |
| `RangeText.TokensApart` | liba2ps/prange.c:255-305 | Every text is its words with commas, blanks and tabs between them, as many as there may be, none of which is in a word. |
| `RangeText.EntryRead` | liba2ps/prange.c:257-300 | A number is read as that page; two numbers with a hyphen or a colon between them as bounds, a missing one being zero, and as an error if the upper one is given and below the other; `toc`, whatever number comes before it, as the table of contents. |
| `RangeText.EntryOnly` | liba2ps/prange.c:257-300 | Nothing else is read. |
| `RangeText.EntrySelects` | liba2ps/prange.c:318-341 | A page selects itself; bounds select what is between them or, without an upper one, from the lower one on; without either, nothing. |
| `PageRange.Range.PrintPage` | liba2ps/prange.c:318-341 | A page is printed if it is of the table of contents and that is asked for, or if some interval has it, or if nothing was asked for. |
| `PageRange.IntervalToBuffer` | liba2ps/prange.c:77-106 | Nothing is written for an interval that has passed; else what is read back is what is left of it counted from the offset, except that one that ends just at the offset is written as one that begins there, and one without a lower bound as text that cannot be read. |
| `PageRange.RangeToBuffer` | liba2ps/prange.c:193-209 | What is written, with empty items for passed intervals and nothing for open ones already begun, is read back as what is left of each; it can be read if and only if no interval lacks a lower bound once something is taken off. |
| `PageRange.ReadFormed` | liba2ps/prange.c:241-307 | No interval that has been read ends before it begins. |
| `PageRange.RemainingSelects` | liba2ps/prange.c:193-209 | What is read back has page p, or the range holds an open interval already begun, if and only if the range has page p plus offset, or an interval that ends at the offset is written as one that has page p. |
| `PageRange.RoundTrip` | liba2ps/prange.c:193-341 | Exactly when a range that can be read back selects the same pages: with an open interval already begun, nothing else is left or what is left selects every page; without one, something is left (or the range is empty), and what is written for intervals that end at the offset selects no page that is not selected anyway. |
| `PageRange.EndsAtOffset` | liba2ps/prange.c:77-106 | An interval that ends at the offset selects no further page, yet what is written for it selects page one. |
| `Lister.AddItem` | liba2ps/lister.c:259-281 | Taking one more item in keeps a hypothesis equal to the widest items of its columns, and it stays valid exactly while they fit. |
| `Lister.InitWorlds` | liba2ps/lister.c:176-208 | At first every hypothesis holds columns of the least width, and all fit. |
| `Lister.VerticalFormat` | liba2ps/lister.c:246-299 | The number of columns is the largest that fits, or one, and the widths are those of the widest items taken in; items are taken in until the columns no longer fit. |
| `Lister.Indent` | liba2ps/lister.c:155-173 | Tabs and blanks together lead exactly to the column aimed at. |
| `Lister.PrintVertical` | liba2ps/lister.c:335-366 | What the terminal shows, row after row, is the placement computed item by item. |
| `Lister.EachOnce` | liba2ps/lister.c:335-366 | In that placement each item appears exactly once, in row k mod rows and column k / rows. |
| `Lister.ColumnsEnd` | liba2ps/lister.c:335-366 | Each column starts where the widest items and gaps before it end. |
| `Lister.FprintVertical` | liba2ps/lister.c:301-367 | A listing: the most columns that fit, and each item in its place on the terminal. Every item starts in its column if and only if items are put to the left, or none is wider than the first that is too wide for the line. |
| `Lister.InColumnsExactly` | liba2ps/lister.c:345-356 | The room before an item wider than its column, an unsigned difference, is beyond all bounds; there is such an item if and only if one is wider than the first that is too wide for the line. |
| `Tokenizer.Reader.MatchWord` | src/sshread.c:101-115 | An unmatched word is taken to its end, and made plain. |
| `Tokenizer.Reader.MatchRule` | src/sshread.c:123-224 | The last word of its initial that applies, then the last expression that matches; otherwise nothing moves. |
| `Tokenizer.Reader.MatchSequence` | src/sshread.c:235-275 | The last sequence whose opening is here is opened, with the token of its opening. |
| `Tokenizer.Reader.InSequence` | src/sshread.c:316-335 | Inside a sequence: an exception, the end, or one character in the face of the sequence. |
| `Tokenizer.Reader.OutOfSequence` | src/sshread.c:336-372 | Outside: an opening, a keyword, an operator, a plain word or a plain character. |
| `Tokenizer.Reader.GetToken` | src/sshread.c:281-373 | Token after token is what the rules say at that place, with the face of the open sequence or plain, though the face is kept in one shared right-hand side that is set late and put back late. |
| `Tokenizer.NextWithin` | src/sshread.c:281-373 | A token starts where the one before ended and stays in the line. |
| `Tokenizer.NextAdvances` | src/sshread.c:281-373 | If no rule covers nothing, every token covers something. |
| `Tokenizer.LineTiled` | src/sshread.c:281-373 | The tokens of a line cover it from end to end without gap or overlap, whatever sequence is open at its start. |
| `Tokenizer.FileTiled` | src/sshread.c:281-373 | So do the tokens of all lines of a file, sequences going on from line to line. |
| `Tokenizer.ReadFile` | src/sshread.c:386-491 | Asking for tokens until there are none ends, and gives those tokens, line by line. |
| `TokenRules.NextRight` | src/sshread.c:281-373 | A token and the sequence open after it come next if and only if they are right there: in a sequence an exception, else what closes it, else one character in its face; outside the last sequence that opens, else a keyword, only at the start of a word, else an operator, else a whole word or one character, in the plain face. The rule taken applies and none defined later does. |
| `TokenRules.OneReading` | src/sshread.c:281-373 | So what is right at a place is one token only, and tells which sequence is open next. |
| `TokenRules.FileReadRight` | src/sshread.c:281-373 | Every token of a file is right, with the sequence open that the tokens before it left open, across lines; unmatched characters have the face of the open sequence, or the plain one. |

## Left out

Contracts that say less than one might wish:

- RegexCompiler.Compiler.Compile: does not model intervals `{m,n}`, back-references, GNU escapes such as `\w`, `[[:class:]]`, the special code for `.*` before a newline, translate tables, or a `^` that is an anchor although something precedes it in its branch; such patterns are reported as unsupported. Running out of memory below 65536 bytes is not modelled.
- EreGrammar.PlainReadBack: leaves out expressions in which `.*` stands before a newline, and repeated anchors.
- Fastmap.CompileFastmap: what the traversal does once it has gone astray past the end of the code is not modelled; that it does, and when, is part of the result.
- Matcher.Activation.Run: promises the longest match, and that none is missed, only if no alternative is thrown away that matters, because `maybe_pop_jump` throws some away wrongly (`PopDecision.MistakenExactly`, `GroupLoop.StopsShort`). The condition is exact for each decision about a loop over a single instruction, and for patterns `b*f` (`Pitfalls.OverlooksUnlessSafe`); for a group at the end of a pattern with something repeated or optional in it and no alternatives, only that matches are matches is promised, though such a pattern need not go wrong. An end of the run is promised unless a loop is over a group and there are more than 255 groups; then it is bounded by `fuel`, and `OutOfFuel` stands for whatever the code would do.
- Regex.PatternBuffer.Match: the same as for the run it makes.
- Matcher.Activation.StopMemory: of the registers only what decides the way on is modelled, which groups have matched nothing since they were last begun, as the comment on `matched_something` has it (lines 3598-3602); the range of active registers and `just_past_start_mem` are not, the latter being such a group too.
- PastTheEnd.LooksPastExactly: leaves out code of exactly 32767 bytes, and patterns of more than 255 groups, of which some have no code.
- Search.Find: `GivenUp` stands for the error return of the matcher, which is reached here when the fuel is spent; the limit on the failure stack is not modelled.
- QuickSort.Sort: requires fewer than 38*2^49 items, up to which the fixed stack suffices; more do not fit in any memory.
- DArray.DynamicArray.Merge: does not model merging an array with itself.
- DArray.DynamicArray.Grow: does not model a failing allocation.
- HashTable.Table.Insert: requires that the search ends, and fewer than 2^62 items.
- HashTable.Table.FindSlot: requires that the search ends: a slot never used, or the key in the table (`HashTable.SearchEnds`).
- HashTable.Table.Dump: does not model the sorting of the listing, which is the C library's.
- Glyphs.EscapeChar: requires fonts as they are, with no glyph below 040 or at 0177 and with all of printable ASCII.
- Sheets.Job.Finish: what is on the pages, headers, footers and the expansion of the label format are left out, a label being whatever text it expands to; so are empty back sides and the alignment to sheets or a number.
- HashTable.Table.Load: requires, if there are tombstones, that there are slots never used, for each item or until the table grows, without which a search may not end; in a table of less than sixteen slots, for each item.
- PsGen.PrintJob: does not model line numbers, composite encodings, changes of encoding, page selection (which `Sheets` has), or alignment of files to pages, sheets or a number; marks stand for the text of the brackets around sheets and virtual pages, with headers and titles.
- Diversion.Output.Print: does not model formatting; a string is what is left after it.
- Diversion.Output.Dump: requires that nested diversions do not contain themselves, without which it does not end.
- LineBuffer.Buffer.Get: the copy in lower case is not modelled; characters are signed, as they are where a2ps is mostly compiled.
- PageRange.RoundTrip: is about ranges as they are read (`PageRange.ReadFormed`) that can be read back (`PageRange.RangeToBuffer` says which), and pages up to the size of a word.
- PageRange.Range.SetString: numbers beyond the range of `int` are not modelled.
- Lister.FprintVertical: requires a line at least as wide as its margins and one gap, with something left beside the margins, and at least one item; positions beyond the size of a word are not wrapped.
- Tokenizer.LineTiled: requires that no rule covers nothing, since such a rule would be found again and again.
- Tokenizer.Reader.GetToken: `re_match` is a function of expression, text and place; registers other than the first are not modelled, nor is the state a file that ends inside a sequence leaves to the next.
- Tokenizer.Reader.MatchRule: characters of 0200 and above are taken as unsigned, where the keyword table would be indexed out of range.

Parts of the programs that are not modelled:

- What registers hold, `not_bol`, texts split in two strings and the limit on the failure stack in the matcher; so nothing is said of which group matched what.
- `da_qsort_with_arg`, comparison and printing of arrays, statistics of hash tables.
- `ps_set_encoding` and its relatives, page sides, orientation, delegations, the prologue and the setup of documents.
- `output_file`: copying a file into a diversion.
- Listings in rows and separated lists (`lister_fprint_horizontal`, `lister_fprint_separated`).
- The construction of style sheets and their word tables (`src/ssheet.c` is not part of this model), and what is done with tokens once they are found.
- Files, pipes, options, fonts, encodings, printers, time and locale: everything that reads or writes the world.
