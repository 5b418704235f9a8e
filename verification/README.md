# Pegium parser model

Pegium is a scannerless PEG parser with error recovery. This project models its deterministic core
in Dafny and proves what the core is for. Every method that works by changing state is modelled as
a method on mutable state and proved against a specification; what the code promises is then proved
of the specification, for all inputs, all runs and all grammars.

| file | models |
|---|---|
| Options.dfy, Extremes.dfy | optional values, the larger and the smaller of two numbers |
| StrictContext.dfy | the strict context: cursor, visible end, and the streaming tree builder with mark and rewind |
| InfixRule.dfy, InfixValue.dfy, InfixTree.dfy, InfixMaximalMunch.dfy | infix rules: the strict tail loop, the two folds that turn its odd tree shape into a value, the unique precedence tree, operator selection |
| PegExpression.dfy, PegParser.dfy, PegDepth.dfy, PegProbe.dfy | the expression language, its static flags, parsing that omits checkpoints where the flags allow it, and when a probe may be trusted |
| PegDerivation.dfy, PegSoundness.dfy, PegCompleteness.dfy | derivations: an independent semantics of the expression language, and that the parser decides it |
| FuzzyScript.dfy, FuzzyMatrix.dfy, FuzzyText.dfy, FuzzyCandidates.dfy, FuzzyFrontier.dfy, FuzzyDetector.dfy, FuzzyMatcher.dfy, FuzzyCache.dfy, FuzzyAgreement.dfy | the fuzzy literal matcher: alignment scripts, the two-lane matrix in a three-row ring, backtrace, pruning, the linear detector, what a lookup computes and the owning cache; and where detector and lookup agree |
| RecoveryState.dfy, RecoveryParseContext.dfy | what each call does to a recovery context, as functions and as a class |
| RecoveryPhase.dfy, RecoveryFastPath.dfy, RecoveryScript.dfy, RecoveryRewind.dfy, RecoveryRun.dfy, RecoveryTheorems.dfy | invariants of one step, marks and rewinds, whole runs, and the theorems about runs |
| RecoveryProgress.dfy, RecoveryConfinement.dfy | what an attempt gets done: windows open, close and turn stable, permitted edits go through; and where it must not edit |
| RecoveryDescent.dfy | the guarded recursive descent of a recovery parse |
| ChoiceCache.dfy, RecoveryWindow.dfy, DocTokens.dfy, DocParser.dfy, DocSpelling.dfy, DocStructure.dfy, ParallelFor.dfy | the generation-stamped choice cache, the recovery window, documentation comments with what their tokens write and where their elements begin, the parallel loop |

## Three promises the code does not keep

- *Operators yield to longer ones.* The comment at src/pegium/core/parser/InfixRuleSupport.hpp:333-347
  says an operator literal yields to a longer declared one that matches. The shadow test compares the
  text with the declared spelling, so a longer case-insensitive operator in another spelling does not
  shadow. `InfixMaximalMunch.MaximalMunchFailsOnRespelling` gives the input and
  `InfixMaximalMunch.AcceptedIsLongestIff` the exact condition at a position;
  `InfixMaximalMunch.MunchesMaximallyIff` gives the condition on the declared operators and their
  order, and `InfixMaximalMunch.DeclarationOrderMatters` two declarations that differ in the order only.
- *A rewind undoes what followed its mark.* A delete that is joined across trivia to the last entry
  older than a mark stays joined after the rewind, because the script is only cut to its length.
  `RecoveryTheorems.RewindCanLeaveOverlap` gives the run and `RecoveryTheorems.RewindUndoesTheRun`
  the exact condition for undoing; `RecoveryTheorems.UnjoinableMarkIsExact` a condition that is already
  plain when the mark is taken. `RecoveryTheorems.AttemptIsLaidOutIff` says what else depends on
  it: the script stays in order, apart and behind the cursor throughout an attempt if and only if
  every rewind was exact.
- *The single-edit detector accepts what a lookup offers at distance one.* So says
  src/pegium/core/parser/LiteralFuzzyMatcher.hpp:130-140 of single-byte text. Among words the lookup
  charges what is left of the input after the prefix, and it answers nothing for equal texts and for
  an empty input; the detector does none of this. `FuzzyAgreement.DetectorOverpromisesOnWords` gives the input and
  `FuzzyAgreement.DetectorAgreesWithLookupIff` the exact condition.

Three smaller findings: tokenization drops one trailing break only, so a comment that ends in two blank
lines still ends in a break (`DocTokens.OneTrailingBreakIsDropped`); the budget bounds need no
assumption about 32-bit overflow, because check and charge wrap alike (`RecoveryPhase.PayingKeepsBudget`);
and past the failure of an open window it is the first delete of a run that is refused, not let through
as the comment at src/pegium/core/parser/ParseContext.hpp:855-860 has it (`RecoveryConfinement.LaterEditsStayInReach`).

## How to read the recovery part

`RecoveryState.Next` is one call of the context: skip, leaf, insertion, gap insertion with its leaf,
replacement, delete, bridging, enter, exit, relabelling a child, finalizing at the end of the text, and the switches that
scoped guards flip. A call may be refused. `RecoveryRun` adds marks: a run is any sequence of calls,
marks, dropped marks and rewinds to live marks, and `Inv` is what all of them keep. The history in it
(openings, last in-window edit, leaves since, which committed edit each entry replays) belongs to the
branch and is restored by a rewind; the list of joined deletes belongs to the run and is not.

## Model

| member | source | states |
|---|---|---|
| InfixTree.RuleBuildsTheTree | src/pegium/core/parser/InfixRule.hpp:490-556 | for every text, the strict rule followed by the value fold gives a well-shaped tree over exactly the greedy chain of operands and operators that can be read from the text; in terms of declaration order, an operand's operator below a left-associative one on the left was declared no later, one on the right earlier (mirrored for right-associative); no further link follows; and no other tree has these properties |
| InfixTree.TreeIsUnique | src/pegium/core/parser/InfixRuleSupport.hpp:322-331 | two well-shaped trees over the same tokens are the same tree |
| InfixTree.ShapeIsDeclared | src/pegium/core/parser/InfixRule.hpp:680-703 | binding tighter is being declared earlier: a tree is well-shaped by precedence if and only if it is by declaration indices |
| InfixTree.ChainReads | src/pegium/core/parser/InfixRule.hpp:526-556 | the greedy chain reads operator, trivia, operand, trivia in turn from where it starts, each operator being the first in declaration order that can be used there, and ends where no further link can be read |
| InfixTree.ParseExpression | src/pegium/core/parser/InfixRule.hpp:490-499 | parse and build end to end: a tree exactly when the first operand matches, and then the unique one over the chain, shaped by the order in which the operators are declared |
| InfixTree.TailFolds | src/pegium/core/parser/InfixRule.hpp:526-556 | folding the nodes of a bounded tail onto a left operand keeps shape, source spans and tokens, and the tail stopped only before a link that binds less tightly than its bound |
| InfixTree.RootIsLoosest | src/pegium/core/parser/InfixRuleSupport.hpp:322-331 | in a tree whose root meets a precedence bound every operator meets it |
| InfixTree.RuleFold | src/pegium/core/parser/ParserRuleSupport.hpp:98-158 | past the first operand the child fold of a rule node is the fold of its tail nodes |
| InfixTree.BuildLink | src/pegium/core/parser/InfixRuleSupport.hpp:221-251 | building a tail node onto a left operand takes its operator, and folds everything behind its operand into the right side |
| InfixRule.ParseRule | src/pegium/core/parser/InfixRule.hpp:490-499 | the whole rule leaves the tree, cursor and visible end the specification gives, and fails exactly when its primary does not match |
| InfixRule.ParseTailStrict | src/pegium/core/parser/InfixRule.hpp:526-556 | the tail loop appends the nodes of the specified tail and nothing else; on a stop everything is as before the failed link |
| InfixRule.ParseTailStep | src/pegium/core/parser/InfixRule.hpp:533-555 | one turn of the loop: a node opened after the left operand and closed over its start, or no trace at all |
| InfixRule.ParseLink | src/pegium/core/parser/InfixRule.hpp:540-552 | operator, trivia, operand, trivia and the tighter tail inside one open node |
| InfixRule.TryMatchOperator | src/pegium/core/parser/InfixRule.hpp:697-725 | picks the first operator in declaration order that matches and is not shadowed, and that the bound admits; otherwise the state is untouched |
| InfixRule.HasOperatorFastProbe | src/pegium/core/parser/InfixRule.hpp:680-695 | whether any operator the bound admits probes here, without a trace |
| InfixRule.AttemptOperator | src/pegium/core/parser/ParseAttempt.hpp:72-84 | an operator that does not match leaves the state as it was |
| InfixRule.ParseOperator | src/pegium/core/parser/InfixRule.hpp:707-709 | the operator node and its end; a failed multi-part operator may leave partial work that the caller takes back |
| InfixRule.LinkAdvances | src/pegium/core/parser/InfixRule.hpp:533-555 | an operator and its operand move the cursor forward and stay inside the text, which is what ends the loop |
| InfixMaximalMunch.AcceptedIsLongestIff | src/pegium/core/parser/InfixRuleSupport.hpp:348-387 | an accepted single-literal operator is the longest declared one here if and only if no longer case-insensitive operator matches in another spelling than the declared one |
| InfixMaximalMunch.MunchesMaximallyIff | src/pegium/core/parser/InfixRule.hpp:697-725 | the declared operators alone decide: on every text the operator that every rule over them accepts, the first usable one in declaration order, is the longest that matches if and only if no spelling of a longer case-insensitive operator escapes, that is, begins with a shorter operator, with no operator longer than that as declared, and with no operator longer than that declared before it |
| InfixMaximalMunch.EscapeBreaksMunch | src/pegium/core/parser/InfixRule.hpp:697-725 | such a spelling is itself a text on which an operator is accepted that is shorter than one that matches |
| InfixMaximalMunch.BrokenMunchEscapes | src/pegium/core/parser/InfixRule.hpp:697-725 | wherever the accepted operator is not the longest, the text of the longer one is such a spelling |
| InfixMaximalMunch.DeclarationOrderMatters | src/pegium/core/parser/InfixRule.hpp:697-725 | with case-insensitive `=a` declared before `=` every text munches maximally; in the other order `=A` does not, provided `=` is not part of a word |
| InfixMaximalMunch.SensitiveOperatorsMunchMaximally | src/pegium/core/parser/InfixRuleSupport.hpp:333-387 | with case-sensitive operators an accepted operator is never a proper prefix of a longer one that matches |
| InfixMaximalMunch.MaximalMunchFailsOnRespelling | src/pegium/core/parser/InfixRuleSupport.hpp:333-387 | the promise fails otherwise: operators `=` and case-insensitive `=a` on the text `=A` |
| InfixMaximalMunch.SomeOperatorIsAccepted | src/pegium/core/parser/InfixRuleSupport.hpp:348-387 | shadowing never blocks all: when a literal operator matches, some operator is accepted, provided being part of a word does not depend on a letter's case |
| InfixMaximalMunch.ShadowerMatches | src/pegium/core/parser/InfixRuleSupport.hpp:348-369 | a literal that shadows an operator here is an operator that matches here |
| InfixValue.BuildTypedFromCst | src/pegium/core/parser/InfixRuleSupport.hpp:221-251 | the loop over a node's children builds what the recursive reading of the node gives |
| InfixValue.GetRawValue | src/pegium/core/parser/ParserRuleSupport.hpp:98-158 | the loop with its pending buffer gives the value and the assignments of the left fold |
| InfixValue.AssignmentsRunOnce | src/pegium/core/parser/ParserRuleSupport.hpp:98-158 | every assignment of a rule node is executed once, in child order, onto some value |
| InfixValue.AssignmentsRunOnTheirNode | src/pegium/core/parser/ParserRuleSupport.hpp:98-158 | each assignment runs on the node that the children up to the next node or action make: those before a nesting action on the node it is about to wrap, those behind it on the wrapping one, those before any node on a fresh one |
| InfixValue.FoldKeepsAssignments | src/pegium/core/parser/ParserRuleSupport.hpp:98-158 | at any child, what ran plus what is pending is what came before plus the children's assignments |
| InfixValue.PendingBuffer.Add | src/pegium/core/parser/ParserRuleSupport.hpp:39-53 | eight inline slots and an overflow vector behave as one growing sequence |
| InfixValue.PendingBuffer.Apply | src/pegium/core/parser/ParserRuleSupport.hpp:55-78 | flushing hands every entry, inline and overflow, to the target in order |
| StrictContext.ParseContext.Rewind | src/pegium/core/parser/ParseContext.hpp:61-66 | a rewind to a mark whose node is still open restores cursor, visible end and tree exactly |
| StrictContext.ParseContext.Exit | src/pegium/core/parser/ParseContext.hpp:82-94 | closing a node links it, from its begin to the last visible end, to its parent |
| StrictContext.ParseContext.AppendLeaf | src/pegium/core/parser/ParseContext.hpp:137-147 | a leaf is added to the open node and moves the cursor, and the visible end unless hidden |
| PegParser.Parse | src/pegium/core/parser/ParseMode.hpp:101-106 | on every expression the context ends in the state of the always-restoring meaning; a failing failure-safe expression leaves cursor, visible end and tree exactly as before, any failure keeps what was there |
| PegParser.AttemptParse | src/pegium/core/parser/ParseAttempt.hpp:72-84 | omitting the checkpoint around failure-safe expressions changes nothing: every failed attempt restores its start |
| PegParser.ParseElements | src/pegium/core/parser/Group.hpp:213-218 | a group stops at its first failing part and leaves partial work for its caller to take back |
| PegParser.MatchChoice | src/pegium/core/parser/OrderedChoice.hpp:455-459 | the first alternative that matches; a failure of all is clean |
| PegParser.ParseUnordered | src/pegium/core/parser/UnorderedGroup.hpp:80-112 | each part once in any order, first match first; a failure is clean |
| PegParser.ParseFixed | src/pegium/core/parser/Repetition.hpp:85-180 | exactly n items without checkpoints agrees with the restoring meaning up to partial work |
| PegParser.ParseFromZero | src/pegium/core/parser/Repetition.hpp:85-180 | optional and starred items never fail and leave no trace of the item that did not match |
| PegParser.ParseAtLeast | src/pegium/core/parser/Repetition.hpp:85-180 | mandatory items, then as many as match; a failure keeps only what a failed group may keep |
| PegParser.ParseMore | src/pegium/core/parser/Repetition.hpp:85-180 | further items until one fails, with the skip before the failing one taken back |
| PegParser.ParseWrappedNode | src/pegium/core/parser/NodeParseHelpers.hpp:14-37 | wrapping in a node: on failure the opened node stays for the caller to take back, so it is not failure-safe |
| PegParser.ParseOverridingFirstChild | src/pegium/core/parser/NodeParseHelpers.hpp:38-66 | relabelling the first child keeps the failure safety of the inner expression |
| PegParser.TryProbe | src/pegium/core/parser/ParseMode.hpp:60-89 | every probe leaves the context exactly as it was and answers what the probe specification says: groups, choices and repetitions, also behind a skipper of their own, by how they start, everything else by a parse that is undone |
| PegParser.AttemptFastProbe | src/pegium/core/parser/ParseAttempt.hpp:164-171 | fast probes leave the context exactly as it was, and look through assignments, rule calls and skippers to what an expression starts with |
| PegExpression.Meaning | src/pegium/core/parser/ParseExpression.hpp:37-38 | success never moves the cursor back, keeps the tree built before, and strictly advances on a non-nullable expression |
| PegExpression.GroupFrom | src/pegium/core/parser/Group.hpp:59-62 | a group with a non-nullable part advances |
| PegExpression.ChoiceFrom | src/pegium/core/parser/OrderedChoice.hpp:100-113 | a choice without nullable alternatives advances |
| PegExpression.RepeatFrom | src/pegium/core/parser/Repetition.hpp:39-43 | a repetition with a positive minimum advances, and each item does |
| PegExpression.UnorderedFrom | src/pegium/core/parser/UnorderedGroup.hpp:24-31 | an unordered group advances |
| PegDepth.MeaningIsOne | src/pegium/core/parser/ParserRule.hpp:150-186 | the meaning does not depend on the call depth it is given, once that suffices |
| PegDepth.DeeperMeaning | src/pegium/core/parser/ParserRule.hpp:150-186 | one more level of calls changes no settled outcome |
| PegProbe.ProbesAdmitWhatParses | src/pegium/core/parser/ParseAttempt.hpp:164-171 | with one skipper throughout and nothing to skip at the cursor, neither probe turns away a non-nullable expression that parses |
| PegProbe.FastProbeAdmits | src/pegium/core/parser/ParseAttempt.hpp:164-171 | the same for any expression that parses and advances, nullable or not |
| PegProbe.LookaheadErrsOnOneSide | src/pegium/core/parser/NotPredicate.hpp:60-84 | so a predicate errs on one side only: what would parse is never denied by an and-predicate, nor let through by a not-predicate |
| PegProbe.WrappedSkipperMatters | src/pegium/core/parser/SkipperWrapped.hpp:20-43 | without one skipper it fails: two parts in any order, once, under a skipper that alone skips what lies between them, parse and are turned away |
| PegProbe.TriviaMatters | src/pegium/core/parser/Group.hpp:429-444 | with trivia at the cursor it fails: a group led by an optional part that is not there parses and is turned away |
| PegProbe.NullableMatters | src/pegium/core/parser/Repetition.hpp:416-425 | a nullable expression that parses without advancing may be turned away |
| PegProbe.CursorDecides | src/pegium/core/parser/ParseExpression.hpp:37-38 | whether an expression matches, and up to where, depends on the cursor alone, not on the tree built so far |
| PegCompleteness.MeantIffDerived | src/pegium/core/parser/ParseExpression.hpp:37-38 | an independent semantics: an expression matches to a state, or fails, if and only if a derivation says so; the rules are first match in a choice, all parts of a group in order, greedy repetition up to the maximum, each unordered part once, the skip between items, predicates by their probes, and the node or label each construct adds |
| PegCompleteness.ProbedIffDerived | src/pegium/core/parser/ParseMode.hpp:60-89 | the same for lookahead, with its own rules of what a probe looks at |
| PegCompleteness.DerivationsAgree | src/pegium/core/parser/ParseExpression.hpp:37-38 | two derivations for one expression at one place agree on the end, the visible end and the nodes |
| PegCompleteness.AnswerIsDerived | src/pegium/core/parser/ParseMode.hpp:101-106 | whatever a parse or an attempt answers is what can be derived, with the tree the derivation builds |
| PegCompleteness.FirstMatchWins | src/pegium/core/parser/OrderedChoice.hpp:455-459 | a choice means what its first alternative means that does not fail |
| PegSoundness.DerivedIsMeant | src/pegium/core/parser/ParseExpression.hpp:37-38 | what a derivation concludes is the meaning at every call depth of at least the derivation's height |
| PegSoundness.RepeatIsMeant | src/pegium/core/parser/Repetition.hpp:85-180 | items parsed one behind the other until one fails or the maximum is reached are what the repetition means |
| PegSoundness.UnorderedIsMeant | src/pegium/core/parser/UnorderedGroup.hpp:80-112 | rounds of first match among the parts not used so far are what the unordered group means |
| PegCompleteness.MeantIsDerived | src/pegium/core/parser/ParseExpression.hpp:37-38 | every settled meaning has a derivation |
| FuzzyScript.CellIsOptimal | src/pegium/core/parser/LiteralFuzzyMatcher.cpp:459-552 | each cell of both lanes holds the least (weight, operations), lexicographically, over all alignment scripts from the literal prefix to the input prefix; the second lane without substitutions; and some script reaches it |
| FuzzyScript.CellIsLowerBound | src/pegium/core/parser/LiteralFuzzyMatcher.cpp:459-552 | no script is cheaper than the cell |
| FuzzyScript.TraceAchievesCell | src/pegium/core/parser/LiteralFuzzyMatcher.cpp:143-205 | following the parents from a cell gives a script that turns one prefix into the other at the cell's cost |
| FuzzyScript.InnerCellIsLeast | src/pegium/core/parser/LiteralFuzzyMatcher.cpp:64-85 | the order of the considered transitions keeps the least one |
| FuzzyScript.CountsExplainCost | src/pegium/core/parser/LiteralFuzzyMatcher.cpp:143-205 | insertions, deletions, substitutions and transpositions re-add to the operation count and, at 1, 4, 2 and 2, to the weight |
| FuzzyScript.CountsTileTexts | src/pegium/core/parser/LiteralFuzzyMatcher.cpp:143-205 | the counts and the kept codepoints tile exactly the literal prefix and the consumed prefix |
| FuzzyScript.CasedAgrees | src/pegium/core/parser/LiteralFuzzyMatcher.cpp:306-324 | two codepoints are the same to the matcher exactly when they are equal after folding `A` to `Z`, in case-insensitive mode only |
| FuzzyMatrix.FillMatrix | src/pegium/core/parser/LiteralFuzzyMatcher.cpp:459-552 | the three-row ring and the compact parent grid end up holding the last row and all parents of the full matrix |
| FuzzyMatrix.FillRow | src/pegium/core/parser/LiteralFuzzyMatcher.cpp:479-552 | one row of the ring is filled from the two rows before it, without losing the previous one |
| FuzzyMatrix.ComputeState | src/pegium/core/parser/LiteralFuzzyMatcher.cpp:482-550 | a ring cell is the full matrix's cell, in both lanes |
| FuzzyMatrix.WalkBack | src/pegium/core/parser/LiteralFuzzyMatcher.cpp:143-200 | the backtrace ends at the origin, and its counters are those of the cell's script |
| FuzzyText.DecodeText | src/pegium/core/parser/LiteralFuzzyMatcher.cpp:106-127 | the codepoints and the byte offset of every codepoint, with invalid or truncated leads taken as one byte |
| FuzzyText.PrefixDecodesAlone | src/pegium/core/parser/LiteralFuzzyMatcher.cpp:106-127 | the byte offset of k codepoints is where the first k codepoints end, decoded alone |
| FuzzyText.OffsetsStepForward | src/pegium/core/parser/LiteralFuzzyMatcher.cpp:106-127 | offsets grow by one to four bytes and end at the text's length |
| FuzzyText.AsciiDecodesToItself | src/pegium/core/parser/LiteralFuzzyMatcher.cpp:106-127 | on ASCII text codepoints are bytes and offsets are indices |
| FuzzyText.DecodesWhatWasEncoded | src/pegium/core/parser/LiteralFuzzyMatcher.cpp:106-127 | decoding the UTF-8 of any codepoints gives them back |
| FuzzyCandidates.CandidateExplained | src/pegium/core/parser/LiteralFuzzyMatcher.cpp:143-205 | with or without the trailing penalty a candidate's counts add up to its distance and, at 1, 4, 2 and 2, to its weight, leave equally many kept codepoints on both sides, and stand at the byte offset of what it consumed |
| FuzzyCandidates.RankIsLeastShare | src/pegium/core/parser/LiteralFuzzyMatcher.cpp:129-141 | the rank is the least number that is at least five times the weight per codepoint of the literal |
| FuzzyCandidates.Reconstruct | src/pegium/core/parser/LiteralFuzzyMatcher.cpp:143-205 | the rebuilt candidate is that of its cell, at the byte offset of the consumed codepoints |
| FuzzyCandidates.CollectLane | src/pegium/core/parser/LiteralFuzzyMatcher.cpp:555-578 | a lane offers at most one candidate per prefix, none twice |
| FuzzyCandidates.Collect | src/pegium/core/parser/LiteralFuzzyMatcher.cpp:555-581 | exactly the candidates both lanes offer over all prefixes, each once |
| FuzzyFrontier.DominanceIsStrictOrder | src/pegium/core/parser/LiteralFuzzyMatcher.cpp:229-246 | dominance is irreflexive, asymmetric and transitive |
| FuzzyFrontier.DominanceIsPareto | src/pegium/core/parser/LiteralFuzzyMatcher.cpp:229-246 | one candidate dominates another exactly when it is no worse in rank, weight, distance, substitutions and consumed text, and not the same in all of them |
| FuzzyFrontier.FrontierIsExact | src/pegium/core/parser/LiteralFuzzyMatcher.cpp:258-289 | no kept candidate dominates another, and a kept one dominates every dropped one |
| FuzzyFrontier.DroppedIsDominatedByKept | src/pegium/core/parser/LiteralFuzzyMatcher.cpp:258-289 | a dropped candidate is dominated by a kept one, not merely by another dropped one |
| FuzzyFrontier.PruneDominated | src/pegium/core/parser/LiteralFuzzyMatcher.cpp:258-289 | the frontier holds exactly the undominated candidates, each once, sorted by rank cost |
| FuzzyFrontier.SortByRank | src/pegium/core/parser/LiteralFuzzyMatcher.cpp:283-287 | sorted by rank and a permutation |
| FuzzyFrontier.ComputePruned | src/pegium/core/parser/LiteralFuzzyMatcher.cpp:441-585 | from bytes to the Pareto frontier of all offered candidates |
| FuzzyDetector.SingleEditMatch | src/pegium/core/parser/LiteralFuzzyMatcher.cpp:669-729 | true exactly when some prefix of the window is one deletion, insertion, substitution or adjacent transposition away from the literal, said of the texts themselves with `==` after folding letters in case-insensitive mode |
| FuzzyDetector.TryAlignment | src/pegium/core/parser/LiteralFuzzyMatcher.cpp:690-729 | the greedy prefix-then-suffix walk decides one edit for a given prefix length |
| FuzzyDetector.VerdictIsSound | src/pegium/core/parser/LiteralFuzzyMatcher.cpp:690-729 | what the walk accepts is one edit apart |
| FuzzyDetector.VerdictIsComplete | src/pegium/core/parser/LiteralFuzzyMatcher.cpp:690-729 | the greedy walk loses no edit, wherever it is |
| FuzzyDetector.DetectorAgreesWithMatrix | src/pegium/core/parser/LiteralFuzzyMatcher.cpp:669-729 | the detector's condition is that the matrix cell has operation count one |
| FuzzyDetector.OneEditIsPlain | src/pegium/core/parser/LiteralFuzzyMatcher.cpp:669-729 | being one edit apart is turning one text into the other by replacing, dropping, inserting or swapping in place, and being equal is being equal, after folding in case-insensitive mode only |
| FuzzyAgreement.DetectorAgreesWithLookupIff | src/pegium/core/parser/LiteralFuzzyMatcher.hpp:130-140 | on single-byte text, empty texts included, the detector and the lookup agree on whether there is a candidate of distance one if and only if the input is not empty under a lone codepoint, the texts differ, and, when both are words, no proper prefix of the input is one edit away unless the whole input is |
| FuzzyAgreement.DetectorOverpromisesOnWords | src/pegium/core/parser/LiteralFuzzyMatcher.hpp:130-140 | the promise of agreement fails on words: for `abcd` and `abxdz` the detector accepts and the lookup has no candidate of distance one |
| FuzzyAgreement.AnsweredAtDistanceOne | src/pegium/core/parser/LiteralFuzzyMatcher.cpp:639-668 | what a lookup answers at distance one: exactly when the texts differ and some non-empty prefix, the whole input if both are words, is one edit away; through the equality test, the anchor test, the matrix, both lanes and the pruning |
| FuzzyAgreement.AnsweredPlainly | src/pegium/core/parser/LiteralFuzzyMatcher.cpp:639-668 | the same of ASCII texts in plain terms: equal texts, equal up to `A` to `Z` in case-insensitive mode, are answered with nothing; a candidate of distance one is answered exactly when they differ and a charged prefix is one edit away under `==` |
| FuzzyAgreement.UnlikeWordsGetNothing | src/pegium/core/parser/LiteralFuzzyMatcher.cpp:349-396 | two ASCII words of at least two bytes with no equal letters at most one place apart among their first three are answered with nothing |
| FuzzyAgreement.AsciiWordIff | src/pegium/core/parser/ContextShared.hpp:26-46 | an ASCII text is a word exactly when it has no zero byte and every byte can be part of one |
| FuzzyAgreement.DistanceOneIsOffered | src/pegium/core/parser/LiteralFuzzyMatcher.cpp:441-581 | a candidate of distance one is offered exactly when some prefix charged nothing else is one edit away, and its length is within one of the literal's |
| FuzzyAgreement.PruningKeepsDistanceOne | src/pegium/core/parser/LiteralFuzzyMatcher.cpp:258-289 | pruning keeps a candidate of distance one if there was any |
| FuzzyAgreement.AnchorAdmitsOneEdit | src/pegium/core/parser/LiteralFuzzyMatcher.cpp:349-396 | the anchor test turns no single edit away |
| FuzzyAgreement.EqualTextIsDetected | src/pegium/core/parser/LiteralFuzzyMatcher.cpp:669-729 | the detector accepts exact matches, too: leaving out the last codepoint is one edit |
| FuzzyMatcher.ComputeAfresh | src/pegium/core/parser/LiteralFuzzyMatcher.cpp:655-667 | what a miss computes: nothing for texts that are equal, up to the case of `A` to `Z` in case-insensitive mode, or that have no local anchor, otherwise the frontier of all offered candidates, words deciding the trailing penalty |
| FuzzyMatcher.FindAnchor | src/pegium/core/parser/LiteralFuzzyMatcher.cpp:349-396 | true exactly for texts that are not words or too short, for an input whose first bytes leave the word, and for a byte among the first three of one near an equal one among the first three of the other |
| FuzzyMatcher.WindowLeavesWord | src/pegium/core/parser/LiteralFuzzyMatcher.cpp:326-347 | some codepoint of the window cannot be part of a word and everything before it is whole |
| FuzzyMatcher.WordLike | src/pegium/core/parser/ContextShared.hpp:26-46 | a non-empty text of whole codepoints that can all be part of a word |
| FuzzyMatcher.CompareText | src/pegium/core/parser/LiteralFuzzyMatcher.cpp:398-410 | equal exactly when the bytes are, after folding `A` to `Z` in case-insensitive mode |
| FuzzyCache.LiteralFuzzyCandidatesCache.Find | src/pegium/core/parser/LiteralFuzzyMatcher.cpp:639-668 | a lookup, hit or miss, answers what comparing, anchoring, filling the matrix and pruning afresh would, for the texts the key points at |
| FuzzyCache.LiteralFuzzyCandidatesCache.StoreIntoSlot | src/pegium/core/parser/LiteralFuzzyMatcher.cpp:601-635 | a store replaces the slot's buffer, freeing the old one, and keeps every live slot listed once |
| FuzzyCache.LiteralFuzzyCandidatesCache.Destroy | src/pegium/core/parser/LiteralFuzzyMatcher.cpp:428-439 | every owned buffer is freed, none twice |
| FuzzyCache.LiteralFuzzyCandidatesCache.constructor | src/pegium/core/parser/LiteralFuzzyMatcher.cpp:414-426 | only the generations are initialised, all to zero, and no slot is live or owns a buffer |
| FuzzyCache.StoreKeepsListed | src/pegium/core/parser/LiteralFuzzyMatcher.hpp:93-117 | a live slot is listed exactly once |
| FuzzyCache.StoreKeepsOwned | src/pegium/core/parser/LiteralFuzzyMatcher.hpp:93-117 | every buffer has one owner and every live slot its buffer |
| FuzzyCache.StoreKeepsTransparent | src/pegium/core/parser/LiteralFuzzyMatcher.cpp:601-635 | overwriting a slot keeps the others' contents equal to what their keys compute |
| RecoveryTheorems.WindowOpensOnce | src/pegium/core/parser/ParseContext.hpp:1260-1293 | in every run the window opens at most once and completes at most once, and stability implies the target was reached |
| RecoveryTheorems.WindowClosesLate | src/pegium/core/parser/ParseContext.hpp:1200-1230 | away from the end of the text a window in which an edit was made completes only after at least as many counted leaves as that last edit asks for: the stability count after an insertion, the forward count after a delete or a replacement |
| RecoveryProgress.WindowOpensWhenReached | src/pegium/core/parser/ParseContext.cpp:8-45 | an accepted skip, leaf, gap, replacement, delete or bridge that ends at or past the window's begin and the resume floor, with no committed edit pending and the window not completed, leaves the window open, with its base at what was charged by then if it was not open before |
| RecoveryProgress.WindowClosesWhenDue | src/pegium/core/parser/ParseContext.cpp:8-45 | a refresh of an open window completes it if and only if the leaves counted have reached both of its token counts |
| RecoveryProgress.CompletedWindowTurnsStable | src/pegium/core/parser/ParseContext.hpp:1276-1318 | a window that completes away from the end is followed by stability after as many further visible leaves as that asks for, at least one, in any run that does not go back |
| RecoveryProgress.EndIsStable | src/pegium/core/parser/ParseContext.hpp:709-724 | finalizing at the end of the text completes an open window and makes the attempt stable |
| RecoveryProgress.InsertionGoesThrough | src/pegium/core/parser/ParseContext.cpp:47-85 | in an open window an insertion at or past the floor that is switched on and paid for is accepted and recorded where the cursor is |
| RecoveryProgress.GapGoesThrough | src/pegium/core/parser/ParseContext.cpp:87-130 | so is a gap at a position ahead |
| RecoveryProgress.ReplacementGoesThrough | src/pegium/core/parser/ParseContext.hpp:962-1050 | so is a replacement that begins no further than where the parse had failed |
| RecoveryProgress.DeleteGoesThrough | src/pegium/core/parser/ParseContext.cpp:132-204 | so is a delete there, while the run of deletes is short enough |
| RecoveryProgress.CommittedInsertionGoesThrough | src/pegium/core/parser/ParseContext.cpp:47-85 | a pending committed insertion is accepted again where it was made, and the replay moves on |
| RecoveryProgress.CommittedReplacementGoesThrough | src/pegium/core/parser/ParseContext.hpp:962-1050 | so is a pending committed replacement |
| RecoveryProgress.CommittedDeleteGoesThrough | src/pegium/core/parser/ParseContext.cpp:132-204 | so is a delete inside a pending committed one, whatever the window would allow |
| RecoveryConfinement.FreshEditsStayPastTheFloor | src/pegium/core/parser/ParseContext.hpp:831-845 | in every run, rewinds included, each entry of the script replays a committed edit or begins at or past the window's edit floor |
| RecoveryConfinement.FreshEditsNeedLeave | src/pegium/core/parser/ParseContext.hpp:831-890 | an edit that replays nothing is tracked, of a kind that is switched on, at or past the floor, and for a delete not of a zero byte nor beyond the longest run of deletes |
| RecoveryConfinement.NoFreshEditsAfterCompletion | src/pegium/core/parser/ParseContext.hpp:823-845 | once the window is completed, such an edit follows an earlier one and either the caller has opened the door or it is an insertion right at the last edit |
| RecoveryConfinement.LaterEditsStayInReach | src/pegium/core/parser/ParseContext.hpp:855-869 | after the first edit of an open window a delete beyond where the parse had failed only goes on with a run of deletes, and a replacement there only puts right a word that is one slip away |
| RecoveryConfinement.EditsAreCharged | src/pegium/core/parser/ContextShared.hpp:223-245 | every accepted edit costs 1, 4 or its price and counts as one, except a delete that goes on with a run; nothing else is charged |
| RecoveryTheorems.BudgetStaysWithinTwice | src/pegium/core/parser/ParseContext.hpp:1059-1073 | without the overflow flag and lifted limits every reachable state has cost and count within twice the limits, and within them since an open window's base; 32-bit wrap-around included |
| RecoveryTheorems.CommittedEditsComeFirst | src/pegium/core/parser/ParseContext.cpp:47-245 | while committed edits are pending no window is open and every entry stands for a committed edit; they are replayed in order, each insertion and replacement exactly once |
| RecoveryTheorems.RewindUndoesTheRun | src/pegium/core/parser/ParseContext.hpp:634-669 | any live mark can be returned to, with all state back; the script itself comes back if and only if no delete was joined across trivia to an entry older than the mark |
| RecoveryTheorems.UnjoinableMarkIsExact | src/pegium/core/parser/ParseContext.cpp:132-245 | a condition to be seen when the mark is taken: unless the last entry is a delete that ends at the cursor (or past it, after an inexact rewind) or where a pending bridge begins, every later rewind to the mark, in any run, restores the script too |
| RecoveryTheorems.RewindCanLeaveOverlap | src/pegium/core/parser/ParseContext.cpp:132-245 | that case exists: delete, mark, bridge, delete, rewind, delete leaves two overlapping entries |
| RecoveryTheorems.AttemptIsLaidOutIff | src/pegium/core/parser/ParseContext.cpp:132-204 | in every state of an attempt the entries are in text order, apart, and end at or before the cursor if and only if every rewind of it was exact, that is, undid every join made since its mark |
| RecoveryTheorems.LaidThroughoutIffExact | src/pegium/core/parser/ParseContext.cpp:132-204 | the same for every run from any state the invariant allows |
| RecoveryTheorems.RewindLaysOutIff | src/pegium/core/parser/ParseContext.hpp:648-669 | while all rewinds so far were exact, the next one leaves the script laid out if and only if no delete was joined to an entry older than its mark |
| RecoveryTheorems.ScriptIsLaidOut | src/pegium/core/parser/ParseContext.cpp:132-204 | in runs whose rewinds were all exact the entries are in text order, apart, and end at or before the cursor |
| RecoveryTheorems.FastRunIsSlowRun | src/pegium/core/parser/ParseContext.hpp:621-627 | a whole run that refreshes and hooks on every call goes through the same states as one with the bookkeeping switch |
| RecoveryFastPath.FastPathRefinesSlow | src/pegium/core/parser/ParseContext.hpp:621-627 | each step with the switch is the step without it |
| RecoveryFastPath.NothingLeftToDo | src/pegium/core/parser/ParseContext.cpp:8-45 | with bookkeeping off neither the slow refresh nor the leaf hook would change anything |
| RecoveryPhase.NextKeepsPhase | src/pegium/core/parser/ParseContext.cpp:8-45 | every step keeps the window protocol's invariant |
| RecoveryPhase.NextKeepsHistory | src/pegium/core/parser/ParseContext.hpp:1200-1318 | every step keeps the count of leaves since the last in-window edit in line with the window's forward counter and target |
| RecoveryPhase.NextKeepsBudget | src/pegium/core/parser/ParseContext.hpp:1059-1073 | every step keeps the budget invariant |
| RecoveryPhase.PayingKeepsBudget | src/pegium/core/parser/ContextShared.hpp:179-245 | an edit that was affordable keeps charges within the limits although the check and the charge both wrap at 32 bits |
| RecoveryPhase.NextShape | src/pegium/core/parser/ParseContext.hpp:1075-1093 | every step pays, notes the edit, counts its leaf and refreshes, in this order |
| RecoveryPhase.NotingRaisesTheBar | src/pegium/core/parser/ParseContext.hpp:1205-1230 | an edit in an open window never lowers the leaves still needed, and raises them to its own requirement |
| RecoveryPhase.RefreshClosesWhenDue | src/pegium/core/parser/ParseContext.cpp:8-45 | a refresh completes an open window only when its forward budget is met, and opens one only from scratch |
| RecoveryScript.NextKeepsFaith | src/pegium/core/parser/ParseContext.hpp:1108-1187 | every step keeps the script a faithful replay of the committed edits used up so far |
| RecoveryScript.CommittedEditsAreConsumedInOrder | src/pegium/core/parser/ParseContext.cpp:47-245 | with committed edits pending a step uses up at most the next one: an insertion or replacement by an entry of the same kind, place and equivalent element, a delete only by deleting or bridging from inside its span until the cursor is past it; no fresh edit is accepted |
| RecoveryScript.PendingEditsAreReplays | src/pegium/core/parser/ParseContext.hpp:1142-1170 | an accepted edit made with committed edits pending stands for the next of them |
| RecoveryScript.NextKeepsScriptLaid | src/pegium/core/parser/ParseContext.cpp:132-204 | every step keeps the entries in order, apart and behind the cursor |
| RecoveryScript.NextScripted | src/pegium/core/parser/ParseContext.cpp:47-245 | what each step writes, uses up and bridges, and that the cursor never goes back in a step |
| RecoveryRewind.RewindRestores | src/pegium/core/parser/ParseContext.hpp:648-669 | rewinding through the recorded lengths and values restores cursor, tree, phase, budget, replay position, bridge, window tokens and script length |
| RecoveryRewind.NextKeepsSince | src/pegium/core/parser/ParseContext.hpp:634-669 | a step that does not close the node open at a mark keeps the mark returnable, and changes older entries only by lengthening a delete that was joined |
| RecoveryRewind.NextKeepsEdits | src/pegium/core/parser/ParseContext.hpp:1232-1258 | an older entry is lengthened exactly when a delete is joined to it |
| RecoveryRewind.NextJoinsPast | src/pegium/core/parser/ParseContext.cpp:132-204 | a delete joined to an older entry takes that entry past the cursor it was made at, so past the mark |
| RecoveryRewind.NextKeepsUntouched | src/pegium/core/parser/ParseContext.cpp:132-245 | a step joins no delete to an entry older than a mark across which none could be joined when it was taken |
| RecoveryRewind.RelabellingKeepsOlder | src/pegium/core/parser/NodeParseHelpers.hpp:38-66 | relabelling a child added after a mark leaves everything the mark saw |
| RecoveryRewind.ClosingKeepsOlder | src/pegium/core/parser/ParseContext.hpp:82-94 | closing a node opened after a mark leaves everything the mark saw |
| RecoveryRun.RunKeepsInv | src/pegium/core/parser/ParseContext.hpp:326-1330 | the whole invariant over any sequence of steps, marks, dropped marks and rewinds |
| RecoveryRun.RewindKeepsInv | src/pegium/core/parser/ParseContext.hpp:648-669 | a rewind keeps it for the restored state and for all older marks |
| RecoveryParseContext.RecoveryContext.InsertSynthetic | src/pegium/core/parser/ParseContext.cpp:47-85 | accepts exactly under the stated permissions and moves the state as specified; refusals change at most the bridge |
| RecoveryParseContext.RecoveryContext.InsertSyntheticGapAt | src/pegium/core/parser/ParseContext.cpp:87-130 | likewise for a gap at a position ahead |
| RecoveryParseContext.RecoveryContext.InsertGapAndMatch | src/pegium/core/parser/EditableRecoverySupport.hpp:142-154 | gap and following leaf as one step |
| RecoveryParseContext.RecoveryContext.ReplaceLeaf | src/pegium/core/parser/ParseContext.hpp:962-1050 | replacement with its word-keyword exception, then the leaf over the replaced text |
| RecoveryParseContext.RecoveryContext.DeleteOneCodepoint | src/pegium/core/parser/ParseContext.cpp:132-204 | deletes one codepoint, joined to the last delete across a pending bridge or on its own, skips trivia and advances the committed delete |
| RecoveryParseContext.RecoveryContext.ExtendLastDelete | src/pegium/core/parser/ParseContext.cpp:206-245 | bridges trivia after a delete, never past a committed delete or to the end of the text |
| RecoveryParseContext.RecoveryContext.RefreshRecoveryPhaseSlow | src/pegium/core/parser/ParseContext.cpp:8-45 | the phase loop settles where the specification says |
| RecoveryParseContext.RecoveryContext.AddLeaf | src/pegium/core/parser/ParseContext.hpp:1356-1389 | a leaf, its hook, a refresh and the end of a delete run |
| RecoveryParseContext.RecoveryContext.SkipTrivia | src/pegium/core/parser/ParseContext.hpp:1333-1354 | skipping drops the bridge and refreshes |
| RecoveryParseContext.RecoveryContext.FinalizeAtEnd | src/pegium/core/parser/ParseContext.hpp:709-724 | closes the window, or grants stability, only at the end of the text |
| RecoveryParseContext.RecoveryContext.OverrideGrammarElement | src/pegium/core/parser/ParseContext.hpp:98-102 | relabelling a child of the open node is the step of that name |
| RecoveryParseContext.RecoveryContext.Rewind | src/pegium/core/parser/ParseContext.hpp:648-669 | the fields a rewind copies, truncates and leaves alone |
| RecoveryDescent.DescentIsBounded | src/pegium/core/parser/ParserRule.hpp:178-249 | over any grammar, left-recursive ones included, a descent from a fresh context terminates, runs at most the cap's number of rule bodies, never exceeds depth 24, never has an element active twice at one position, and returns depth and stack to their entry values |
| RecoveryDescent.EntryRunsIff | src/pegium/core/parser/ParserRule.hpp:178-213 | an entry runs its body if and only if recovery is on for it, the element is not active at this position, and, for a rule, the budget has an entry left and the depth is below 24; it then runs it at this cursor, one deeper |
| RecoveryDescent.DescentAnswers | src/pegium/core/parser/ParserRule.hpp:214-249 | an entry that runs answers what its body does, or yes for a partial outermost rule, and gives depth and stack back |
| RecoveryDescent.DescentRefuses | src/pegium/core/parser/ParserRule.hpp:178-213 | one that does not is the strict parse while recovery is off, and otherwise a refusal that changes nothing |
| RecoveryDescent.Descent | src/pegium/core/parser/ParserRule.hpp:178-249 | entries are spent one per rule body and never refunded, whatever the body rewinds; the measure is the number of element and position pairs not yet active |
| RecoveryDescent.Body | src/pegium/core/parser/ParserRule.hpp:214-249 | the same for the rest of a body, which may descend, move back and stop as it likes |
| RecoveryDescent.EnteringUsesAPair | src/pegium/core/parser/ContextShared.hpp:247-298 | an admitted entry takes a pair no active element holds |
| RecoveryDescent.DescentContext.EnterElement | src/pegium/core/parser/ParserRule.hpp:178-249 | the method with its guards gives the specified outcome, and counts exactly the bodies it ran |
| RecoveryDescent.DescentContext.TryEnter | src/pegium/core/parser/ParserRule.hpp:189-213 | cap, active-set and depth guards in this order; a refusal changes nothing |
| RecoveryDescent.DescentContext.RunBody | src/pegium/core/parser/ParserRule.hpp:214-249 | running a body action by action gives the specified outcome |
| ChoiceCache.HitIsLastStored | src/pegium/core/parser/ChoiceAttempt.cpp:99-122 | a hit is the value last stored for an equal key since the last reset |
| ChoiceCache.ChoiceRecoverCache.TryGet | src/pegium/core/parser/ChoiceAttempt.cpp:99-113 | answers the slot's last store when its key is equal, and counts hit or miss |
| ChoiceCache.ChoiceRecoverCache.Store | src/pegium/core/parser/ChoiceAttempt.cpp:115-122 | stamps the slot with the current generation |
| ChoiceCache.ChoiceRecoverCache.Reset | src/pegium/core/parser/ChoiceAttempt.cpp:124-140 | forgets everything, also when the 32-bit generation wraps around |
| RecoveryWindow.FinalizeTokenIndex | src/pegium/core/parser/RecoveryAnalysis.cpp:162-184 | the first covering leaf, or else the last one ending at or before the cursor |
| RecoveryWindow.TokenIsLastBegun | src/pegium/core/parser/RecoveryAnalysis.cpp:162-184 | on ordered leaves that is the last leaf beginning at or before the failure cursor |
| RecoveryWindow.ComputeWindow | src/pegium/core/parser/RecoveryAnalysis.cpp:186-233 | begin, edit floor and maximum are ordered; the window goes back from the failure's leaf exactly as many leaves as asked for, or to the first; and its leaf index is the first leaf ending past its begin |
| DocParser.NoTokenIsLost | src/pegium/core/documentation/DocComment.cpp:407-427 | flattening the parsed comment of any lines gives back the whole token sequence in order, a break and an empty text line being the same |
| DocParser.CommentFlattens | src/pegium/core/documentation/DocComment.cpp:407-427 | the same for any well-shaped tokens that do not begin with a break |
| DocParser.ElementFlattens | src/pegium/core/documentation/DocComment.cpp:344-385 | an element consumes at least one token and stands for exactly what it consumed |
| DocParser.Parser.ParseText | src/pegium/core/documentation/DocComment.cpp:344-359 | a paragraph of inline nodes up to the next break or block tag, at least one token long |
| DocParser.Parser.ParseTag | src/pegium/core/documentation/DocComment.cpp:361-385 | an inline tag takes one following line, a block tag a following paragraph if it begins with text |
| DocParser.Parser.ParseElement | src/pegium/core/documentation/DocComment.cpp:393-405 | one element, or a break added to the last element as an empty line; always at least one token |
| DocParser.Parser.ParseComment | src/pegium/core/documentation/DocComment.cpp:407-422 | all elements of the comment |
| DocParser.ParseDocComment | src/pegium/core/documentation/DocComment.cpp:618-626 | from the comment's text to its elements, no token lost |
| DocStructure.CommentIsMade | src/pegium/core/documentation/DocComment.cpp:344-427 | the comment has one element for each block tag, each text or inline tag behind a break, and each inline tag behind a block tag; it takes the tokens up to the next, is a tag exactly if it begins with one, and holds lines and inline tags around one line only |
| DocStructure.ElementsAreMade | src/pegium/core/documentation/DocComment.cpp:407-427 | the same from any point of the parse on |
| DocStructure.BeginningIff | src/pegium/core/documentation/DocComment.cpp:388-405 | the listed beginnings are exactly the tokens an element begins at |
| DocSpelling.CommentIsWritten | src/pegium/core/documentation/DocComment.cpp:618-626 | what the parsed comment writes is, but for whitespace, all that its lines hold between their markers, in order |
| DocTokens.TokenizeIsShaped | src/pegium/core/documentation/DocComment.cpp:247-312 | tokens never begin with a break, tags carry their sign, an inline tag is followed by its text |
| DocTokens.OneTrailingBreakIsDropped | src/pegium/core/documentation/DocComment.cpp:308-311 | the tokens end with a break exactly when the last two lines are blank after something: only one trailing break is dropped |
| DocTokens.TagsAreDisjoint | src/pegium/core/documentation/DocComment.cpp:151-198 | inline matches are in order and disjoint, each a match of the text |
| DocTokens.TagsAreLeftmost | src/pegium/core/documentation/DocComment.cpp:151-198 | no inline tag begins outside of the matches |
| DocTokens.TagIsSpelled | src/pegium/core/documentation/DocComment.cpp:161-196 | a match is a brace, `@` and a name beginning with a letter, whitespace, content without closing brace or line end, and a brace |
| DocTokens.TokensSpellTheFragment | src/pegium/core/documentation/DocComment.cpp:200-245 | what the tokens themselves spell is the fragment, but for the whitespace between an inline tag's name and its content, which they drop |
| DocTokens.GetLines | src/pegium/core/documentation/DocComment.cpp:39-56 | the loop gives the pieces between line feeds, each without one carriage return at its end |
| DocTokens.PiecesJoin | src/pegium/core/documentation/DocComment.cpp:39-56 | the pieces joined by line feeds are the text, and none holds a line feed |
| DocTokens.LinesArePieces | src/pegium/core/documentation/DocComment.cpp:39-56 | there is a line for every piece, and it is that piece but for its carriage return |
| DocTokens.MatchesSpellTheText | src/pegium/core/documentation/DocComment.cpp:200-245 | matches and the text between them spell the fragment: no character is lost |
| DocTokens.FindInlineTags | src/pegium/core/documentation/DocComment.cpp:151-198 | the scan finds the leftmost matches |
| DocTokens.BuildInlineTokens | src/pegium/core/documentation/DocComment.cpp:200-245 | text, tag name and tag content tokens of a fragment |
| DocTokens.MatchBlockTag | src/pegium/core/documentation/DocComment.cpp:123-138 | where a block tag's sign is and where its name ends |
| DocTokens.MatchPrefixMarker | src/pegium/core/documentation/DocComment.cpp:79-86 | past a marker that follows leading whitespace |
| DocTokens.MatchSuffixMarker | src/pegium/core/documentation/DocComment.cpp:90-104 | before a marker and the whitespace around it |
| DocTokens.Tokenize | src/pegium/core/documentation/DocComment.cpp:247-312 | markers cut, blank lines as breaks, and one trailing break dropped |
| DocSpelling.TokensWriteTheLines | src/pegium/core/documentation/DocComment.cpp:247-312 | what the tokens write is what the lines hold between their markers, but for whitespace: no character is lost, behind a block tag either |
| DocSpelling.LineSplits | src/pegium/core/documentation/DocComment.cpp:286-301 | a cut line is whitespace, a block tag and a gap, if there is a tag, and text; its tokens are the tag and the inline tokens of the text |
| DocSpelling.LineWrites | src/pegium/core/documentation/DocComment.cpp:286-301 | what a line's tokens write is the line from its content on, but for whitespace |
| DocSpelling.TokensByLine | src/pegium/core/documentation/DocComment.cpp:255-307 | the tokens are those of the lines in order, each blank line after the first content being a break, each blank line before it nothing |
| DocSpelling.TagIsFound | src/pegium/core/documentation/DocComment.cpp:151-198 | a brace, `@` and name, whitespace, content and a brace in a text are found as an inline tag, with these parts |
| DocSpelling.PrefixIsCut | src/pegium/core/documentation/DocComment.cpp:79-86 | leading whitespace and marker are cut off |
| DocSpelling.OtherLinesAreKept | src/pegium/core/documentation/DocComment.cpp:79-86 | a line without the marker behind its leading whitespace is not cut |
| DocSpelling.SuffixIsCut | src/pegium/core/documentation/DocComment.cpp:90-104 | an end marker is cut off with the whitespace around it |
| DocSpelling.OtherEndsAreKept | src/pegium/core/documentation/DocComment.cpp:90-104 | a line without an end marker before its trailing whitespace is not cut |
| ParallelFor.JoinTellsTheTruth | src/pegium/core/execution/TaskScheduler.cpp:35-78 | under any interleaving the caller sees an exception exactly when some body threw, namely that of the task that won the exchange; with no throw and no cancellation every index ran |
| ParallelFor.BodiesRunAtMostOnce | src/pegium/core/execution/TaskScheduler.cpp:46-65 | each body runs at most once and the slot is written at most once |
| ParallelFor.StepKeepsInvariant | src/pegium/core/execution/TaskScheduler.cpp:46-65 | every atomic step keeps the protocol's invariant, stale reads of the flag included |
| ParallelFor.RunKeepsInvariant | src/pegium/core/execution/TaskScheduler.cpp:35-78 | so does every run |

## Left out

- Recovery candidate enumeration of groups, literals, repetitions and infix rules, delete scans and the attempt driver: which calls they make is left open, so the recovery theorems hold for any choice.
- The infix rule as an alternative of the expression language: it is proved on its own, not inside `PegExpression.Expr`.
- PegParser.TryProbe: the not-predicate's fuzzy near-match probe of tracked contexts is not modelled. Lookahead over a group only looks at a leading element by design, and `PegProbe` says what that still guarantees.
- Cancellation and exceptions out of a parse; they unwind and do not return.
- The furthest cursor and the failure history as outputs of a parse. A rewind keeps the furthest cursor, and the model does too, but nothing is proved of the failure recorder.
- FuzzyScript.CellIsOptimal: stated for texts whose matrix costs fit 32 bits (six times the literal plus twenty times the input below 2^32 codepoints); beyond that the source's counters wrap.
- RecoveryPhase.NextKeepsHistory: the leaf counters are unbounded; in the source they are 32-bit, and a text has fewer leaves than that.
- RecoveryTheorems.WindowClosesLate: at the very top of the 32-bit range the requirement saturates, as in the source, and the bound is then the saturated one.
- RecoveryTheorems.BudgetStaysWithinTwice: says nothing of branches with an edit accepted while an extended delete scan has lifted the limits, or after the overflow flag; they are meant to exceed them.
- The effect of the one-entry cache of builder-free skips, follow probes, and pooled caches: none changes an outcome.
- The weak-match fallback that resets the entry counter for one more descent: the descent bound is per descent from a given counter.
- RecoveryDescent.Descent: a body is any function of what happened in it so far that takes finitely many actions of its own; strict sub-parses are total.
- FuzzyCache.LiteralFuzzyCandidatesCache.Find: asks for texts whose matrix costs fit 32 bits, and leaves open how a key is hashed to a slot; any function of the key will do.
- LiteralFuzzyCandidatesCache raw storage: memory of unused slots is modelled as arbitrary values, and addresses as numbers.
- FuzzyFrontier.SortByRank: the order of candidates of equal rank cost is unspecified, as in the source's unstable sort.
- Work distribution of the parallel loop: any interleaving of per-index tasks is allowed, so the partitioner does not matter.
- DocParser.ParseDocComment: source ranges and rendering are left out; they would add easy members only.
- Assignment conversions, AST reflection, `Wrapper` dispatch and introspection: one datatype of expressions stands for all of them.
