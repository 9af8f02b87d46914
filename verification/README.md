# From a Slurm submission to an indexed Job: a verified model

kjob turns a Slurm submission, flags and a batch script, into an indexed Kubernetes Job, and
can stream the logs of the Job's pods. This project models that translation in Dafny and
proves what it keeps, what it loses, and exactly when each of its arithmetic steps is right.

## Modules

| module | models |
|---|---|
| `Tokenizer` | the splitter that respects quotes, and the one-pass automaton it refines |
| `Quotes` | what quotes mean, stated by matching them up and not by an automaton |
| `EnvVars` | what may stand before `srun` on a line |
| `ScriptRewriter`, `ScriptSafety` | continuations, the `srun` branch, unsupported commands; what accepted scripts look like afterwards |
| `ScriptRules` | the rules for commands, logical lines, acceptance and errors, written out |
| `Ranges` | the indexes of a range, and what the int32 loop that lists them computes and when it ends |
| `ArrayIndexes`, `ArrayLaws` | the `--array` flag: both grammars, the set that is sorted, the printer, the number of indexes |
| `TimeLimit`, `TimeValue` | the `--time` flag: the counting validator, the truncating scan, the int32 sum |
| `Float64`, `NodeTasks` | binary64 division as a divisibility test; completing nodes, tasks and tasks per node |
| `Resources` | requests, limits, totals and names of the job's containers, stated on values |
| `ResourceRules` | the containers of a job, entry by entry, and their totals by number of containers |
| `SlurmBuilder` | the builder object whose fields `parse`, `complete` and `build` update |
| `Filename`, `NodeList` | file name masks; host names of the pods |
| `LogStreams` | goroutines racing for a pod's log stream |
| `StreamSession` | the select loop around them: workers, timer, signals, deferred calls |
| `Deviations` | concrete inputs for the unexpected behaviours listed below; those of time limits, shapes and timeouts stand in their own modules |
| `Wrappers`, `Arithmetic`, `Text`, `Decimal` | Option and Result, int32 wrap-around, division, strings, decimal numerals |

`dafny verify dfyconfig.toml` checks the whole project.

## How the source is modelled

- Loops over local variables are methods with invariants; each is proved equal to a function
  of its input, and the laws are lemmas about that function. The builder is a class whose
  methods change the fields the source changes.
- Text is a sequence of the characters of valid UTF-8. All searches in the source are for
  ASCII characters, so positions differ but cuts do not.
- An int32 is an `int`; `Wrap32` is applied wherever the source can wrap around.
- The flag library that parses the arguments of `srun` is a function parameter
  (`FlagParser`). Only the lemmas about output lines assume something of it: that it invents
  no line break (`KeepsLines`).
- The order in which a set or a map is read is left open: loops over them choose any element.
- Quantities are whole thousandths; `WholeUnits` rounds up to units.
- A floating-point number is the multiple of 2^-1074 that it is, so its comparisons are exact.
- Goroutines are step systems: one step is one atomic action, and every lemma about runs is
  for every schedule.

Preconditions that the source leaves to its callers:

- The range loop ends (`RangeEnds`). `Ranges.LoopEndsWhen` says exactly when it does, and
  `Ranges.RangeLoopExact` exactly when what it lists is the range.
- Nodes, tasks and tasks per node are between 1 and MaxInt32 (`Positive`); the source checks
  this for flags on the command line only (pkg/cmd/create/create.go:656-678).
- A job template has at least one container.

## What the code does that its users may not expect

Each of these is proved, with the exact condition where there is one and at a concrete input.

- An unsupported command is found only if its first occurrence on the line is a word. The
  output of an accepted script is free of such commands as words exactly when no line without
  `srun` hides one behind a longer word that contains it, and no line with `srun` holds one in
  its prefix or in the arguments left over; `xsbatch sbatch` hides one
  (`ScriptSafety.WordsAreRefused`, `Deviations.ShadowedCommandAccepted`).
- `srun` is looked for in the same way, so a line that hides it is neither rewritten nor
  counted as a step (`ScriptSafety.SingleStepWord`, `Deviations.HiddenStepAccepted`).
- Of several `srun` on one line only the first goes; with several tasks they pass as one step
  (`ScriptSafety.LaterSteps`, `Deviations.SecondStepStays`).
- A continuation that is open at the end of a script is dropped with all its text; that
  happens exactly when the last lines are one that ends in ` \` and lone backslashes after it
  (`ScriptSafety.OpenContinuation`, `ScriptSafety.OpenMeans`, `Deviations.OpenContinuationLost`).
  A script of blank lines gains one line break (`ScriptSafety.TidyUnchanged`,
  `Deviations.BlankScriptGrows`).
- A range whose last index plus its step exceeds MaxInt32 is listed wrongly: its loop never
  ends, or it goes on with a negative index. It ends exactly when some int32 beyond the range
  can be reached in steps of the largest power of two that divides the step, so never for a
  range up to MaxInt32 (`Ranges.RangeLoopExact`, `Ranges.LoopEndsWhen`,
  `Deviations.EndlessRange`, `Deviations.OverrunRange`).
- The completions of a list of all int32 from 0 on would be negative; every other flag has an
  int32 number of indexes (`ArrayLaws.CountIsInt32`, `SlurmBuilder.ArrayJobShape`,
  `Deviations.EverythingOverflows`).
- A printed comma list differs from the list the user wrote exactly when the first number has
  an extra leading zero (`ArrayLaws.PrintParsedList`, `Deviations.LeadingZeroLost`).
- A time limit is reported wrongly exactly when it exceeds MaxInt32 seconds; 24856 days come
  out negative (`TimeValue.ExactWithinBounds`, `TimeValue.DaysWrapAround`).
- 65536 nodes with 65537 tasks each are accepted as 65536 tasks; accepted values break the
  product law exactly when the product is no int32 (`NodeTasks.LawWithinInt32`,
  `NodeTasks.WrappedProductAccepted`).
- GPUs and memory per task are not added up for replicas: their totals are right exactly when
  there are no replicas or container 0 has none of the resource (`Resources.GpusConserved`,
  `Resources.TaskMemoryConserved`, `Deviations.GpuOfReplica`, `Deviations.TaskMemoryOfReplica`).
- If container 0 is not selected, its replicas are counted although they do not carry the
  flags' requests (`Resources.CpuConserved`, `Resources.MemoryConserved`,
  `Deviations.CpuOfUnselected`).
- The memory of a node is divided among the template's containers before the replicas are
  added, so the limits together can exceed it (`Resources.MemoryLimitsFit`,
  `Deviations.MemoryExceeded`).
- A template container called like a replica makes the container names clash
  (`Resources.NamesDistinct`, `Deviations.NameClash`).
- A double backslash turns off all masks of a file name and leaves of each run of backslashes
  only its parity (`Filename.UnmaskQuoted`, `Filename.PairsKeepParity`, `Deviations.MaskStays`).
- A canceled caller can be reported as an exceeded timeout (`StreamSession.TimeoutBeforeDeadline`).

## Model

| member | source | states |
|---|---|---|
| Tokenizer.IsEscaped | pkg/parser/slurm.go:379-386 | the backward scan answers whether the run of backslashes before the index is odd |
| Tokenizer.EscapeBit | pkg/parser/slurm.go:379-386 | for every text the parity of the trailing backslash run is the escape bit of a left-to-right automaton |
| Tokenizer.SplitBySpaceWithIgnoreInQuotes | pkg/parser/slurm.go:346-377 | the splitter with two quote bits and backward rescans returns the parts of the one-pass automaton; the two bits are never both set |
| Tokenizer.TokensLossless | pkg/parser/slurm.go:346-377 | gluing the parts with single spaces, plus one if the text ends in an unquoted space, gives the text back; no part holds an unquoted space and every part followed by a separator closes its quotes |
| Tokenizer.TokensUnique | pkg/parser/slurm.go:346-377 | any well-cut list of parts is what the splitter returns for its glued text, so the decomposition is the only one |
| Tokenizer.TokensIdempotent | pkg/parser/slurm.go:346-377 | splitting a non-empty part returns that part alone |
| Tokenizer.ScanAfterSeparator | pkg/parser/slurm.go:346-377 | past a separator the splitter starts afresh: the parts of both sides are concatenated |
| Tokenizer.SolidMeans | pkg/parser/slurm.go:368-373 | a part is solid when none of its positions holds a space outside quotes |
| Quotes.CutsOutsideQuotations | pkg/parser/slurm.go:354-373 | for every text and its quotations, each from an unescaped quote to the next unescaped one of its kind, the parts are cut apart at a position if and only if a space stands there, in no quotation |
| Quotes.CutsOfEveryText | pkg/parser/slurm.go:354-373 | every text has such quotations: one after the other, every unescaped quote belonging to one |
| Quotes.PlainTextCut | pkg/parser/slurm.go:357-371 | without an unescaped quote the text is cut at every space; an escaped quote opens nothing |
| Quotes.QuotedTextUncut | pkg/parser/slurm.go:357-371 | from a quote opened in no quotation to the next unescaped quote of its kind nothing is cut, whatever stands between; after it a space is a cut again |
| Quotes.QuotedParts | pkg/parser/slurm.go:346-377 | the parts of four texts, with double, single, nested and escaped quotes |
| EnvVars.ValidateEnvVars | pkg/parser/slurm.go:309-344 | accepts exactly the language `Accepted`: every part is empty, `export`, a separator or an assignment, and each `export` meets a separator before the next one and the end; a failure names the first problem |
| EnvVars.ProblemsDecide | pkg/parser/slurm.go:316-341 | a left-to-right scan finds no problem if and only if the part list is in the declaratively stated language |
| EnvVars.ExportOpenMeans | pkg/parser/slurm.go:320-329 | the `export` flag is set exactly when some earlier `export` has no separator after it |
| EnvVars.AcceptedConcat | pkg/parser/slurm.go:307-344 | accepted prefixes are closed under concatenation |
| EnvVars.AcceptedMeans | pkg/parser/slurm.go:316-341 | the accepted language with its separators written out: `&&`, or one unescaped semicolon at the end of a part |
| EnvVars.AssignmentMeans | pkg/parser/slurm.go:49-49 | a name, an equals sign and a value are an assignment exactly when the name is made of capital letters, digits and underscores and the value is quoted or free of quotes and white space |
| EnvVars.NoAssignment | pkg/parser/slurm.go:49-49 | without an equals sign there is no assignment |
| EnvVars.ErrorsMean | pkg/parser/slurm.go:322-341 | what each of the four errors says about the part it is reported for |
| ScriptRewriter.FindCommand | pkg/parser/slurm.go:287-305 | an index is returned if and only if the first occurrence in the trimmed input is a word, and it is that occurrence |
| ScriptRewriter.FindCommandUntrimmed | pkg/parser/slurm.go:238-256 | on a line without leading white space the index is valid in the untrimmed line |
| ScriptRules.FindCommandMeans | pkg/parser/slurm.go:287-305 | the first occurrence of a command in a trimmed text is found exactly when spaces or the ends of the text surround it |
| ScriptRules.NothingFound | pkg/parser/slurm.go:290-293 | nothing is found where the command does not occur |
| Text.TrimSpaceMeans | pkg/parser/slurm.go:221-221 | trimming cuts off the white space on both sides and nothing else |
| Text.AsciiSpaces | pkg/parser/slurm.go:221-221 | which ASCII characters are white space |
| ScriptRewriter.ExtendLine | pkg/parser/slurm.go:216-227 | the suffix test on the accumulated line sees only the newest piece, and cutting it leaves the join of the pieces without their backslashes |
| ScriptRewriter.LogicalLineStart | pkg/parser/slurm.go:216-232 | no completed logical line starts with white space |
| ScriptRewriter.FoldConcat | pkg/parser/slurm.go:214-232 | continuations are merged block by block: after a completed line the merging starts afresh |
| ScriptRewriter.FoldPrefix | pkg/parser/slurm.go:214-232 | completed logical lines are never changed by later physical lines |
| ScriptRules.ContinuedBlock | pkg/parser/slurm.go:214-227 | physical lines whose trimmed text ends in a space and a backslash make one logical line with the next line that does not, with single spaces between the texts |
| ScriptRewriter.RenderNext | pkg/parser/slurm.go:229-232 | how the output, a newline join with one extra break for blank scripts, grows by one logical line; this is the `needNewLine` protocol, its other half being lines 275-281 |
| ScriptRewriter.ReplaceStep | pkg/parser/slurm.go:238-267 | the `srun` branch: succeeds exactly without a flag error, with an argument left and an accepted prefix; the result is the prefix plus the remaining arguments |
| ScriptRewriter.RewriteLine | pkg/parser/slurm.go:238-273 | one logical line: the rewritten line, or the first problem of that line |
| ScriptRewriter.SlurmValidateAndReplaceScript | pkg/parser/slurm.go:202-285 | accepts exactly the scripts whose logical lines have no problem; the output is the newline join of the completed logical lines, blank ones kept and each `srun` line rewritten; an error is the first problem in the script |
| ScriptRewriter.ClearMeans | pkg/parser/slurm.go:215-282 | acceptance, defined line after line, means that no logical line has a problem |
| ScriptRules.AcceptedExactly | pkg/parser/slurm.go:202-273 | a script is accepted if and only if there is a task and for every non-blank logical line: if `srun` is found, its flags can be read, an argument is left and the text before it is nothing or an accepted prefix; none of the seven commands is found in what is written; with several tasks no `srun` line comes before |
| ScriptRules.FirstErrorFirst | pkg/parser/slurm.go:234-273 | an error is reported if and only if it is that of the first line that fails, in the order: steps, flags, argument, prefix, the seven commands in theirs |
| ScriptSafety.LogicalLineFacts | pkg/parser/slurm.go:212-232 | no logical line holds a line break or starts with white space |
| ScriptSafety.StepIsCutOut | pkg/parser/slurm.go:238-241 | on every line of every script on which `srun` is found, the index points at the word `srun` in the untrimmed line, and the arguments are the tokens after the next space; only white space at the end of the line can stand between the two |
| ScriptSafety.OutputLines | pkg/parser/slurm.go:202-285 | unless all logical lines are blank, splitting the output at line breaks gives the rewritten logical lines, one for one |
| ScriptSafety.NoUnsupportedCommand | pkg/parser/slurm.go:269-273 | on no line of the output of an accepted script does `findCommand` find one of the seven unsupported commands |
| ScriptSafety.WordsFound | pkg/parser/slurm.go:287-305 | a command stands on a line as a word if and only if `findCommand` finds it or an earlier occurrence inside a longer word hides it, never both |
| ScriptSafety.WordsAreRefused | pkg/parser/slurm.go:238-305 | the output of an accepted script holds no unsupported command as a word if and only if no line without `srun` hides one behind a longer word and no line with `srun` holds one in its prefix or its left-over arguments |
| Deviations.ShadowedCommandAccepted | pkg/parser/slurm.go:290-297 | the script `xsbatch sbatch` is accepted, returned unchanged, and holds the word `sbatch` |
| ScriptSafety.SingleStep | pkg/parser/slurm.go:234-236 | with several tasks every logical line after one on which `findCommand` finds `srun` is blank |
| ScriptSafety.SingleStepWord | pkg/parser/slurm.go:234-238 | with several tasks no accepted script goes on after a line with the word `srun`, if and only if none goes on after a line that hides the word |
| Deviations.HiddenStepAccepted | pkg/parser/slurm.go:234-238 | with two tasks a script of the lines `xsrun srun` and `z` is accepted |
| ScriptSafety.LaterSteps | pkg/parser/slurm.go:238-267 | after rewriting, `srun` occurs on a line exactly where it occurs in the left-over arguments: the first one is gone, no other is |
| Deviations.SecondStepStays | pkg/parser/slurm.go:234-267 | with two tasks and no flags, `srun a && srun a` is accepted and becomes `a && srun a` |
| ScriptSafety.LogicalLinesConcat | pkg/parser/slurm.go:212-232 | where no continuation is open, the logical lines of a script are those of its pieces |
| ScriptSafety.ScriptConcat | pkg/parser/slurm.go:202-285 | cut there, a script is accepted if and only if both pieces are and do not have too many steps together, and its output is the outputs of the pieces, with a line break between them if both have non-blank lines |
| ScriptSafety.OpenMeans | pkg/parser/slurm.go:224-227 | a continuation is open at the end if and only if the last trimmed lines are one that ends in a continuation and lone backslashes after it |
| ScriptSafety.OpenContinuation | pkg/parser/slurm.go:224-227 | one more line break adds just an empty logical line if and only if no continuation is open; otherwise it adds the text of the continuation, which the output lacks without it |
| Deviations.OpenContinuationLost | pkg/parser/slurm.go:224-227 | a script of one continued line is accepted and written as nothing |
| ScriptSafety.TidyUnchanged | pkg/parser/slurm.go:229-231 | a script of trimmed lines without continuation and `srun` is returned unchanged, except that a blank one gains a line break |
| Deviations.BlankScriptGrows | pkg/parser/slurm.go:229-231 | the empty script is accepted and written as one line break |
| ArrayIndexes.CommaFormatIsGrammar | pkg/parser/array_indexes.go:35-35 | the comma matcher accepts exactly the joins of a numeral and positive numerals |
| ArrayIndexes.MatchRangeExact | pkg/parser/array_indexes.go:36-36 | the range matcher returns submatches exactly when they are a reading of the whole text, so the reading is unique |
| ArrayIndexes.ListsMean | pkg/parser/array_indexes.go:35-35 | the list grammar character by character: runs of digits between commas, only the first may start with zero |
| ArrayIndexes.RangesMean | pkg/parser/array_indexes.go:36-36 | the range grammar character by character, with its optional colon or percent sign and number |
| ArrayIndexes.ParseArrayIndexes | pkg/parser/array_indexes.go:63-108 | the result is what the flag denotes, errors included, if and only if its range does not wrap around; otherwise it is the sorted list of what the loop listed, a negative index first |
| ArrayIndexes.ParseRangeIndexes | pkg/parser/array_indexes.go:110-145 | whenever the int32 loop ends, the result is its list, and the errors are the missing, unreadable or reversed bounds and the non-positive step |
| ArrayIndexes.ParseCommaSeparatedIndexes | pkg/parser/array_indexes.go:147-167 | accepts exactly the lists that fit int32 and strictly increase; the result is a permutation of the numbers |
| ArrayIndexes.InSetIsMax | pkg/parser/array_indexes.go:157-162 | past the check against the greatest index, being in the set is being equal to it |
| ArrayIndexes.UnsortedList | pkg/parser/array_indexes.go:166-166 | the elements of the set, each once, in an unknown order |
| ArrayIndexes.SortedUnique | pkg/parser/array_indexes.go:101-101 | a multiset has one sorted order |
| ArrayLaws.AnyOrderSorts | pkg/parser/array_indexes.go:101-101 | whatever order the set lists increasing numbers in, sorting gives them back |
| ArrayLaws.Min | pkg/parser/array_indexes.go:49-51 | an element no greater than any other |
| ArrayLaws.Max | pkg/parser/array_indexes.go:53-55 | an element no less than any other |
| ArrayLaws.MeaningIsIndexList | pkg/parser/array_indexes.go:63-108 | every accepted flag denotes a non-empty, strictly increasing list of int32 numbers from 0 on |
| ArrayLaws.WrittenRanges | pkg/parser/array_indexes.go:75-107 | from-to lists every number, from-to:n every nth and reports step n, from-to%n every number and reports parallelism n; nothing else is reported |
| ArrayLaws.WrongRanges | pkg/parser/array_indexes.go:78-136 | a range with exchanged bounds or a number beyond int32 has no meaning |
| ArrayLaws.ProgressionBounds | pkg/parser/array_indexes.go:45-55 | of a range, Count is (to-from)/step+1, Min is from, Max is from+((to-from)/step)*step |
| Ranges.RangeLoopExact | pkg/parser/array_indexes.go:140-142 | the loop ends with from, from+step, ... up to the last index no greater than to if and only if last index + step is at most MaxInt32; if it ends without that, its list goes on with a negative index |
| Ranges.LoopEndsWhen | pkg/parser/array_indexes.go:140-142 | the loop ends if and only if some number in (to, MaxInt32] is congruent to from modulo the greatest common divisor of step and 2^32 |
| Ranges.GreatestNeverEnds | pkg/parser/array_indexes.go:140-142 | a range up to MaxInt32 never ends, and below it an odd step always does |
| Deviations.EndlessRange | pkg/parser/array_indexes.go:140-142 | 0-2147483647:1 is in the grammar and its loop never ends |
| Deviations.OverrunRange | pkg/parser/array_indexes.go:140-142 | 2-2147483646:2147483647 denotes one index, and the loop lists 2, -2147483647 and 0 |
| ArrayLaws.CountIsInt32 | pkg/parser/array_indexes.go:45-47 | the number of indexes is an int32 for every flag but the list of all int32 from 0 on, so for every range |
| Deviations.EverythingOverflows | pkg/builder/slurm_builder.go:479-484 | that list is accepted, and its number truncated to int32 is negative |
| ArrayLaws.ParsePrinted | pkg/builder/slurm_builder.go:490-495 | printing any index list and parsing it gives the list back |
| ArrayLaws.RoundTrip | pkg/builder/slurm_builder.go:490-495 | for every text the parser accepts, printing the indexes and parsing again succeeds with the same indexes |
| ArrayLaws.PrintParsedList | pkg/builder/slurm_builder.go:490-495 | a comma list is printed as it was written if and only if its first number has no extra leading zero |
| Deviations.LeadingZeroLost | pkg/builder/slurm_builder.go:490-495 | the list 00,1 is accepted and printed differently |
| ArrayLaws.TaskIds | pkg/builder/templates/slurm_init_entrypoint_script.sh.tmpl:40-41 | field k of the printed list is index k, so the pods take every requested index exactly once |
| Decimal.ParseFormat | pkg/builder/slurm_builder.go:491-493 | every int32 from 0 on is printed as a numeral that parses back to it |
| TimeLimit.IsValidTimeSpec | pkg/parser/time_limit.go:31-87 | the counting validator accepts exactly D, D:D, D:D:D, D-D, D-D:D and D-D:D:D with D a digit run |
| TimeLimit.GrammarIsCut | pkg/parser/time_limit.go:93-99 | a text is in the grammar if and only if cutting it at its separators gives one of the six forms, so the reading is unique |
| TimeLimit.ShapesListed | pkg/parser/time_limit.go:93-99 | the separator patterns are exactly the six documented ones |
| TimeLimit.CountsDecide | pkg/parser/time_limit.go:56-86 | for text of digits, then dashes before colons, the three counters decide membership in the grammar |
| TimeLimit.LateDash | pkg/parser/time_limit.go:42-47 | a dash after a colon puts the whole text outside the grammar, whatever follows |
| TimeValue.TimeLimitToSeconds | pkg/parser/time_limit.go:107-148 | nil for the unlimited words, the error exactly outside the grammar, and otherwise the sum of the group values that fit, wrapped to int32 |
| TimeValue.ScanSeconds | pkg/parser/time_limit.go:118-147 | reassigning hours, minutes and seconds step by step in int32 gives one wrapped sum of the scanned fields |
| TimeValue.ScanKeeps | pkg/parser/time_limit.go:120-129 | on every text of the grammar the truncating scan reads the groups in order up to the first that exceeds int32 |
| TimeValue.WrapSum | pkg/parser/time_limit.go:124-142 | wrapping at every multiplication and addition is wrapping once |
| TimeValue.ExactWithinBounds | pkg/parser/time_limit.go:107-148 | the reported limit is the exact number of seconds, nil for zero, if and only if that number is at most MaxInt32 |
| TimeValue.SecondsMean | pkg/parser/time_limit.go:93-99 | the six forms as texts: each is in the grammar and stands for its days, hours, minutes and seconds |
| TimeValue.DroppedMean | pkg/parser/time_limit.go:118-147 | what is reported when a number exceeds int32: it and all after it are dropped, and the rest of h:m:s counts minutes and seconds |
| TimeValue.UnlimitedMeans | pkg/parser/time_limit.go:110-112 | there is no limit exactly for the empty text, -1, and the two words in letters of either case |
| TimeValue.MinuteForms | pkg/parser/time_limit.go:118-147 | M, M:0, 0:M:0, 0-0:M and 0-0:M:0 are reported the same for every minute count, one beyond MaxInt32 included |
| TimeValue.DaysWrapAround | pkg/parser/time_limit.go:124-142 | the text 24856-0 is in the grammar and is reported as a negative number of seconds |
| Float64.QuotientRounds | pkg/builder/slurm_builder.go:420-420 | the computed quotient of two positive int32 is a binary64 number with none nearer to the true quotient |
| Float64.DivisibilityTest | pkg/builder/slurm_builder.go:419-432 | for every correctly rounded quotient of positive int32 a and b, truncation is a/b and "greater than its truncation" holds if and only if b does not divide a |
| NodeTasks.SolvesCompletable | pkg/builder/slurm_builder.go:405-436 | with a product within int32 the arithmetic accepts if and only if it is not the "only nodes" case and some positive triple with tasks = nodes * tasks per node agrees with the given values; the stored values are such a triple |
| NodeTasks.CompletionIsSolution | pkg/builder/slurm_builder.go:418-436 | with two or more given values the stored completion is the only one |
| NodeTasks.ErrorsMean | pkg/builder/slurm_builder.go:410-432 | each of the four errors is reported exactly in its case, stated on the given values |
| NodeTasks.OneNode | pkg/builder/slurm_builder.go:410-436 | with at most one given value everything runs on one node |
| NodeTasks.SolveIdempotent | pkg/builder/slurm_builder.go:405-436 | completing a completed shape changes nothing |
| NodeTasks.LawWithinInt32 | pkg/builder/slurm_builder.go:414-435 | accepted values obey the product law if and only if nodes * tasks per node is an int32 |
| NodeTasks.WrappedProductAccepted | pkg/builder/slurm_builder.go:414-416 | 65536 nodes, 65536 tasks and 65537 tasks per node pass |
| SlurmBuilder.SlurmBuilder.ParseArray | pkg/builder/slurm_builder.go:391-396 | the array part of parse fails exactly on flags without a meaning, and stores that meaning if and only if the range does not wrap around |
| SlurmBuilder.SlurmBuilder.CompleteShape | pkg/builder/slurm_builder.go:405-436 | the floating-point arithmetic on the builder's fields stores exactly what integer division says, and fails without a change otherwise |
| SlurmBuilder.ValidateMutuallyExclusiveFlags | pkg/util/validate/validate.go:42-61 | accepts exactly when no two flags are set |
| SlurmBuilder.SlurmBuilder.CheckFlags | pkg/builder/slurm_builder.go:438-461 | succeeds exactly when the flags agree; for every error, it is returned if and only if there is reason for it and for none that is checked before it |
| SlurmBuilder.ConflictsMean | pkg/builder/slurm_builder.go:438-461 | which conflict is reported, written out on the flags in the order of the checks; several memory flags are two or more of four |
| SlurmBuilder.SlurmBuilder.Complete | pkg/builder/slurm_builder.go:405-470 | the whole of complete: it succeeds if and only if the shape can be completed, the flags agree and the script is accepted for the completed number of tasks; else a shape error comes first, then the first conflict among the flags, then the first problem of the script; the script is replaced only on success; on success within int32 the job has its shape |
| SlurmBuilder.CompletedJobShape | pkg/builder/slurm_builder.go:472-488 | after completion a non-array job has completions = parallelism = nodes and completions * containers = tasks; an array job has one node and as many containers as tasks |
| SlurmBuilder.ArrayJobShape | pkg/builder/slurm_builder.go:479-484 | a parsed array job has indexes, so Min and Max are defined; completions are their number, and positive, if and only if that number is an int32 |
| SlurmBuilder.CompletionPositive | pkg/builder/slurm_builder.go:472-488 | after parsing and completing there is at least one pod, and an array job has one per index |
| SlurmBuilder.SlurmBuilder.ParseAndComplete | pkg/builder/slurm_builder.go:107-115 | parse and complete in sequence: success if and only if the array flag has a meaning and complete succeeds, else the error met first; on success completions and parallelism are positive, an array job has one pod per index, and within int32 the job has its shape |
| SlurmBuilder.SlurmBuilder.Build | pkg/builder/slurm_builder.go:102-344 | parse, complete, containers and host names in sequence: success and errors as those of parse and complete; on success the containers are those of the plan, there is one host name per pod, and the first one exists |
| SlurmBuilder.PlainJobMeans | pkg/builder/slurm_builder.go:472-488 | a job that is no array job has as many pods as nodes, all at a time, and one container more per task beyond the first on a node |
| SlurmBuilder.ArrayJobMeans | pkg/builder/slurm_builder.go:472-484 | a built array job has one pod per index; with from-to%n it runs n at a time, with from-to, from-to:n or a list one at a time |
| SlurmBuilder.SlurmBuilder.SumGpus | pkg/builder/slurm_builder.go:207-210 | the loop over the GPU map, in any order, gives the sum of its quantities |
| SlurmBuilder.SlurmBuilder.EditContainers | pkg/builder/slurm_builder.go:228-293 | the selection loop edits exactly the selected containers and adds up each total once per selected container; a shared request map ends with the same entries for all |
| SlurmBuilder.SlurmBuilder.AddReplicas | pkg/builder/slurm_builder.go:295-315 | the replica loop appends containers()-1 named copies of container 0 and adds CPUs and memory per CPU or GPU once per copy |
| SlurmBuilder.SlurmBuilder.BuildContainers | pkg/builder/slurm_builder.go:207-334 | the resource part of build: the final container list and every total and derived field, in closed form |
| SlurmBuilder.WithRequestsTwice | pkg/builder/slurm_builder.go:236-259 | adding the flags' entries to a request map a second time changes nothing, which makes the shared map harmless |
| ResourceRules.RequestsMean | pkg/builder/slurm_builder.go:234-263 | the requests entry by entry: CPUs of the flags, memory of the one memory flag, and otherwise what the user requested |
| ResourceRules.LimitsMean | pkg/builder/slurm_builder.go:265-278 | the limits entry by entry: the GPUs of the flags and the share of the node's memory |
| ResourceRules.ContainersMean | pkg/builder/slurm_builder.go:229-314 | every container of the job: name, command, mounts, requests and limits of a chosen one or a copy of it, and that the others stay untouched |
| ResourceRules.MemoryPerCpuRequested | pkg/builder/slurm_builder.go:212-216 | with memory per CPU every chosen container and copy requests it times its CPUs rounded up to whole ones, and the total is that for each of them |
| ResourceRules.MemoryPerGpuRequested | pkg/builder/slurm_builder.go:218-221 | the same with memory per GPU and the sum of the GPUs of a task |
| ResourceRules.CpusTimesMemory | pkg/builder/slurm_builder.go:212-216 | plans with 4 and with 1.5 CPUs at 1000 each request 4000 and 2000 |
| ResourceRules.TotalsMean | pkg/builder/slurm_builder.go:228-315 | the other totals by the number of chosen containers and replicas |
| ResourceRules.CountedOnce | pkg/builder/slurm_builder.go:229-232 | the containers counted are those of the template the flags apply to, each once |
| ResourceRules.TruncDivMeans | pkg/builder/slurm_builder.go:223-226 | the share of a node's memory is the quotient cut off toward zero |
| Resources.SumOfTake | pkg/builder/slurm_builder.go:207-210 | the sum over a map does not depend on the order it is read in |
| Resources.TotalOf | pkg/builder/slurm_builder.go:228-315 | the sum of an amount over selected containers and replicas is the number of selected ones times the amount, plus replicas times what container 0 holds |
| Resources.CpuConserved | pkg/builder/slurm_builder.go:228-315 | the CPU total is the sum of the CPU requests of selected containers and replicas if and only if there are no replicas, container 0 is selected, or it happens to request the same |
| Resources.MemoryConserved | pkg/builder/slurm_builder.go:228-315 | the same for memory per CPU and per GPU |
| Resources.TaskMemoryConserved | pkg/builder/slurm_builder.go:245-311 | memory per task adds up if and only if there are no replicas or container 0 requests no memory: the flags' memory when it is selected, its template's when not |
| Deviations.CpuOfUnselected | pkg/builder/slurm_builder.go:228-315 | a plan whose CPU total is twice what its containers request |
| Deviations.TaskMemoryOfReplica | pkg/builder/slurm_builder.go:245-311 | a plan whose memory total is half of what its containers request |
| Resources.GpusConserved | pkg/builder/slurm_builder.go:275-311 | GPUs add up if and only if there are no replicas or container 0 has none: those of the flags when it is selected, those its template limits when not |
| Deviations.GpuOfReplica | pkg/builder/slurm_builder.go:275-311 | a plan that reports one GPU and requests two |
| Resources.LimitTotal | pkg/builder/slurm_builder.go:223-315 | the memory limits of all managed containers add up to those of the selected containers (a share each when the flags set limits, else what their templates say) plus replicas times the limit of container 0 |
| Resources.MemoryLimitsFit | pkg/builder/slurm_builder.go:223-315 | the memory limits stay within the memory of a node if and only if that sum does, the share being the memory divided by the template's containers |
| Resources.MemorySharesFit | pkg/builder/slurm_builder.go:223-315 | with container 0 selected the limits fit when selected containers and replicas are no more than the template's containers, and when the division is exact only then |
| Deviations.MemoryExceeded | pkg/builder/slurm_builder.go:223-315 | a plan whose two containers are each given the whole memory of the node |
| Resources.ReplicaNamesDistinct | pkg/builder/slurm_builder.go:298-314 | base-0, base-1, ... are pairwise different |
| Resources.NamesDistinct | pkg/builder/slurm_builder.go:295-315 | with replicas all container names differ if and only if no other template name is one of the replica names |
| Deviations.NameClash | pkg/builder/slurm_builder.go:295-315 | a template with the containers a and a-1 and one replica gets two containers of one name |
| NodeList.BuildNodeList | pkg/builder/slurm_builder.go:538-542 | fills an array with the host name of every pod |
| NodeList.NodeNamesDistinct | pkg/builder/slurm_builder.go:538-542 | different pods have different host names |
| NodeList.HostNames | pkg/builder/slurm_builder.go:538-542 | the first three host names of the job `job`, as texts |
| NodeList.NodeListSplits | pkg/builder/slurm_builder.go:538-564 | splitting the joined host list at its commas gives the host names back |
| Filename.UnmaskQuoted | pkg/builder/slurm_builder.go:632-637 | doubling every percent sign protects a file name if and only if it holds no double backslash |
| Filename.Masks | pkg/builder/slurm_builder.go:76-86 | the nine masks and their texts |
| Filename.NoMask | pkg/builder/slurm_builder.go:76-86 | before any other character the percent sign stays |
| Filename.ReplaceConcat | pkg/builder/slurm_builder.go:76-86 | masks are replaced piece by piece wherever no percent sign is left open; replacements are not read again |
| Filename.UnmaskConcat | pkg/builder/slurm_builder.go:632-637 | the same for whole file names |
| Filename.PairsKeepParity | pkg/builder/slurm_builder.go:633-635 | in the double-backslash branch every text, cut at its backslashes, keeps all other characters and of each run of backslashes its parity |
| Deviations.MaskStays | pkg/builder/slurm_builder.go:632-637 | after a double backslash the mask `%j` is not replaced, and a name with a double backslash is not protected by doubling percent signs |
| Filename.TextOfRuns | pkg/builder/slurm_builder.go:633-635 | every text is cut into its runs of backslashes and the characters between them without loss |
| Filename.PairsAreLost | pkg/builder/slurm_builder.go:633-635 | that branch always loses backslashes |
| LogStreams.StepInv | pkg/cmd/create/create.go:1036-1073 | every step of every goroutine keeps the invariant: one goroutine per qualifying event, one winner per stored pod name, every spawned stream waiting or started once |
| LogStreams.AtMostOnce | pkg/cmd/create/create.go:1052-1073 | over every schedule no two started streams share pod name and container position, and none is for the init container or an unselected one |
| LogStreams.ExactlyOnce | pkg/cmd/create/create.go:1036-1073 | once everything has run, each pod with a qualifying event is streamed from one event's snapshot: all its eligible containers, and nothing from any other event |
| LogStreams.StreamedContainers | pkg/cmd/create/create.go:1036-1073 | once everything has run, each pod added or modified while running, succeeded or failed is streamed from one such event: without a selection every container but slurm-init-env, with one exactly those also selected; nothing is streamed from any other event |
| LogStreams.NoDeadlock | pkg/cmd/create/create.go:1036-1073 | until everything has run some step is possible |
| LogStreams.SchedulesEnd | pkg/cmd/create/create.go:1036-1073 | no schedule is longer than a bound computed from the state it starts in |
| StreamSession.StepInv | pkg/cmd/create/create.go:949-1008 | every step keeps the invariant on main, worker, timer and signal channel |
| StreamSession.ReportIsTrue | pkg/cmd/create/create.go:989-1007 | over every schedule what is reported has happened: a worker's error or success is its call's own result and never the nil of a closed channel, a signal was received; and nothing panics by sending on or closing a closed channel |
| StreamSession.TimeoutBeforeDeadline | pkg/cmd/create/create.go:964-996 | some run reports a timeout before the deadline if and only if there is a timer and the caller cancels |
| StreamSession.StuckOnlyWhenWaiting | pkg/cmd/create/create.go:954-1007 | the code can take no step of its own only while both calls are out, no signal has arrived and the timer, if there is one, has neither deadline nor cancellation to end it; or when all goroutines are over but for calls still out |
| StreamSession.OwnStepsBounded | pkg/cmd/create/create.go:949-1008 | however many signals and cancellations arrive, the code takes at most nine steps of its own |

## Left out

- Kubernetes, Kueue and Ray clients, the Job, Interactive and Ray builders, generated code: calls and one field each.
- Command set-up, completion, listing, printing, documentation: user interface.
- `SlurmFlags`, `GpusFlag`, environment variables and the order of precedence among them: assignments of one field each.
- Parsing and formatting of quantities: a library; quantities are given in thousandths, and overflow of their 64-bit form is not modelled.
- Templates, file access, terminal and log copying: input and output. Their contents are parameters.
- Bytes that are no valid UTF-8: text is modelled as characters.
- The flag library inside the `srun` branch is any function; its own error texts are left out.
- ScriptRewriter.SlurmValidateAndReplaceScript: an invalid prefix of `srun` is reported with its line; the problem inside the prefix is stated for EnvVars.ValidateEnvVars only.
- ArrayIndexes.ParseRangeIndexes: requires that the loop ends, because a method that never returns has no result (Ranges.LoopEndsWhen).
- ArrayIndexes.ParseArrayIndexes: requires the same of its range.
- SlurmBuilder.SlurmBuilder.ParseArray: requires the same of the builder's array flag.
- SlurmBuilder.SlurmBuilder.Build: requires that the range does not wrap around and that the list is not the one of all int32 from 0 on; with a negative number of completions the host names cannot be allocated.
- SlurmBuilder.SlurmBuilder.CompleteShape: requires positive numbers of nodes and tasks, like the method below.
- SlurmBuilder.SlurmBuilder.Complete: requires positive numbers of nodes and tasks; the source checks this for command line flags only, so values that are not positive can still come from the script's own directives.
- SlurmBuilder.SlurmBuilder.EditContainers: the request map that all containers share is modelled by value with its final entries, not by reference.
- SlurmBuilder.SlurmBuilder.BuildContainers: init containers, environment, volumes and the scripts of `build` are not modelled.
- The mutually exclusive flags are a list of booleans, not a map from flag names; the error's text is not modelled.
- TimeValue.ScanSeconds: the scan is modelled for digits and separators only; validated text has no sign and no space.
- LogStreams.ExactlyOnce: is about starting the streams. A stream whose connection fails afterwards is not started again, and what it copies is not modelled.
- StreamSession.ReportIsTrue: the calls of the two workers return any result at any time; which job conditions end the verifier's watch, and the error of removing the job, are not modelled.
