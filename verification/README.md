# Models of LLVM's maintenance scripts

This project models the algorithms inside eleven of the Python tools that LLVM and clang keep in their
`utils` directories, and proves what the tools are relied on for. The rest of the imported repository is
mostly headers and user interface. Every run of an external program (`ninja`, `opt`, a test program,
`llvm-objdump`, `llvm-mca`, a link-and-run test) is a deterministic function of its input.

| file | script |
|---|---|
| NinjaDeps.dfy | check_ninja_deps.py: topological sort, ancestor sets, search for missing dependencies |
| TokenDelta.dfy | token-delta.py: delta debugging with a cache of failing sets |
| Pipeline.dfy, ReducePipeline.dfy | pipeline.py, reduce_pipeline.py: nested pass pipelines and their three-step reduction |
| CaseFold.dfy | unicode-case-fold.py: a table compiled into a chain of tests with early returns |
| McaAlign.dfy, McaPrefixes.dfy, McaBreakDown.dfy, McaBlocks.dfy, McaOutput.dfy | update_mca_test_checks.py: alignment of blocks, choice of prefixes, line-by-line break-down, and the whole output |
| AbBisect.dfy, AbFunctions.dfy | abtest.py: bisection, and splicing of marked functions |
| Itanium.dfy | extract_symbols.py: parser for nested names of the Itanium C++ ABI (section 5.1.2) |
| DemangleTree.dfy | demangle_tree.py: accounting over chunks that cut across directories |
| ShuffleIR.dfy, ShuffleSelect.dfy, ShuffleTree.dfy, Numbering.dfy | shuffle_select_fuzz_tester.py, shuffle_fuzz.py: generated instructions and their expected results |
| Decimal.dfy, Lexicographic.dfy, Sublists.dfy, Wrappers.dfy | decimal numerals, the order of strings, sublists by a property, option and result types |

The loops and the objects with fields are methods and classes. Each is proved against a function of its
inputs or against the property itself. Functions that only specify are ghost, and what they mean is proved in
lemmas that do not mention how they are computed. Verify everything
with `dafny verify dfyconfig.toml`.

Where the scripts do something other than one might expect, the models follow the code:

- check_ninja_deps.py reports a generated file that is recorded as depending on itself. A file takes its own
  label out of its ancestor set, so no dependency that is added without creating a cycle silences the report
  (`NinjaDeps.SelfIsMissing`).
- In reduce_pipeline.py, a split point whose pruned back part is empty works but is not adopted, since an
  empty list is false: the reduction then goes on with the original pipeline and input, not with the last
  non-empty back part. Step 2 has the same test, but never meets an empty front part.
- In abtest.py, the announced number of remaining checks is met not only when all of them fail. At the first
  check of n >= 2 names it is 2n - 2, and it is met exactly if, in the trees of the two halves of the list, no
  partition of two or more names passes (`AbBisect.SearchBound`, `AbBisect.Bisection.CheckBisect`). A single
  name meets it even by passing (`AbBisect.BoundMetThoughPassing`).
- In update_mca_test_checks.py, a run line whose prefixes include two of the prefixes chosen for its text is
  shown that text twice (`McaBlocks.TextShownTwice`). The exact condition under which it sees its text, and
  just once, depends on the prefixes of the run lines only: `McaPrefixes.HasOnePrefix`, in the contract of
  `McaBlocks.CheckLines`. A prefix shared by all run lines of the text is enough.
- The same script pads its lists of blocks to a length taken before the alignment, so that a run line may have
  no block at some number, and there be shown a text of another one (`McaOutput.ForeignTextIsShown`). At each
  number, `McaOutput.FindsBlock` is the exact condition, on the outputs and the prefixes of the run lines, for
  a run line to be shown its own block and nothing else (`McaOutput.CheckRuns`).
- demangle_tree.py adds a file to the result of its directory, which it takes from the normalised path. A file in
  the current directory has no directory part, so its result is missing (`DemangleTree.CurrentDirectoryFails`).
  A run ends in an error for this reason, or because it divides by a number of symbols that is zero, and for
  no other reason in the model (`DemangleTree.GoAndSummarize`). A line without a closing parenthesis loses the
  last character of its text (`DemangleTree.UnclosedLosesLast`).
- pipeline.py takes a list in brackets without a name for a pass, except that it cannot print it. A printable
  pipeline is read back exactly if it is well-formed (`Pipeline.RoundTrip`).
- shuffle_select_fuzz_tester.py promises a different value in each element of the inputs. For narrow integer
  elements the values wrap around; they differ exactly if they fit (`ShuffleSelect.DifferentIffTheyFit`).

## Model

Paths are relative to the root of the repository import.

| member | source | states |
|---|---|---|
| NinjaDeps.CheckDependencies | src/llvm/utils/check_ninja_deps.py:140-201 | fails exactly if a line with four leading spaces has no target line before it; otherwise, on any graph, a recorded pair (target, file) of two unambiguous names is reported exactly if the file is generated and some legal build reaches the target without having built it; for names that label several vertices, exactly if the file is generated and, for the last vertex of that target in a topological order, some legal build reaches it without any vertex of that file; reports keep the recorded order and multiplicity, and whatever is reported has an incoming edge |
| NinjaDeps.ListingIsRead | src/llvm/utils/check_ninja_deps.py:164-199 | for any stanzas, printed as a target with a colon and any text, the files with four leading spaces and an empty line: exactly the (target, file) pairs are read, in order |
| NinjaDeps.RefusedIff | src/llvm/utils/check_ninja_deps.py:177-199 | reading any lines fails exactly if a line with four leading spaces comes before every line that contains a colon and has not |
| NinjaDeps.UpToColon | src/llvm/utils/check_ninja_deps.py:199 | the part of a line before its first colon |
| NinjaDeps.MissingIsUnordered | src/llvm/utils/check_ninja_deps.py:11-20 | on an acyclic graph, these are the pairs for which some complete legal build order has the target before the file |
| NinjaDeps.BehindCyclesIsPassedOver | src/llvm/utils/check_ninja_deps.py:78-90 | a target that is only reached through cycles is never reported |
| NinjaDeps.SelfIsMissing | src/llvm/utils/check_ninja_deps.py:111-118 | a generated file recorded as depending on itself is reported exactly if no cycle leads to it |
| NinjaDeps.WithoutUnlessAncestor | src/llvm/utils/check_ninja_deps.py:108-118 | on any graph: one vertex can be built without another exactly if no cycle leads to it and the other is not an ancestor of it |
| NinjaDeps.AncestryDecidesOrder | src/llvm/utils/check_ninja_deps.py:11-20 | for two different vertices of a schedulable graph: the one is not an ancestor of the other exactly if some schedule places them the wrong way round |
| NinjaDeps.NeededFirst | src/llvm/utils/check_ninja_deps.py:11-20 | moving all that one vertex needs to the front of a schedule gives a schedule |
| NinjaDeps.UnorderedSchedule | src/llvm/utils/check_ninja_deps.py:11-20 | so a vertex can be scheduled before any other that is not its ancestor |
| NinjaDeps.Toposort | src/llvm/utils/check_ninja_deps.py:62-90 | on any finite graph, cycles and parallel edges allowed, lists each vertex at most once and after all its predecessors, and lists exactly the vertices that no cycle reaches |
| NinjaDeps.ListedIsUntainted | src/llvm/utils/check_ninja_deps.py:78-90 | whatever is listed after all its predecessors is not reachable from a cycle |
| NinjaDeps.StuckIsTainted | src/llvm/utils/check_ninja_deps.py:78-90 | a vertex of a set in which every vertex has a predecessor in the set is reachable from a cycle |
| NinjaDeps.OrderIsExact | src/llvm/utils/check_ninja_deps.py:71-90 | when no unlisted vertex has all its predecessors listed, the listed vertices are exactly those that no cycle reaches |
| NinjaDeps.PendingAfterOutput | src/llvm/utils/check_ninja_deps.py:86-90 | listing a vertex lowers the number of pending predecessors of each vertex by the number of edges between the two |
| NinjaDeps.AncestorStep | src/llvm/utils/check_ninja_deps.py:111-114 | a label is that of a vertex or ancestor exactly if it is its own or that of a predecessor or an ancestor of one |
| NinjaDeps.GatherAncestors | src/llvm/utils/check_ninja_deps.py:111-114 | the loop over the predecessors never looks up a missing entry, and collects the labels of the vertex and all its ancestors |
| NinjaDeps.Ancestors | src/llvm/utils/check_ninja_deps.py:93-118 | gives every listed vertex, in a topological order, the exact set of labels of its ancestors without its own label |
| NinjaDeps.BuildTable | src/llvm/utils/check_ninja_deps.py:153-156 | the dictionary that the check consults holds these sets under the labels of the listed vertices; of several vertices with one label, that of the last one listed |
| NinjaDeps.AcyclicIsScheduled | src/llvm/utils/check_ninja_deps.py:62-90 | on an acyclic graph the order that the sort yields is a complete schedule |
| NinjaDeps.TargetsAreGenerated | src/llvm/utils/check_ninja_deps.py:149-151 | the targets are the labels of vertices with a predecessor |
| NinjaDeps.TableDecides | src/llvm/utils/check_ninja_deps.py:187 | for unambiguous labels, the condition of the report holds exactly if the dependency is missing; so a file recorded as depending on itself is reported |
| NinjaDeps.ReportsHaveEdges | src/llvm/utils/check_ninja_deps.py:149-151 | no file without a predecessor is reported |
| NinjaDeps.ReportsAreMissing | src/llvm/utils/check_ninja_deps.py:161-196 | with the table that the check builds, the pairs of unambiguous names among the reports are exactly the missing ones, whatever other names are recorded |
| NinjaDeps.ReportedAreMissing | src/llvm/utils/check_ninja_deps.py:161-196 | if all recorded names are unambiguous, the reports are exactly the missing ones among the recorded pairs, in order and with their multiplicity |
| NinjaDeps.LastDecides | src/llvm/utils/check_ninja_deps.py:187 | for any labels, the condition of the report holds exactly if some legal build reaches the last vertex of the target without any vertex of the file |
| NinjaDeps.AncestorsCarry | src/llvm/utils/check_ninja_deps.py:108-118 | no ancestor of a vertex carries a label exactly if the vertex can be built without any vertex of that label |
| NinjaDeps.ReportsAreLast | src/llvm/utils/check_ninja_deps.py:161-196 | the reports are exactly the pairs for which this holds |
| NinjaDeps.RecordedDepsFails | src/llvm/utils/check_ninja_deps.py:177-179 | a source file before the first target fails the run, whatever follows |
| TokenDelta.TMBDDelta.Run | src/clang/utils/token-delta.py:224-235 | for any deterministic test program: fails exactly if it fails on the concatenations of all tokens of each file; otherwise the result passes, is in the original order, stops passing when any single change is removed, is what the .ok files hold, and took no more tests than the bound, none of which failed on a set that had failed before; the result is the one that the algorithm has without its cache |
| TokenDelta.TMBDDelta.RunDelta | src/clang/utils/token-delta.py:35-48 | the same for any changes, with and without force; with force the result still is minimal, and passes unless nothing could be removed |
| TokenDelta.TMBDDelta.Delta | src/clang/utils/token-delta.py:65-82 | returns a minimal sublist that passes or is the given one; terminates by changes left, then pieces that can be split; stays within the test bound |
| TokenDelta.TMBDDelta.Search | src/clang/utils/token-delta.py:84-95 | either reduces strictly, or no piece can be removed from a list of pieces |
| TokenDelta.TMBDDelta.TryPiece | src/clang/utils/token-delta.py:85-88 | one piece alone |
| TokenDelta.TMBDDelta.TryComplement | src/clang/utils/token-delta.py:92-95 | all pieces but one |
| TokenDelta.TMBDDelta.GetTestResult | src/clang/utils/token-delta.py:22-33 | the cache of failing sets is sound: the answer is that of the test on this list, which is run exactly if the set is not cached, and cached exactly if it fails; the .ok files change exactly if it passes |
| TokenDelta.TMBDDelta.FirstStepIs | src/clang/utils/token-delta.py:84-95 | a search goes on with the first piece, in order, that passes alone or, of more than two, can be left out |
| TokenDelta.TMBDDelta.Test | src/clang/utils/token-delta.py:172-222 | runs the test on the files rendered from the changes, counts it, and updates the .ok files exactly if it passes |
| TokenDelta.TMBDDelta.WriteFiles | src/clang/utils/token-delta.py:158-170 | every file gets the chosen tokens of that file, in the order of the list |
| TokenDelta.TMBDDelta.GroupByFile | src/clang/utils/token-delta.py:160-162 | the token numbers by file, in the order of the list |
| TokenDelta.TMBDDelta.WriteTokens | src/clang/utils/token-delta.py:166-167 | the text of the chosen tokens of a file |
| TokenDelta.RefineIsPartition | src/clang/utils/token-delta.py:78 | splitting all pieces keeps their concatenation, and yields more pieces unless all are single |
| TokenDelta.SplitIsPartition | src/clang/utils/token-delta.py:50-63 | split keeps the concatenation, and yields one piece exactly for lists of at most one change |
| TokenDelta.RemoveBlock | src/clang/utils/token-delta.py:26 | removing a block of a list in original order leaves a list that is determined by its set: caching on sets is sound |
| TokenDelta.SingletonWithout | src/clang/utils/token-delta.py:79-80 | when all pieces are single, leaving out a piece is removing one change |
| TokenDelta.RefineBudget | src/clang/utils/token-delta.py:65-82 | the test bound pays for a fruitless search and the refined pieces |
| TokenDelta.SubsetBudget | src/clang/utils/token-delta.py:85-88 | ... for going on with a passing piece |
| TokenDelta.ComplementBudget | src/clang/utils/token-delta.py:92-95 | ... and for going on without a piece |
| TokenDelta.TestsAreQuadratic | src/clang/utils/token-delta.py:35-48 | the bound is at most 4 n^2 + 2 tests on n changes |
| TokenDelta.AllChangesValid | src/clang/utils/token-delta.py:225-231 | the changes of a run are exactly all tokens of all files, in the order of the files and of the tokens in each |
| TokenDelta.AllIsWhole | src/clang/utils/token-delta.py:158-170 | with all changes, every file is written as the concatenation of its tokens from the first to the last |
| TokenDelta.FileTextIs | src/clang/utils/token-delta.py:158-170 | with any changes, file i is written as the concatenation of the tokens of those changes that are its own, in the order of the list |
| TokenDelta.SplitInHalves | src/clang/utils/token-delta.py:50-63 | two or more changes are split into two halves that differ by at most one change |
| Pipeline.RoundTrip | src/llvm/utils/pipeline.py:5-49 | a pipeline can be printed and is given back by reading its print exactly if it is well-formed, empty managers included |
| Pipeline.NormalForm | src/llvm/utils/pipeline.py:5-49 | a balanced string is read to a well-formed pipeline, whose print is then stable, exactly if all its managers are named |
| Pipeline.ScanPrinted | src/llvm/utils/pipeline.py:5-33 | reading a printed pipeline appends its items to the current level, whatever is on the stack |
| Pipeline.FromStr | src/llvm/utils/pipeline.py:5-33 | the loop over characters is the reader; it fails exactly at a closing bracket without an open manager |
| Pipeline.ParseFails | src/llvm/utils/pipeline.py:5-33 | reading any text fails exactly if some beginning of it has more closing than opening brackets |
| Pipeline.PrintedExample | src/llvm/utils/pipeline.py:5-49 | the textual form, and its reading, of a pipeline with nested and empty managers |
| Pipeline.NamedIsWellFormed | src/llvm/utils/pipeline.py:5-33 | what is read from any text is well-formed as soon as its managers are named |
| Pipeline.ToStr | src/llvm/utils/pipeline.py:36-49 | the loop prints the pipeline; it fails exactly if a manager at some depth has no name |
| Pipeline.CountPasses | src/llvm/utils/pipeline.py:52-60 | counts the passes of all nested managers; a list in brackets without a name is one pass |
| Pipeline.SplitInt | src/llvm/utils/pipeline.py:66-80 | the recursive loops with their running index keep exactly the passes up to, and after, the split position, all managers in place |
| Pipeline.Split | src/llvm/utils/pipeline.py:63-85 | the selections of the passes up to and after the split position |
| Pipeline.SplitDivides | src/llvm/utils/pipeline.py:63-85 | split divides the pass sequence, each pass with its manager path, into its first i+1 passes and the rest |
| Pipeline.JoinSplit | src/llvm/utils/pipeline.py:63-85 | the two parts together determine the pipeline |
| Pipeline.RemoveInt | src/llvm/utils/pipeline.py:91-101 | keeps all passes but the one at the running index |
| Pipeline.Remove | src/llvm/utils/pipeline.py:88-105 | the selection of all passes but the given one |
| Pipeline.RemoveDeletes | src/llvm/utils/pipeline.py:88-105 | remove deletes exactly pass i, and nothing if there is none |
| Pipeline.SelectPasses | src/llvm/utils/pipeline.py:63-105 | what is kept of the pass sequence depends on positions only |
| Pipeline.SelectWellFormed | src/llvm/utils/pipeline.py:63-105 | cutting keeps a pipeline printable |
| Pipeline.PruneInt | src/llvm/utils/pipeline.py:128-136 | drops the named managers without passes, at every depth |
| Pipeline.PruneKeepsPasses | src/llvm/utils/pipeline.py:125-140 | prune keeps the pass sequence and leaves no empty manager |
| Pipeline.PruneFixed | src/llvm/utils/pipeline.py:125-140 | prune changes nothing if there is no empty manager |
| Pipeline.PruneIdempotent | src/llvm/utils/pipeline.py:125-140 | pruning twice is pruning once |
| ReducePipeline.Reducer.Run | src/llvm/utils/reduce_pipeline.py:87-207 | the whole reduction, for any opt: starts exactly if the input fails; with m the number of leading split points that work, the first m passes are taken off, unless nothing would be left, and the input is what they wrote; then the passes after position e, where e is the earliest from which on all leading parts reproduce the error; then what the sweeps remove; at the end the pipeline reproduces the error on the current input, no single removal reproduces it, and its passes are a subsequence of those between the two positions |
| ReducePipeline.Reducer.Step0 | src/llvm/utils/reduce_pipeline.py:88-104 | records the expected error, which is negative |
| ReducePipeline.Reducer.Step1 | src/llvm/utils/reduce_pipeline.py:116-154 | moves over the m leading split points that work, and goes on with the last back part and the file its front part wrote, although the two intermediate files are overwritten in turn; an empty back part is not adopted |
| ReducePipeline.Reducer.TrySplit | src/llvm/utils/reduce_pipeline.py:121-151 | one split point: two runs, through the intermediate file |
| ReducePipeline.Reducer.IntermediatesAlternate | src/llvm/utils/reduce_pipeline.py:126-127 | a run never overwrites the file of the run before it, nor the input |
| ReducePipeline.Reducer.Step2 | src/llvm/utils/reduce_pipeline.py:161-179 | drops passes from the end down to the last one that is needed without a gap |
| ReducePipeline.Reducer.FrontIsNotEmpty | src/llvm/utils/reduce_pipeline.py:178-179 | step 2 never proposes an empty pipeline, so its last test never rejects one |
| ReducePipeline.Reducer.Step3 | src/llvm/utils/reduce_pipeline.py:187-206 | terminates with the pipeline that the sweeps, made until one removes nothing, lead to; no single pruned removal from it reproduces the error |
| ReducePipeline.Reducer.Sweep | src/llvm/utils/reduce_pipeline.py:188-204 | one sweep, over indices fixed at its start: an adopted candidate may remove nothing when the index is past the shrunken pipeline, yet a sweep that adopts anything removes a pass, and one that adopts nothing shows irreducibility |
| ReducePipeline.Reducer.RemovalShrinks | src/llvm/utils/reduce_pipeline.py:189-204 | the first adopted candidate of a sweep is shorter |
| ReducePipeline.Reducer.CutPasses | src/llvm/utils/reduce_pipeline.py:121-124 | the parts of a split are well-formed, and divide the pass sequence; if they are pruned they have no empty manager, and otherwise they determine the pipeline |
| ReducePipeline.Reducer.WithoutPasses | src/llvm/utils/reduce_pipeline.py:190-192 | a pruned removal deletes exactly one pass, or nothing past the end |
| ReducePipeline.Reducer.CutsAreNamed | src/llvm/utils/reduce_pipeline.py:121-206 | no pipeline that the reduction prints has a manager without a name: the printer never fails |
| CaseFold.Generator.Generate | src/llvm/utils/unicode-case-fold.py:36-131 | fails exactly if the characters of the C and S entries are negative or not strictly ascending, or there are none; otherwise the generated function maps the character of every such entry to the other one, and every other integer to itself; the tests are those of the longest blocks |
| CaseFold.Mappings | src/llvm/utils/unicode-case-fold.py:36-50 | yields the C and S entries, and fails exactly if their characters are not strictly ascending from 0 |
| CaseFold.SortedIff | src/llvm/utils/unicode-case-fold.py:36-50 | the table is sorted exactly if these lines are |
| CaseFold.LookupIs | src/llvm/utils/unicode-case-fold.py:36-50 | the table maps the characters of these lines, and no others |
| CaseFold.Generator.CompileTable | src/llvm/utils/unicode-case-fold.py:107-131 | divides the table into blocks of equal shift and stride none of which can be extended by the next mapping, and emits their tests, which agree with the table |
| CaseFold.BlockEnds | src/llvm/utils/unicode-case-fold.py:113-126 | a mapping with another shift or another stride does not extend a block |
| CaseFold.RemainderIsTested | src/llvm/utils/unicode-case-fold.py:90-104 | the remainder is left out of the test exactly for stride 1, and for stride 2 with shift 1 from an even character |
| CaseFold.OrOneIs | src/llvm/utils/unicode-case-fold.py:90-94 | C | 1 is odd, and differs from C in the last bit at most |
| CaseFold.RemainderIs | src/llvm/utils/unicode-case-fold.py:86-88 | C % n in C++ has the sign of C |
| CaseFold.Generator.DumpBlock | src/llvm/utils/unicode-case-fold.py:71-104 | emits the tests of a block |
| CaseFold.BlockMembers | src/llvm/utils/unicode-case-fold.py:82-102 | above its first character, a block contains exactly the characters up to its last one with the right remainder |
| CaseFold.TestAgreesAt | src/llvm/utils/unicode-case-fold.py:90-104 | the test of a block maps its characters as the table does; dropping the remainder test for stride 1, and for even characters with C | 1, is harmless |
| CaseFold.CodeAgreesAt | src/llvm/utils/unicode-case-fold.py:71-104 | the tests of a block, with their early return, agree with the block |
| CaseFold.AppendAgrees | src/llvm/utils/unicode-case-fold.py:107-131 | tests of a further block, above all earlier ones, keep the agreement with the whole table |
| CaseFold.AgreementIsEquality | src/llvm/utils/unicode-case-fold.py:152-155 | code that agrees with the table, followed by "return C", is the table as a function |
| McaAlign.AlignRuns | src/llvm/utils/update_mca_test_checks.py:284-313 | the loop over the run lines: after each, all lists so far are aligned; the result is a function of the lists only, although the farthest indices are cached from pass to pass and from run line to run line |
| McaAlign.RunsAreLinedUp | src/llvm/utils/update_mca_test_checks.py:196-256 | that result keeps the sequence of non-empty blocks of each list, and every non-empty block that follows a non-empty one is at or past its first index in every list; lists that are lined up from the start, and no others, are left as they are |
| McaAlign.AlignAll | src/llvm/utils/update_mca_test_checks.py:310-313 | the loop until nothing changes terminates with the last of the passes, whatever valid indices are cached |
| McaAlign.AlignMatchingBlocks | src/llvm/utils/update_mca_test_checks.py:196-256 | one pass: if any block is misplaced, that is directly after a non-empty block and before its farthest index, then the first such block is moved to that index by empty blocks before it, and nothing else changes; otherwise nothing changes |
| McaAlign.StillCached | src/llvm/utils/update_mca_test_checks.py:224-232 | blocks only move towards the end, so no cached index ever lies beyond the farthest first index |
| McaAlign.Analyse | src/llvm/utils/update_mca_test_checks.py:224-232 | raises each farthest index to the farthest first index of the block in the lists, if that is larger |
| McaAlign.LinedUpIsLeft | src/llvm/utils/update_mca_test_checks.py:236-256 | lists are lined up exactly if no block is misplaced, and exactly then the alignment leaves them as they are |
| McaAlign.AlignLinesUp | src/llvm/utils/update_mca_test_checks.py:310-313 | the passes end in lined up lists with the same non-empty blocks |
| McaAlign.SeparationProgress | src/llvm/utils/update_mca_test_checks.py:245-249 | a separation keeps the non-empty blocks and lowers the number of adjacent non-empty pairs |
| McaAlign.InsertedMeasures | src/llvm/utils/update_mca_test_checks.py:246-249 | the effect of inserting empty blocks between two non-empty ones |
| McaAlign.ExampleAlignment | src/llvm/utils/update_mca_test_checks.py:284-313 | the lists X,Y,W and X,Z,Y are aligned to X,-,Y,W and X,Z,Y |
| McaPrefixes.PruneBlock | src/llvm/utils/update_mca_test_checks.py:331-378 | fails exactly if some non-empty text has no run line with a prefix of its own; otherwise each text is assigned, in ascending order, exactly the first prefixes described for ChoosePrefixes, which no other text uses and which cover exactly the run lines that can be told from the other texts |
| McaPrefixes.ChoosePrefixes | src/llvm/utils/update_mca_test_checks.py:339-378 | the prefixes of one text: the first one of what the pruned sets of its run lines have in common; if they have nothing in common, the first one of each of these sets |
| McaPrefixes.PickFirst | src/llvm/utils/update_mca_test_checks.py:364-368 | picks exactly the prefixes that come first in some set |
| McaPrefixes.NonEmptyIffToldApart | src/llvm/utils/update_mca_test_checks.py:374-377 | a text has a prefix exactly if some run line of it can be told from the others |
| McaPrefixes.OnePrefixDecided | src/llvm/utils/update_mca_test_checks.py:353-368 | from the prefixes of all run lines: one run line has exactly one of the prefixes chosen for its text if and only if the pruned sets of that text have a prefix in common, or its own one is not empty and the first prefix of any of them that is among its prefixes is the first one of its own |
| McaPrefixes.SharedPrefixSuffices | src/llvm/utils/update_mca_test_checks.py:353-358 | this is so if the run lines of the text share a prefix that no other text uses |
| McaBreakDown.BreakDown | src/llvm/utils/update_mca_test_checks.py:113-175 | gives up exactly if the first lines differ, or some lines differ and the first text has no prefix; otherwise the lines of the common prefix and of any prefix of a text are, in order, exactly that text, and between two lines with the common prefix the lines are grouped by prefix, in the order of the prefixes |
| McaBreakDown.EmptiedClimbs | src/llvm/utils/update_mca_test_checks.py:145-149 | the lines of a batch come in the order of their prefixes |
| McaBreakDown.Flush | src/llvm/utils/update_mca_test_checks.py:148-149 | moves the batches out in order, without changing what is seen through any one prefix |
| McaBreakDown.FlushKeepsAccount | src/llvm/utils/update_mca_test_checks.py:145-150 | flushing before a common line keeps all lines of all texts in order |
| McaBreakDown.CommonStep | src/llvm/utils/update_mca_test_checks.py:151-152 | a common line is the next line of every text |
| McaBreakDown.PrivateStep | src/llvm/utils/update_mca_test_checks.py:165-170 | the other lines are the next ones of their texts, and of nobody else |
| McaBreakDown.AddLine | src/llvm/utils/update_mca_test_checks.py:168-170 | adds the line of each text to the batches of its prefixes only |
| McaBlocks.CheckLines | src/llvm/utils/update_mca_test_checks.py:331-393 | pruning and break-down together: fails exactly if a text is not captured; otherwise a run line finds exactly its text in what is written if and only if the condition of OnePrefixDecided holds for it, and nothing if its text is empty; a run line without a block here is shown nothing if and only if the texts are not broken down and no non-empty one is written under one of its prefixes; unless they are broken down, a run line with prefixes of one text only is shown it once for each of them |
| McaBlocks.SeenOnce | src/llvm/utils/update_mca_test_checks.py:133-175 | a run line sees its own text exactly if it has exactly one of the prefixes chosen for it |
| McaBlocks.ChosenIsDisjoint | src/llvm/utils/update_mca_test_checks.py:331-350 | the pruning supplies the disjointness that the break-down needs |
| McaBlocks.CommonIsNotChosen | src/llvm/utils/update_mca_test_checks.py:383-393 | ... and, with several texts, never leaves the common prefix |
| McaBlocks.WriteWhole | src/llvm/utils/update_mca_test_checks.py:500-527 | writing texts in full never meets a prefix twice, shows each text once for each of its prefixes that a run line has, and is in the order of the prefixes |
| McaBlocks.BrokenDownIff | src/llvm/utils/update_mca_test_checks.py:383-393 | texts are broken down exactly if there is a common prefix, and several texts with the same number of lines and the same first line |
| McaBlocks.TextShownTwice | src/llvm/utils/update_mca_test_checks.py:364-378 | for a text with the prefix sets {A,B}, {A} and {B}, whatever satisfies the contract of CheckLines shows the first run line the text twice |
| McaOutput.CheckRuns | src/llvm/utils/update_mca_test_checks.py:286-393 | from the output blocks of all run lines to the check lines of each block number, by the aligned and padded lists: fails exactly if a text at some number is not captured; a run line is shown at a number exactly its block, and nothing where it has none, if and only if it has exactly one of the prefixes chosen for a non-empty block, or no block and no text there written under one of its prefixes; a run line for which this holds at all numbers finds in all check lines exactly the lines of its own output, in order |
| McaOutput.BlockIsSeen | src/llvm/utils/update_mca_test_checks.py:331-393 | the condition for one number and one run line, both ways |
| McaOutput.OwnLinesAreShown | src/llvm/utils/update_mca_test_checks.py:315-327 | what is shown at all numbers together is the output itself, although the lists have been aligned and padded |
| McaOutput.PreparedKeeps | src/llvm/utils/update_mca_test_checks.py:284-319 | aligning and padding keep the non-empty blocks of each run line |
| McaOutput.LinedUpHasAllBlocks | src/llvm/utils/update_mca_test_checks.py:315-319 | if the outputs are lined up from the start, every run line has a block at every number |
| McaOutput.WriteAll | src/llvm/utils/update_mca_test_checks.py:321-393 | the block numbers one after the other; fails exactly if a text at some number is not captured |
| McaOutput.GroupBlocks | src/llvm/utils/update_mca_test_checks.py:321-327 | the blocks at one number by their text, each with the prefix sets of its run lines |
| McaOutput.EveryRunIsEntered | src/llvm/utils/update_mca_test_checks.py:321-327 | every run line with a block at the number has its prefix set entered under the text of the block; different entries have different texts |
| McaOutput.EntriesAre | src/llvm/utils/update_mca_test_checks.py:321-327 | the entries at a number are exactly the different texts there, each with the prefix sets of its run lines in order |
| McaOutput.LongestIsLength | src/llvm/utils/update_mca_test_checks.py:331 | there are as many numbers as the longest list has blocks |
| Lexicographic.LessIff | src/llvm/utils/update_mca_test_checks.py:365 | sorting is by the first character in which two strings differ, and a beginning comes first |
| McaOutput.Pad | src/llvm/utils/update_mca_test_checks.py:315-319 | padding appends empty blocks to shorter lists, up to the given length |
| McaOutput.LoneTextIsShown | src/llvm/utils/update_mca_test_checks.py:364-368 | a text that only one run line has is shown to every run line with the first of its prefixes |
| McaOutput.ForeignTextIsShown | src/llvm/utils/update_mca_test_checks.py:286-393 | for the outputs X,Y,W of {ALL,FOO} and X,Z,Y of {ALL,BAR}, the run does not fail, and whatever it writes shows the second run line X,Z,Y,W: the block W is not its own |
| AbBisect.CheckSequentially | src/llvm/utils/abtest.py:112-124 | the names that pass on their own, with A for all others |
| AbBisect.Bisection.CheckBisect | src/llvm/utils/abtest.py:127-174 | terminates; the result is the names of the tested partitions that passed, contains every name that passes on its own, and nothing else if passing is monotone; the partitions are tested in the order of their queue, left halves first; of n >= 2 names it announces 2n - 2 tests at the first one and runs no more, exactly as many if no partition of two or more names below the whole list passes; one name is tested once, with 1 announced |
| AbBisect.OneCulprit | src/llvm/utils/abtest.py:157-174 | with a single culprit among at most 2^k names, the search needs at most 2k tests |
| AbBisect.Bisection.SplitLast | src/llvm/utils/abtest.py:161-172 | one turn of the loop: takes off the last partition, tests its halves, loses no name, and keeps the number of tests run and still needed |
| AbBisect.Bisection.TestPartition | src/llvm/utils/abtest.py:135-154 | one test: its effect on the good names and the queue, and the announced maximum as an account of all tests still to come |
| AbBisect.Bisection.MaxRemainingSteps | src/llvm/utils/abtest.py:136-141 | the announced maximum |
| AbBisect.StepBound | src/llvm/utils/abtest.py:136-141 | the announced maximum is never exceeded by the tests still to run, this one included, and is met exactly if no partition of two or more names passes from then on |
| AbBisect.SearchBound | src/llvm/utils/abtest.py:157-174 | the number of tests on n >= 2 names, as a function of the names and the test: at most 2n - 2, and that many exactly if no partition of two or more names in the trees of the two halves passes |
| AbBisect.TestsBound | src/llvm/utils/abtest.py:157-174 | likewise for one partition to be tested: 2n - 1 |
| AbBisect.BoundMetThoughPassing | src/llvm/utils/abtest.py:136-141 | meeting the maximum does not need failing tests: the log of a search on a single choice that passes |
| AbBisect.BuildPicks | src/llvm/utils/abtest.py:132-145 | every name is picked and no other: its choice from B if it is in the partition, and from A if it is not |
| AbFunctions.ExtractFunctions | src/llvm/utils/abtest.py:177-199 | the line loop is the extraction; it fails exactly at an end marker before any begin marker |
| AbFunctions.ReplaceFunctions | src/llvm/utils/abtest.py:202-226 | the line loop is the replacement |
| AbFunctions.ExtractIs | src/llvm/utils/abtest.py:177-199 | on any lines: fails exactly at an end marker before every begin marker; otherwise each end marker gives a function, from the last begin marker to it, without a name if another end marker is between them |
| AbFunctions.ReplaceIs | src/llvm/utils/abtest.py:202-226 | on any lines: a begin marker with a name to be replaced becomes the replacement, every other line is left out if there is no end marker between it and such a begin marker, and kept otherwise |
| AbFunctions.FunctionsAre | src/llvm/utils/abtest.py:177-199 | the functions of a file are those of its marked pieces, in order, with their markers |
| AbFunctions.ExtractIsFunctions | src/llvm/utils/abtest.py:177-199 | extraction returns the functions of a well-bracketed file, in order |
| AbFunctions.ReplaceIsPatched | src/llvm/utils/abtest.py:202-226 | replacement exchanges exactly the functions named, markers included |
| AbFunctions.ReplaceByExtracted | src/llvm/utils/abtest.py:177-226 | replacing any functions by their own extracted texts changes nothing, if names are distinct |
| AbFunctions.ExtractAfterReplace | src/llvm/utils/abtest.py:177-226 | extraction after replacement returns the chosen texts |
| AbFunctions.SecondReplacementWins | src/llvm/utils/abtest.py:202-226 | a second replacement of at least the same names overrides the first |
| Itanium.ParsePrinted | src/llvm/utils/extract_symbols.py:227-265 | parsing a printed nested name, with any template arguments and followed by any text without a newline, returns its components, their template flags and that text |
| Itanium.SkipPrinted | src/llvm/utils/extract_symbols.py:192-222 | skipping a printed template argument list leaves exactly what follows it |
| Itanium.ComponentsPrinted | src/llvm/utils/extract_symbols.py:246-262 | the loop over the parts of a name appends their components |
| Itanium.PrefixSkipped | src/llvm/utils/extract_symbols.py:232-242 | the leading substitution and qualifiers are skipped, and nothing else |
| Itanium.SkipItaniumTemplate | src/llvm/utils/extract_symbols.py:192-222 | on any string, the loop terminates and returns what the recursive skipper returns |
| Itanium.ParseItaniumNestedName | src/llvm/utils/extract_symbols.py:227-265 | on any string, the loop terminates, in mutual recursion with that of template arguments, and returns what the recursive parser returns |
| Itanium.ParseSourceName | src/llvm/utils/extract_symbols.py:169-176 | a length-prefixed identifier, whatever characters it has, is split off exactly |
| Itanium.ParseCtorDtor | src/llvm/utils/extract_symbols.py:178-180 | constructor and destructor codes |
| Itanium.MatchSourceName | src/llvm/utils/extract_symbols.py:171-176 | the digits of a length are told from the identifier after them |
| Itanium.SourceNameInjective | src/llvm/utils/extract_symbols.py:154 | length-prefixed names determine the identifier |
| Itanium.KeptSymbols | src/llvm/utils/extract_symbols.py:133-158 | of the symbols that mangle a nested name, exactly those in namespace llvm or clang are kept, without their calling convention decoration |
| Itanium.PlainIsKept | src/llvm/utils/extract_symbols.py:138-139 | of all symbols: one that begins with neither an underscore nor a dot is kept |
| Itanium.OtherManglingIsDropped | src/llvm/utils/extract_symbols.py:141-143 | any other one that does not mangle a nested name is dropped |
| Itanium.FailureDecides | src/llvm/utils/extract_symbols.py:146-151 | one that is too complex is dropped, and one that cannot be parsed is kept |
| Itanium.ExpressionIsDropped | src/llvm/utils/extract_symbols.py:213-215 | an expression among template arguments makes any name too complex, whatever is before and after it |
| Itanium.EndlessIsKept | src/llvm/utils/extract_symbols.py:246-265 | a name without an end, and without template arguments or without a letter that begins an expression, cannot be parsed |
| Itanium.ParsedHasEnd | src/llvm/utils/extract_symbols.py:227-265 | on any string: what is parsed has an end, and what is too complex has a template and an expression |
| Itanium.MatchNumberIs | src/llvm/utils/extract_symbols.py:171 | the pattern of a length: it matches if and where it should, with the longest digits |
| Itanium.MatchSubstitutionIs | src/llvm/utils/extract_symbols.py:204 | likewise the pattern of a substitution |
| Itanium.SkipQualifiersIs | src/llvm/utils/extract_symbols.py:240-242 | and that of qualifiers |
| Itanium.ParseNameIs | src/llvm/utils/extract_symbols.py:169-188 | the three patterns of a name, in the order in which they are tried |
| Itanium.ClassesAre | src/llvm/utils/extract_symbols.py:171-240 | the characters that these patterns admit |
| Itanium.PrintedExample | src/llvm/utils/extract_symbols.py:227-265 | the letters of a printed name |
| DemangleTree.Go | src/llvm/utils/demangle_tree.py:167-195 | for any chunk size: a result is missing exactly if there are object files in the current directory itself; otherwise the cumulative result describes all object files of the walk, and every directory of the walk with object files is reported once, in walk order, with a result that describes its own files, and every other one with zeros |
| DemangleTree.TotalDescribes | src/llvm/utils/demangle_tree.py:55-82 | what describes means: the number of files, the number of lines with a symbol in those that do not crash, as failures exactly the mangled names in such lines that say that the name is invalid, and as crashes exactly the files that crash, in order |
| DemangleTree.PrintedIsReport | src/llvm/utils/demangle_tree.py:167-183 | from the rows printed to what was found in the walk |
| DemangleTree.FilesAreAll | src/llvm/utils/demangle_tree.py:167-178 | the files processed are all object files of the walk, directory by directory |
| DemangleTree.GoAndSummarize | src/llvm/utils/demangle_tree.py:167-226 | the run with its summary ends in an error exactly if there are object files in the current directory itself, or no object file has a symbol; otherwise the summary has the numbers of a total that describes all object files, and the shares are these numbers divided, between 0 and 1 |
| DemangleTree.Summarize | src/llvm/utils/demangle_tree.py:199-223 | the division fails exactly for no symbols or no files; successes and failures add up to all symbols |
| DemangleTree.SumBounds | src/llvm/utils/demangle_tree.py:55-82 | names that could not be demangled are no more than the symbols, crashed files no more than the files |
| DemangleTree.FoundDot | src/llvm/utils/demangle_tree.py:172-181 | the condition, in terms of the walk |
| DemangleTree.CurrentDirectoryFails | src/llvm/utils/demangle_tree.py:134-138 | for instance a walk of the current directory with a single object file in it |
| DemangleTree.TakenIsPlaced | src/llvm/utils/demangle_tree.py:103-138 | some file of a chunk has no result to be added to exactly if the chunk has files of the current directory |
| DemangleTree.MapContext.ProcessOneChunk | src/llvm/utils/demangle_tree.py:97-154 | keeps the account of all directories, done, cut and pending, and takes a full chunk or all that is left; fails only on files of the current directory |
| DemangleTree.MapContext.ProcessPendingFiles | src/llvm/utils/demangle_tree.py:157-159 | leaves less than a chunk pending |
| DemangleTree.MapContext.AddDir | src/llvm/utils/demangle_tree.py:184-190 | one directory of the walk |
| DemangleTree.MapContext.AddEmptyDir | src/llvm/utils/demangle_tree.py:180-182 | a directory without object files is reported at once |
| DemangleTree.MapContext.TakeObjects | src/llvm/utils/demangle_tree.py:98-128 | takes the next files in order, across directories; only the last directory can be incomplete |
| DemangleTree.MapContext.TakeDir | src/llvm/utils/demangle_tree.py:103-128 | one directory of a chunk: its result is new, or the one left over |
| DemangleTree.MapContext.ProcessObjects | src/llvm/utils/demangle_tree.py:132-154 | adds the files to their directories, keeps the result of an incomplete directory and reports the others; fails exactly if a directory of the chunk is the current one |
| DemangleTree.MapContext.Report | src/llvm/utils/demangle_tree.py:150-154 | each completed directory is added and printed once, with its total |
| DemangleTree.MapContext.NothingLeft | src/llvm/utils/demangle_tree.py:192-197 | when nothing is pending, everything is in the cumulative result |
| DemangleTree.AddToDirs | src/llvm/utils/demangle_tree.py:134-138 | every processed file is added to the result of its directory and to no other; fails exactly if some file has no such result |
| DemangleTree.ProcessFile | src/llvm/utils/demangle_tree.py:55-75 | the result of one file, line by line |
| DemangleTree.FailuresAre | src/llvm/utils/demangle_tree.py:66-75 | a name is a failure exactly if a line of a file that does not crash has it and contains the words that say so |
| DemangleTree.CrashesAre | src/llvm/utils/demangle_tree.py:61-64 | the crashes are the files that crash, in order and as often as they occur |
| DemangleTree.PrintedLineIsRead | src/llvm/utils/demangle_tree.py:22-35 | a line with a name and a text in parentheses is read as the two, also if the text has parentheses of its own |
| DemangleTree.UnclosedLosesLast | src/llvm/utils/demangle_tree.py:30-34 | without a closing parenthesis the text loses its last character |
| DemangleTree.StripIs | src/llvm/utils/demangle_tree.py:35 | only spaces are stripped |
| DemangleTree.TakeProgress | src/llvm/utils/demangle_tree.py:103-128 | taking files from one directory leaves the account of the others unchanged |
| DemangleTree.Processed | src/llvm/utils/demangle_tree.py:135-138 | the files taken before and in this chunk add up to the total of the files so far |
| DemangleTree.TotalAppend | src/llvm/utils/demangle_tree.py:78-82 | totals of consecutive files add up |
| ShuffleSelect.GenInsts | src/llvm/utils/shuffle_select_fuzz_tester.py:305-348 | for any choices: the instructions and the value left, named by the last one, are exactly those that the choices make, a shuffle per turn and a select per blend; whatever undef becomes, they run, so operands are defined before use and no name is defined twice, and every lane of the value not marked -1 has the expected value; without undef in the masks and -1 in the inputs, no lane is marked |
| ShuffleSelect.TakeTurn | src/llvm/utils/shuffle_select_fuzz_tester.py:311-346 | one shuffle, perhaps with a select, keeps all available values sound; the new value replaces the two operands of the shuffle |
| ShuffleSelect.TurnLeftIs | src/llvm/utils/shuffle_select_fuzz_tester.py:311-346 | a turn uses up exactly the two operands of its shuffle, adds its own value at the end, and keeps all others in order |
| ShuffleSelect.MadeSize | src/llvm/utils/shuffle_select_fuzz_tester.py:305-348 | the choices make one shuffle per turn and one select per blend, and the value of the last turn is left |
| ShuffleSelect.NothingIsMarked | src/llvm/utils/shuffle_select_fuzz_tester.py:159-218 | if no input lane is -1 and no mask lane is undef, no lane of any value left is marked -1 |
| ShuffleSelect.OneMoreInstr | src/llvm/utils/shuffle_select_fuzz_tester.py:311-341 | a new instruction on sound operands runs, and agrees with its computed value |
| ShuffleSelect.CalcShuffle | src/llvm/utils/shuffle_select_fuzz_tester.py:159-177 | the expected value of a shuffle |
| ShuffleSelect.CalcSelect | src/llvm/utils/shuffle_select_fuzz_tester.py:201-218 | the expected value of a select |
| ShuffleSelect.GenInputs | src/llvm/utils/shuffle_select_fuzz_tester.py:222-234 | the inputs, none of whose elements is the undef mark; they are all different exactly if they fit |
| ShuffleSelect.DifferentIffTheyFit | src/llvm/utils/shuffle_select_fuzz_tester.py:3-12 | the elements of all inputs are different, as the description says, exactly if they are no more than the values of the element type; floating-point elements always are |
| Numbering.DifferentIffTheyFit | src/llvm/utils/shuffle_select_fuzz_tester.py:222-234 | consecutive numbers of lanes, from any first one, are different modulo m exactly if they are at most m |
| ShuffleSelect.TextInjective | src/llvm/utils/shuffle_select_fuzz_tester.py:142-143 | different values are printed under different names |
| ShuffleIR.ShuffleAgrees | src/llvm/utils/shuffle_select_fuzz_tester.py:164-176 | a shuffle of operands that agree with their expected values agrees with the expected shuffle |
| ShuffleIR.SelectAgrees | src/llvm/utils/shuffle_select_fuzz_tester.py:206-217 | likewise for a select, also where an undef condition picks either operand |
| ShuffleIR.Example | src/llvm/utils/shuffle_select_fuzz_tester.py:164-217 | concrete shuffles and selects: how lanes are numbered, and which operand a condition takes |
| ShuffleTree.EmitTree | src/llvm/utils/shuffle_fuzz.py:215-241 | the printed shuffles are those of the tree, level by level; whatever undef becomes, they run, and the returned value agrees with the symbolic evaluation in every lane not marked -1; if no input lane is -1, a lane is marked exactly if its value depends on what undef becomes |
| ShuffleTree.EmitLevel | src/llvm/utils/shuffle_fuzz.py:215-233 | the shuffles of one level, after those below |
| ShuffleTree.MarkedDepends | src/llvm/utils/shuffle_fuzz.py:166-180 | a lane is marked -1 exactly if two choices for undef give it different values |
| ShuffleTree.EvaluateTree | src/llvm/utils/shuffle_fuzz.py:164-180 | the evaluation, level by level, ends with exactly one value |
| ShuffleTree.OneMorePosition | src/llvm/utils/shuffle_fuzz.py:215-233 | one more printed shuffle keeps all values of its level and the one below sound |
| ShuffleTree.LevelIsShuffled | src/llvm/utils/shuffle_fuzz.py:166-176 | the comprehension computes the expected shuffle of two neighbours |
| ShuffleTree.GenInputs | src/llvm/utils/shuffle_fuzz.py:160-163 | the inputs, none of whose elements is the undef mark; they are all different exactly if they are no more than the values of the element type |
| ShuffleTree.TextInjective | src/llvm/utils/shuffle_fuzz.py:219-227 | different values are printed under different names |

## Left out

- Starting processes, files other than those named above, argument parsing, printing and colours, in all scripts.
- NinjaDeps.CheckDependencies: the text of `ninja -t graph` is not parsed, and the graph is given as vertices, edges and labels; which of several topological orders the sort yields is open, as it is in the script, which takes ready vertices from a set.
- TokenDelta: the tokens come from `clang -dump-raw-tokens`, whose output is not parsed; the log on the terminal is not modelled.
- Pipeline.Item: where the script copies a list in brackets without a name, it replaces the empty name by None; the model keeps it, as both are false and no function tells them apart.
- ReducePipeline: the expansion of the pipeline by a first run of `opt` (step -1) and the copy of the final input to an output file.
- CaseFold: the lines of the database are given as entries with status, character and mapping (their regular expression is not modelled), and characters are unbounded integers.
- McaOutput.CheckRuns: run lines with the same arguments and prefixes, which share one dictionary key in the script, are separate lists here; the output of the tool is given as blocks of lines.
- McaBlocks.CheckLines: the layout of the written checks, prefixes that occur in a `-NOT` check, the test for unused prefixes, and line separators other than a newline.
- AbBisect.CheckSequentially: tests in list order, where the script sorts the choices first; the result is a set. The sanity checks before the search are not modelled.
- AbFunctions: a file is a sequence of lines ending in a newline, with the marker of each line already found; the warnings about missing ends are not modelled.
- Itanium.ParsePrinted: covers names, nested names, templates, substitutions and plain one-letter types as template arguments; operator names, function types and packs, for which the script calls itself imprecise, are parsed by the same code but have no printed form here. `\d` matches ASCII digits only. Microsoft mangling and the selection of symbols across libraries are not modelled.
- DemangleTree.MapContext: results are values, so that adding to a result in place, and the script's sharing of one result object between a dictionary and the context, is not captured; the files of a chunk are processed one after the other; a path is the directory part of its normal form and a name, and the roots of the walk are different normal forms, which are never empty.
- DemangleTree.ProcessFile: the output of `llvm-objdump` is given as lines, and the test of file extensions is a parameter; the shares are real numbers.
- ShuffleSelect.GenInsts: the expected value of an instruction is computed when it is made, so the script's test against computing it twice is not modelled; floating-point elements are integers; an undef lane has one arbitrary value per instruction, not a new one at each use.
- ShuffleTree.EmitTree: the probabilities of undef, and the wrapper and check functions that are printed around the shuffles.
- The other scripts, headers and sources of the import: user interface, plumbing, or easier algorithms.
