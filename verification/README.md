# Proofs about the mojotrees tooling

mojotrees keeps its gradient-boosting engine in Mojo and a set of Python tools beside it
that decide whether a change may ship: static checks over the Mojo source, baseline files
that may only shrink or that only a person may extend, registers of checksums and of the
public surface, and benchmark data generators that several drivers must reproduce bit for
bit. This project models the tools and proves what their verdicts mean.

`dafny verify dfyconfig.toml` checks everything.

| file | tool | main results |
|---|---|---|
| `ReadCode`, `GuardScan`, `GuardTree`, `GuardLayout`, `GuardLines`, `GuardCheck`, `GuardReport` | `tools/check_gpu_guards.py` | Mojo source as a statement tree with a semantics of compile-time elaboration; which line sequences are such a tree, told by one pass over the columns; the indentation scan names exactly the guards that drop a line; a silent check means that nothing dangerous is elaborated; the lines that fail are told from the lines alone |
| `Stripper` | `tools/connectivity_audit.py` | the find-driven stripper is a character automaton, its output is clean, a text is fixed exactly when it is clean |
| `Reachability` | `tools/connectivity_audit.py` | both worklists compute path reachability on any graph; the orphan audit reports exactly the unreachable modules, and more imports never add one |
| `SplitMix`, `Datasets`, `DatasetValues` | `bench/*.py`, `examples/install_smoke.py` | the mixer is a bijection with an explicit inverse; counter form and threaded form are one stream; draws repeat exactly every 2^64; two data-set layouts are the same matrix |
| `Ranking`, `RankingData` | `bench/compare_ranking.py` | every row is graded once, by its rank; grades follow utility; the split by queries is exact |
| `Snapshot`, `SortedKeys`, `SnapshotFile` | `tools/api_snapshot.py` | `diff` is an exact patch; an empty difference means equality up to dictionaries without a leaf, and only that; what a silent check says; carried blocks survive every run |
| `ObjectiveIdentity` | `tools/api_snapshot.py` | rules I12 and I13 are silent exactly when codes identify objectives |
| `ReferenceSites`, `CoverageFile`, `CoverageLists`, `CoverageMechanisms`, `CoverageText` | `tools/check_path_coverage.py` | two readers of docstrings agree exactly on regular lines; reading undoes writing exactly when no line is ambiguous; no run classifies a name that was in neither list, and both lists stay as they are exactly when no name is in brackets; for every baseline, what a check after a write reports |
| `FixtureRegister`, `FixtureContent` | `tools/model_fixture_manifest.py` | `compare` is silent exactly on equal registers; a digest stands over every run that keeps its evidence |
| `Splitters`, `TableRow` | `tools/check_parity.py`, `tools/default_argument_audit.py` | two independent splitters agree; call arguments are the balanced text; table rows round-trip exactly for plain cells |
| `IsaScan` | `packaging/isa_baseline.py` | what a clean, readable scan says; hit counts are conserved; allowing more never makes a clean object dirty, and raises one count exactly when an instruction passes on to it |

`Prelude`, `Text` and `Sorting` hold the string methods and `sorted()` that the tools are
written in, and `Reporting` the order in which they report.

Some claims one would like to make are false of the code. Each of these is stated with
the exact condition under which it holds, or with a concrete input that breaks it:

- `enclosing_def` names the right owner exactly when no other `def` left of the line comes
  between, and no `struct` left of the `def` stands between it and the struct around it
  (`GuardCheck.OwnerExactly`, `GuardCheck.OwnerByLines`). A hazard that is elaborated, other
  than a bare device context, escapes R1 exactly when some `struct` stands above and left of
  the `def` the scan picks (`GuardCheck.EscapesR1Exactly`), as below a closure
  (`GuardCheck.ClosureEscapes`).
- An empty difference does not mean equal snapshots: a method without parameters is recorded
  as an empty dictionary, and comes and goes without a row (`Snapshot.ParameterlessUnseen`).
  It means equality up to dictionaries without a leaf, where no key continues another one
  after a dot (`Snapshot.EmptyDiffExactly`); otherwise a dotted key reads as nesting
  (`Snapshot.DotsReadAsNesting`), and an empty key at the top disappears
  (`Snapshot.EmptyKeyDisappears`).
- A check straight after a write of the same build has rows to report when the order of the
  keys decides the value of a path, because the file's keys are in order and the build's are
  not (`SnapshotFile.OrderDecides`). It is silent exactly when putting the keys in order
  leaves the build's flat form outside `meta` as it is (`SnapshotFile.WriteThenCheckExactly`),
  so whenever no key continues another one (`SnapshotFile.WriteThenCheck`), as in today's
  snapshot.
- `--write` of the fixture tool keeps the record of a file exactly when the last row with its
  id that has any file has this one, not empty (`FixtureRegister.WriteKeepsExactly`). To be
  declared, present and not empty is enough where ids are distinct
  (`FixtureRegister.PresentIsEvident`), but not where two rows share one, which the
  declaration check notes and a write does not mind (`FixtureRegister.DoubledDrops`).
- `write_baseline` of the coverage tool does not bring back a name or a mechanism line in
  brackets, nor the sites of a mechanism without a label (`CoverageFile.RoundTripExactly`).
  A recorded name that reads as a section header moves the names after it: a body after a
  recorded `[NOTBODIES]` becomes none (`CoverageLists.BodyBecomesNotbody`). A write adds to a
  list exactly when some name moves (`CoverageLists.NothingAddedExactly`).
- The coverage tool says that it cannot invent a mechanism, but a name after a recorded
  `[MECHANISMS]` comes back as one (`CoverageMechanisms.BodyBecomesMechanism`). A write adds
  no label exactly when every such name has the label of a recorded mechanism
  (`CoverageMechanisms.NoLabelAddedExactly`).
- `split_by_query` asked for no validation query holds out every query
  (`Ranking.HeldOutExactly`).
- The data sets repeat a word as soon as they hold more than 2^64 values
  (`Datasets.DistinctExactly`).
- A query shows all five grades only from five documents up (`Ranking.SpreadExactly`);
  the generator's default smallest query has four.
- The sites of a symbol are meant to leave docstrings out, but a docstring that opens and
  closes on one line is searched (`ReferenceSites.OneLineDocstringSearched`,
  `ReferenceSites.SearchedExactly`), and a line that holds
  its only three quotes past its start divides the two tools' idea of a docstring
  (`ReferenceSites.ReadersAgreeExactly`).
- The label noise of the ranking data shares words with its features once there are more
  than 9 000 010 cells (`Ranking.NoiseSharedExactly`), and the size of query q is drawn from
  the word of feature cell q - 7 (`Ranking.SizeSharedExactly`).
- The comment in the scan says that its two counts must agree; the code only bounds the
  candidates that went unread (`IsaScan.ReadableMeans`), so a readable scan may have left one
  out (`IsaScan.UnreadButReadable`).
- Allowing a feature can raise the count of another one (`IsaScan.CountsMove`): exactly when
  the first rule that refused some instruction is now allowed, and the first that still
  refuses it has that feature (`IsaScan.CountRisesExactly`).
- A check after a write of the coverage baseline reports nothing but bodies that are gone
  exactly when every found name keeps a list, and a mechanism that comes back without sites,
  having no label or being made of a name, has none (`CoverageMechanisms.OnlyVanishedExactly`).
- A second write changes the file exactly when both writes go through and something was in
  brackets (`CoverageMechanisms.WriteTwiceExactly`).

## Model

| member | source | states |
|---|---|---|
| ReadCode.ReadFile | tools/check_gpu_guards.py:135-154 | the reading loop keeps, line by line, what the docstring state and the comment cut leave |
| ReadCode.LineForLine | tools/check_gpu_guards.py:127-154 | line numbers and columns survive: each line is blank or its text up to the first `#`, at its own column |
| ReadCode.DocstringBlanked | tools/check_gpu_guards.py:141-152 | from a line that opens a docstring to the first later line that closes it everything is blank, and reading resumes after it |
| ReadCode.FixedExactly | tools/check_gpu_guards.py:135-154 | a file is read unchanged exactly when no line holds a comment or starts a docstring |
| ReadCode.ReadTwice | tools/check_gpu_guards.py:135-154 | what was read reads as itself |
| ReadCode.ReadAt | tools/check_gpu_guards.py:135-154 | each line is blank in a docstring or where one opens, and cut otherwise |
| ReadCode.CutExactly | tools/check_gpu_guards.py:153 | the cut is at the first `#` |
| ReadCode.OpensExactly | tools/check_gpu_guards.py:147 | a docstring opens with three quotes, after an `r` or not, and after blanks only |
| ReadCode.StaysOpenExactly | tools/check_gpu_guards.py:147-150 | ... and stays open exactly when no three quotes follow on the line |
| GuardScan.EnclosingDef | tools/check_gpu_guards.py:161-179 | the backward scan finds the specified owner |
| GuardScan.EnclosingMeaning | tools/check_gpu_guards.py:161-179 | the owner is the nearest `def` left of the line, and there is none exactly when no `def` stands left of it |
| GuardScan.IsGuarded | tools/check_gpu_guards.py:182-217 | the nested scan answers whether some guard line after the start discards the line |
| GuardTree.ReachedExactly | tools/check_gpu_guards.py:182-217 | a build without an accelerator leaves a line out exactly when a two-armed guard drops it or a positive guard without `else` hides it |
| GuardTree.ScanExact | tools/check_gpu_guards.py:189-217 | on every well-indented program, a guard discards a line in the scan exactly when the line is nested, at any depth, in the arm that the guard drops; a guard without `else` never does |
| GuardLayout.PrintedExactly | tools/check_gpu_guards.py:182-217 | a file is well indented, the print of a statement tree, exactly when one pass over its lines finds every dedent at the column of an open block and every `else` below a statement without one; the tree that is then built prints back as the file |
| GuardLines.ReachedByLines | tools/check_gpu_guards.py:182-217 | on every well-indented file, whatever tree it prints, a line is elaborated exactly when no guard above it has it among the lines indented below the guard, or below its `else`, that the compiler drops |
| GuardCheck.GuardedExact | tools/check_gpu_guards.py:182-217 | `is_guarded` holds exactly when some two-armed guard below the start drops the line |
| GuardCheck.OwnerExact | tools/check_gpu_guards.py:161-179 | on files without nested definitions the scan finds the function, and the struct, that own a body line |
| GuardCheck.PrunersInFunction | tools/check_gpu_guards.py:182-188 | on flat files the guards that drop a line stand inside its function, so bounding the search at the `def` loses none; GuardCheck.FalseAlarmExactly says for all files when it does |
| GuardCheck.OwnerIsDef | tools/check_gpu_guards.py:161-179 | with nested definitions too, the true owner is a `def` line left of and above the line |
| GuardCheck.OwnerExactly | tools/check_gpu_guards.py:161-179 | with nested definitions, the scan is right exactly when no other `def` left of the line comes between, and after the struct around the owner no `struct` stands left of it, unless the last that does bears the same name |
| GuardCheck.OwnerByLines | tools/check_gpu_guards.py:161-179 | where struct names differ, exactly when none stands there at all |
| GuardCheck.OwnerStruct | tools/check_gpu_guards.py:172-178 | the struct of the true owner is the line of the innermost struct around its `def` |
| GuardCheck.DevCtxOnly | tools/check_gpu_guards.py:223-224 | the kind text `devctx`, which R1 exempts, means a bare device context and nothing else |
| GuardCheck.HazardSites | tools/check_gpu_guards.py:220-243 | one record per hazard line, in order, with owner, kind text, scope and guard verdict; GuardReport says what each field is |
| GuardCheck.SiteExact | tools/check_gpu_guards.py:220-243 | for a function of a flat file the record is the truth: right owner, and unguarded exactly when elaborated or hidden by a one-armed positive guard |
| GuardCheck.CheckModuleLevel | tools/check_gpu_guards.py:448-456 | R1 reports, in order, exactly the unguarded module-level sites that are not a bare device context |
| GuardCheck.CheckStructs | tools/check_gpu_guards.py:458-469 | R2 reports, in order, exactly the unguarded method sites whose key is not in the baseline, with that key |
| GuardCheck.Check | tools/check_gpu_guards.py:393-469 | the list of failures, in order: R1 over all sites, then R2; empty exactly when every site of every library file passes |
| GuardCheck.ReachedUnguarded | tools/check_gpu_guards.py:182-243 | on any well-indented file, nested definitions or not, a line that is elaborated is never recorded as guarded, whatever owner the scan takes |
| GuardCheck.SilentIsSafe | tools/check_gpu_guards.py:393-469 | end to end, for any well-indented file: if R1 and R2 are silent, every hazard line that a build without an accelerator elaborates is a bare device context of no struct, or in the baseline under the key the scan gives it |
| GuardCheck.SilentByLines | tools/check_gpu_guards.py:393-469 | ... the same, asked of the lines alone: the pass over the columns succeeds and no guard above drops the hazard line |
| GuardCheck.SilentIsSafeFlat | tools/check_gpu_guards.py:393-469 | for flat files, in terms of the program: no launch and no architecture query of a module-level function is elaborated, and every elaborated hazard of a method is in the baseline under that method |
| GuardCheck.EscapesR1Exactly | tools/check_gpu_guards.py:220-243 | an elaborated hazard other than a bare device context goes unreported by R1 exactly when some `struct` stands above and left of the `def` the scan picks |
| GuardCheck.FalseAlarmExactly | tools/check_gpu_guards.py:182-243 | on any well-indented file, a hazard is recorded as unguarded though it is not elaborated exactly when a one-armed guard hides it or guards drop it, and every guard that drops it stands at or above the `def` the scan picks |
| GuardCheck.ClosureIsReached | tools/check_gpu_guards.py:161-179 | a concrete file with a closure whose launch the compiler reaches and no struct owns |
| GuardCheck.ClosureEscapes | tools/check_gpu_guards.py:172-178 | on that file the scan names the struct above as owner, so R1 does not apply |
| GuardCheck.KeyIsPlain | tools/check_gpu_guards.py:246-250 | a key survives stripping and is neither empty nor a comment |
| GuardCheck.BaselineRoundTrip | tools/check_gpu_guards.py:382-390 | the baseline that was written is read back as the same set of keys |
| GuardCheck.WriteThenCheck | tools/check_gpu_guards.py:416-469 | after a write every method site passes; and where a check passed before, the written baseline is no larger |
| GuardReport.KindTextMeans | tools/check_gpu_guards.py:96-100 | split at its commas, the kind text names exactly the hazards of the line, launches first, then device contexts, then architecture queries |
| GuardReport.KindTextTells | tools/check_gpu_guards.py:223-236 | different hazards never share a kind text |
| GuardReport.RecordInFunction | tools/check_gpu_guards.py:220-243 | what a record says when a `def` is picked: file, line number from one, hazards, the function's name, the last struct above it and left of it, and whether a guard below it discards the line |
| GuardReport.RecordOfModule | tools/check_gpu_guards.py:227-243 | ... and when none is |
| GuardReport.SitesExactly | tools/check_gpu_guards.py:220-243 | one record for every line with a hazard and no other |
| GuardReport.SitesInOrder | tools/check_gpu_guards.py:220-243 | the records stand in the order of their lines |
| GuardReport.CheckExactly | tools/check_gpu_guards.py:393-469 | told from the lines: the check reports something exactly when some line has a hazard that no guard below its `def` discards, and is outside any struct and more than a bare device context, or in one and not in the baseline under file, struct, function and hazards |
| GuardReport.FailureMeans | tools/check_gpu_guards.py:448-469 | every failure is of a line with a hazard, R1 for one of no struct and R2 with its key for one of a struct |
| GuardReport.LoadExactly | tools/check_gpu_guards.py:382-390 | what a baseline file says: blanks around a key do not matter, comments and blank lines say nothing |
| Reporting.RulesInOrder | tools/check_gpu_guards.py:446-469 | R1 before R2 |
| Sorting.SortedElems | tools/check_path_coverage.py:251-257 | sorted() loses nothing and invents nothing |
| Sorting.SortedOrder | tools/check_path_coverage.py:251-257 | ... and puts the names in strictly ascending order |
| Sorting.LeDecides | tools/check_path_coverage.py:251-257 | a beginning comes first, and otherwise the code point of the first character that differs decides |
| Text.SpacesAre | tools/check_path_coverage.py:211-219 | the characters that str.strip takes for blanks |
| Text.StripExactly | tools/check_path_coverage.py:211-219 | strip gives the one trimmed text that differs by blanks at the ends |
| Text.StartsWithExactly | tools/check_path_coverage.py:212-221 | str.startswith |
| Text.JoinSplit | tools/check_parity.py:647-650 | joining undoes splitting; with SplitJoin and SplitPieces, split is the only way to undo a join |
| Stripper.StripMojoComments | tools/connectivity_audit.py:605-643 | the loop that jumps from delimiter to delimiter terminates and equals a character-at-a-time automaton on every text |
| Stripper.QuotesAreTheirs | tools/connectivity_audit.py:632-636 | cutting a docstring never brings quotes together |
| Stripper.StrippedIsClean | tools/connectivity_audit.py:605-643 | the output holds no `#` and no three quotes |
| Stripper.FixedExactly | tools/connectivity_audit.py:605-643 | a text is unchanged exactly when it holds neither delimiter, and stripping is idempotent |
| Stripper.StripAppend | tools/connectivity_audit.py:605-643 | a text that ends outside comments and docstrings strips apart from what follows, unless quotes come together |
| Stripper.CodeStays | tools/connectivity_audit.py:626-643 | code without delimiters leaves itself |
| Stripper.CommentGoes | tools/connectivity_audit.py:637-642 | a comment leaves the newline that ends it |
| Stripper.DocstringGoes | tools/connectivity_audit.py:617-636 | a docstring leaves nothing, and code goes on right after its closing quotes |
| Stripper.OpenDocstringGoes | tools/connectivity_audit.py:617-624 | an unclosed docstring takes the rest of the text with it |
| Reachability.PushUnseen | tools/connectivity_audit.py:756-758 | what is appended is what has not been seen |
| Reachability.ReachableFrom | tools/connectivity_audit.py:747-759 | the closure terminates on every finite graph and is exactly what a path from a seed reaches |
| Reachability.MarkReached | tools/connectivity_audit.py:903-912 | a root's label goes to exactly the modules it reaches |
| Reachability.ShippedByLabel | tools/connectivity_audit.py:921-925 | a module carries no shipping label exactly when no shipping root reaches it |
| Reachability.AuditOrphans | tools/connectivity_audit.py:892-933 | an error exactly when an entry point is missing; else one finding for each unreachable module, in order, with the labels that do reach it; OrphanExactly and LabelsExactly say in terms of imports what that means |
| Reachability.OrphanExactly | tools/connectivity_audit.py:898-925 | a module is an orphan exactly when no chain of imports leads to it from any module of the package that a shipping root imports |
| Reachability.LabelsExactly | tools/connectivity_audit.py:903-919 | a label is given exactly when a root of that name has such a chain |
| Reachability.DirectImportShips | tools/connectivity_audit.py:903-912 | what a shipping root imports itself is no orphan |
| Reachability.FindingsAt | tools/connectivity_audit.py:922-933 | one finding for each orphan, in their order, with the labels that reach it in ascending order |
| Reachability.BindingExactly | tools/connectivity_audit.py:1319-1338 | a binding module is reached exactly when a chain of imports through existing files leads to it from the entry point |
| Reachability.MoreImportsFewerOrphans | tools/connectivity_audit.py:892-933 | adding import edges never creates an orphan |
| Reachability.ReachedBindings | tools/connectivity_audit.py:1319-1338 | the worklist that reads files as it reaches them computes the same closure, unreadable files included |
| SplitMix.XorShiftUndone | bench/bench_lightgbm.py:121-123 | every xor-shift by 22 bits or more, so 27, 30 and 31, has an explicit left inverse |
| SplitMix.XorShiftRedone | bench/bench_lightgbm.py:121-123 | ... which is also a right inverse |
| SplitMix.MulUndone | bench/bench_lightgbm.py:121-122 | multiplication modulo 2^64 by a constant is undone by its inverse |
| SplitMix.XorDigits | bench/bench_lightgbm.py:121-123 | xor works on each binary digit: the last ones differ or not, and the rest is the xor of the rest |
| SplitMix.ShrIsDiv | bench/bench_lightgbm.py:121-123 | a shift to the right by k is a division by 2^k |
| SplitMix.MixIs | bench/bench_lightgbm.py:118-123 | the mixer with its shifts as divisions by 2^30, 2^27 and 2^31 and its two constants written out |
| SplitMix.MixBijective | bench/bench_lightgbm.py:118-123 | the mixer is a bijection on 64-bit words, with the inverse given |
| SplitMix.SplitMixBijective | bench/bench_custom_objective.py:41-45 | counters give one word exactly when they agree modulo 2^64, and every word has a counter |
| SplitMix.Mantissa | bench/bench_lightgbm.py:126-127 | the mantissa of a word is below 2^53 |
| SplitMix.MantissaIs | bench/bench_lightgbm.py:126-127 | ... and is the word divided by 2048 |
| SplitMix.ScaleRange | bench/bench_lightgbm.py:126-127 | every uniform is k/2^53 with 0 <= k < 2^53 |
| SplitMix.UniformIs | bench/bench_lightgbm.py:118-127 | the uniform of a counter, from the mixed sum of counter and constant and literals alone |
| SplitMix.StateIsCounter | examples/install_smoke.py:88-95 | the state after n draws is seed + n * gamma modulo 2^64 |
| SplitMix.StreamIsCounter | examples/install_smoke.py:88-95 | each draw of the threaded generator is the counter form, n steps of gamma on |
| SplitMix.NoRepeat | examples/install_smoke.py:88-95 | two draws share a state, or a word, exactly when they are a multiple of 2^64 draws apart |
| Datasets.MakeData | bench/bench_lightgbm.py:134-163 | the column loop fills every cell from its own counter, and each label from its row and the noise counters after the last column |
| Datasets.SameMatrix | bench/bench_custom_objective.py:48-56 | the reshaped and transposed run of counters is the column loop's matrix at seed 0 |
| Datasets.SameLabel | bench/bench_custom_objective.py:57-62 | the two labels differ by the noise term alone |
| Datasets.NoiseIsAColumn | bench/bench_lightgbm.py:153-157 | the noise counters continue the feature counters as one more column |
| Datasets.DistinctExactly | bench/bench_lightgbm.py:149-157 | all cells and noise draws have distinct words exactly when n_rows * (n_features + 1) <= 2^64 |
| Datasets.FirstComesBack | bench/bench_lightgbm.py:149-157 | beyond that the first word comes back, at a cell that is given |
| Datasets.DrawRow | examples/install_smoke.py:108-112 | a row and its noise are consecutive values of the counter form |
| Datasets.BeforeIs | examples/install_smoke.py:107-112 | row r starts at value r * (n_features + 1) |
| Datasets.SmokeData | examples/install_smoke.py:98-121 | the threaded state gives every row and noise as stretches of the counter form |
| DatasetValues.SeedSteps | bench/bench_lightgbm.py:149 | a seed moves every counter by that many steps of the threaded generator |
| DatasetValues.CellIsDraw | bench/bench_lightgbm.py:149-153 | so each cell is the draw after `seed` others that starts from its own place |
| DatasetValues.NoiseIsDraw | bench/bench_lightgbm.py:157 | ... and each noise value too, from the places after the last column |
| DatasetValues.SignalMeans | bench/bench_lightgbm.py:156 | the signal is zero at its centre, grows by 5 with the first feature, by 4 times the one with the other of the next two, and by 3 with the squared distance of the fourth from a half |
| DatasetValues.NoiseMeans | bench/bench_lightgbm.py:162 | the label adds a tenth of the centred noise |
| Ranking.MatrixAt | bench/compare_ranking.py:76-77 | cell (i, f) of the reshaped matrix is the uniform of counter f * n_rows + i past the base |
| Ranking.FeaturesDistinctExactly | bench/compare_ranking.py:76-77 | the feature cells use distinct words exactly when there are at most 2^64 |
| Ranking.NoiseSharedExactly | bench/compare_ranking.py:76-81 | for every size of the data set, a noise draw shares its word with a feature exactly when there are more than 9 000 010 feature cells |
| Ranking.SizeSharedExactly | bench/compare_ranking.py:69-77 | query q and a feature cell share a word exactly when the cell is number q - 7 modulo 2^64; so some do exactly when there are a cell and more than seven queries, or a query and more than 2^64 - 7 cells |
| Ranking.SizeInRange | bench/compare_ranking.py:70-73 | a query has between docs_lo and docs_hi documents |
| Ranking.RankOfIndex | bench/compare_ranking.py:94 | the stable sort is a permutation: the row at index r is beaten by exactly r rows |
| Ranking.IndexOfRank | bench/compare_ranking.py:94 | ... and every row stands at its rank |
| Ranking.RoundNearest | bench/compare_ranking.py:96 | rounding is to a nearest integer, and to the even one of two |
| Ranking.GradesFall | bench/compare_ranking.py:95-96 | grades run from 4 down to 0 and never rise with the rank |
| Ranking.SpreadExactly | bench/compare_ranking.py:88-97 | a query shows all five grades exactly when it has at least five documents |
| Ranking.GradeQuery | bench/compare_ranking.py:93-97 | the scatter gives each row of a query the grade of its rank and touches no other row |
| Ranking.GradeAll | bench/compare_ranking.py:90-98 | after the loop every query is graded over its own rows |
| Ranking.MakeRankingData | bench/compare_ranking.py:63-99 | sizes, features and labels of the whole data set |
| Ranking.OneOwner | bench/compare_ranking.py:91-98 | every row belongs to exactly one query, so it is graded once |
| Ranking.LabelsFollowUtility | bench/compare_ranking.py:88-98 | labels are 0 to 4, the best document gets 4, and a larger utility never gets a smaller label |
| Ranking.SplitKeepsQueries | bench/compare_ranking.py:101-109 | for any number asked for, both parts put together are the data, group sizes sum to rows on each side, and no query has rows on both |
| Ranking.HeldOutExactly | bench/compare_ranking.py:101-109 | as many queries as asked for are held out and some are left exactly when the number is at least one and below all; none asked for holds out all |
| RankingData.BaseSteps | bench/compare_ranking.py:69 | the base of a seed grows by 1 000 003 with each, modulo 2^64 |
| RankingData.SizeExactly | bench/compare_ranking.py:70-73 | a query's size is the smallest allowed plus the rest of its word modulo the number of sizes |
| RankingData.CellExactly | bench/compare_ranking.py:76-77 | each feature cell is the uniform of its counter, written out |
| RankingData.UtilityExactly | bench/compare_ranking.py:79-86 | the utility of a row from its first three features and its own noise draw |
| RankingData.RankCounts | bench/compare_ranking.py:94 | the rank of a row is the number of rows that are more useful, or as useful and earlier |
| RankingData.RankOrder | bench/compare_ranking.py:94 | ranks follow utility, and ties keep the order of the rows |
| RankingData.GradeNearest | bench/compare_ranking.py:95-96 | the grade is the whole number nearest to the rank's point between 4 and 0, and the even one of two |
| RankingData.OnlyDocument | bench/compare_ranking.py:95-96 | a single document gets a 4 |
| RankingData.LabelExactly | bench/compare_ranking.py:88-97 | the label of a row, from the number of rows that come before it |
| RankingData.CutExactly | bench/compare_ranking.py:101-109 | for one query or more, the rows held out are those of the last queries, counted from the end of the labels, in features and labels alike |
| Snapshot.Diff | tools/api_snapshot.py:2067-2077 | every differing path gets one row, of the right kind, with both values |
| Snapshot.DiffIsPatch | tools/api_snapshot.py:2067-2077 | applying the rows to the old flat form gives the new one, and there are none exactly when the two are equal |
| Snapshot.DiffIsUndone | tools/api_snapshot.py:2067-2077 | taking the rows back from the new flat form gives the old one, so the old values in them are right |
| Snapshot.PruneFlat | tools/api_snapshot.py:2053-2064 | dictionaries without a leaf are invisible in the flat form |
| Snapshot.BelowKey | tools/api_snapshot.py:2053-2064 | what the flat form holds below a key is the flat form of its value, where keys are apart |
| Snapshot.FlattenInjective | tools/api_snapshot.py:2053-2064 | without leafless dictionaries, and where no key of either snapshot continues another one, the flat form determines the snapshot; dots in keys are allowed |
| Snapshot.EmptyDiffExactly | tools/api_snapshot.py:2053-2077 | an empty difference means exactly that the snapshots are equal up to dictionaries without a leaf |
| Snapshot.LeaflessUnseen | tools/api_snapshot.py:2053-2064 | a leafless dictionary put in anywhere leaves the flat form as it was, and the snapshot is no longer the same |
| Snapshot.ParameterlessUnseen | tools/api_snapshot.py:377-405 | a method without parameters is added and removed without a row |
| Snapshot.DotsReadAsNesting | tools/api_snapshot.py:2059-2061 | for every non-empty key k and every key m, `k.m` and `m` inside `k` flatten alike, so keys must be apart |
| Snapshot.EmptyKeyDisappears | tools/api_snapshot.py:2059-2061 | an empty key at the top disappears, whatever it holds |
| Snapshot.LocationsApart | tools/api_snapshot.py:1446-1460 | the dotted keys that every snapshot has do not continue one another |
| SortedKeys.SortSame | tools/api_snapshot.py:2200-2204 | writing with sorted keys loses and invents nothing: the snapshot read back is equal |
| SortedKeys.SortTwice | tools/api_snapshot.py:2200-2204 | ... and its keys stay in that order |
| SortedKeys.SortFlat | tools/api_snapshot.py:2053-2064 | where no key continues another one, the order of the keys makes no difference to the flat form |
| SnapshotFile.CarryAt | tools/api_snapshot.py:2156-2176 | every top-level block after carrying |
| SnapshotFile.CarriedExactly | tools/api_snapshot.py:2156-2176 | which blocks are carried, by their keys, each when it is there and not null, and that the meta block lists them in order |
| SnapshotFile.NullIsNotCarried | tools/api_snapshot.py:2161-2172 | a null block is not carried: the build's own stays |
| SnapshotFile.CarryKeeps | tools/api_snapshot.py:2156-2176 | what the previous snapshot held of the two carried blocks survives any build |
| SnapshotFile.CarryBuilt | tools/api_snapshot.py:2156-2176 | carrying gives a snapshot of the same form, with no key doubled |
| SnapshotFile.SnapshotTool.Write | tools/api_snapshot.py:2230-2248 | the new file is the build with the previous file's blocks carried, its keys in order |
| SnapshotFile.SnapshotTool.Check | tools/api_snapshot.py:2250-2258 | the reported rows are exactly the differing paths outside the meta block, and nothing is written |
| SnapshotFile.RowsExactly | tools/api_snapshot.py:2067-2077 | a difference holds a row exactly when it is the row of a differing path |
| SnapshotFile.WritesKeep | tools/api_snapshot.py:2156-2176 | over every run of writes a carried block keeps its first value, its keys put in order by the first write |
| SnapshotFile.CarryAgain | tools/api_snapshot.py:2233-2236 | carrying from the file just written, on the same build, changes no block but meta |
| SnapshotFile.OnlyMetaChanges | tools/api_snapshot.py:2156-2176 | carrying from what is being saved gives it back with another value of meta and nothing else changed |
| SnapshotFile.WriteThenCheckExactly | tools/api_snapshot.py:2200-2258 | for every build and file, a check straight after a write of the same build has no row to report exactly when putting the keys in order leaves the carried build's flat form outside meta as it is |
| SnapshotFile.WriteThenCheck | tools/api_snapshot.py:2200-2258 | ... which it does where no key of the carried build continues another one |
| SnapshotFile.OrderDecides | tools/api_snapshot.py:2053-2064 | a family of builds with such keys on which the check straight after the write has a row |
| SnapshotFile.SilentExactly | tools/api_snapshot.py:2250-2258 | the check is silent exactly when the file's meta is a block or absent and every other block agrees up to dictionaries without a leaf |
| ObjectiveIdentity.CheckNames | tools/api_snapshot.py:1714-1725 | I12 reports exactly the objectives whose canonical name does not resolve back, reserved aliases winning |
| ObjectiveIdentity.ReservedWins | tools/api_snapshot.py:1714-1717 | a name is looked up in the aliases overwritten by the reserved aliases |
| ObjectiveIdentity.GroupByCode | tools/api_snapshot.py:1749-1757 | every code lists its objectives in order, and I13 reports those without one |
| ObjectiveIdentity.CheckShared | tools/api_snapshot.py:1758-1766 | I13 reports exactly the codes with more than one objective, from the smallest up |
| ObjectiveIdentity.SortedAscending | tools/api_snapshot.py:1758 | the codes are put in ascending order, each once |
| ObjectiveIdentity.CheckObjectiveIdentity | tools/api_snapshot.py:1696-1766 | both rules together, and silence when a map is empty |
| ObjectiveIdentity.SilentExactly | tools/api_snapshot.py:1708-1766 | with both maps non-empty, silence is exactly: every objective has a code of its own and its canonical name resolves to it |
| ObjectiveIdentity.CodeRoundTrip | tools/api_snapshot.py:1696-1766 | then code to objective to name to objective to code is the identity, and no two objectives share a name |
| ReferenceSites.ScanFile | tools/check_path_coverage.py:165-179 | the pass over a file adds exactly the owners of its searched lines that use the symbol |
| ReferenceSites.FindSites | tools/check_path_coverage.py:158-180 | the sites of all files, sorted |
| ReferenceSites.SitesExactly | tools/check_path_coverage.py:158-180 | a site is the file and the owner of a searched line that uses the symbol |
| ReferenceSites.QuotesCount | tools/check_path_coverage.py:168 | the count of quotes is zero exactly without three quotes, and otherwise takes the leftmost and goes on after them |
| ReferenceSites.SitesArePlain | tools/check_path_coverage.py:178-180 | with ordinary file and owner names a site can be written to the baseline and read back |
| ReferenceSites.OpenOnce | tools/check_path_coverage.py:168-177 | a line that starts with three quotes leaves a docstring open exactly when it holds them once |
| ReferenceSites.ReadersAgreeExactly | tools/check_path_coverage.py:166-175 | this tool and the guard checker agree on what is inside a docstring exactly when no line outside one holds its only three quotes past its start |
| ReferenceSites.SearchedExactly | tools/check_path_coverage.py:166-179 | where they agree, the searched lines are those the guard checker reads, less whole-line comments, plus docstrings on one line |
| ReferenceSites.OneLineDocstringSearched | tools/check_path_coverage.py:166-179 | every docstring on one line is searched, and blanked by the guard checker |
| CoverageFile.ParseBaseline | tools/check_path_coverage.py:204-233 | one pass over the lines is the parser's fold; a missing file reads as empty |
| CoverageFile.ParsedIsTidy | tools/check_path_coverage.py:211-232 | whatever a file holds, what is read is trimmed, on one line, and no comment |
| CoverageFile.WriteBaseline | tools/check_path_coverage.py:236-262 | the printing loops write the specified text |
| CoverageFile.PrintedRead | tools/check_path_coverage.py:204-262 | what is read back from any written baseline: labels up to the first one in brackets, sites unless the label is empty |
| CoverageFile.RoundTripExactly | tools/check_path_coverage.py:204-262 | reading undoes writing, but for the recomputed sites, exactly when no name and no mechanism line is in brackets and an empty label has no sites |
| CoverageFile.WriteNeverClassifies | tools/check_path_coverage.py:236-262 | a rewritten file holds no name that was in neither list, even when it is ambiguous |
| CoverageFile.CheckFound | tools/check_path_coverage.py:330-342 | R1 reports, in order, exactly the found names in neither list |
| CoverageFile.CheckRecorded | tools/check_path_coverage.py:343-350 | R1 reports, in order, exactly the recorded bodies that are gone |
| CoverageFile.CheckMechanism | tools/check_path_coverage.py:353-372 | R2 reports a mechanism exactly when its site set changed, with what was gained and lost in order |
| CoverageFile.CheckReach | tools/check_path_coverage.py:352-372 | R2 over all mechanisms |
| CoverageFile.CoverageTool.Write | tools/check_path_coverage.py:302-326 | the write refuses exactly without mechanisms or with an unclassified body, and then changes nothing |
| CoverageFile.CoverageTool.Check | tools/check_path_coverage.py:328-372 | the check reports exactly the R1 and R2 failures, in order, and changes nothing |
| CoverageFile.CheckAfterWrite | tools/check_path_coverage.py:302-372 | without brackets in the baseline, a check after a write on the same sources reports exactly the recorded bodies that are gone and a mechanism without a label that has sites; CoverageMechanisms.CheckAfterAnyWrite says what it reports for every baseline |
| CoverageFile.WriteTwice | tools/check_path_coverage.py:236-262 | where no name and no mechanism line is in brackets, a second write leaves the file as it is; CoverageMechanisms.WriteTwiceExactly has the condition for every baseline |
| CoverageFile.RunsNeverClassify | tools/check_path_coverage.py:302-326 | over every run of writes and checks, over whatever sources, no name that was in neither list gets into one |
| CoverageLists.ListsExactly | tools/check_path_coverage.py:204-262 | for every baseline, which list each name is in after a write: decided by the last recorded name in brackets before it |
| CoverageLists.NothingAddedExactly | tools/check_path_coverage.py:204-262 | a write adds a name to a list exactly when some name moves, the other section's header being recorded before it in its own list |
| CoverageLists.BodyBecomesNotbody | tools/check_path_coverage.py:204-262 | a family of baselines on which a write turns a body into none |
| CoverageLists.PaddedHeaderIsAName | tools/check_path_coverage.py:211-219 | a file can record such a name: a header line that starts with a blank |
| CoverageLists.ListsKeptExactly | tools/check_path_coverage.py:204-262 | both lists come back as they were exactly when no name is in brackets |
| CoverageLists.RunsKeepListsExactly | tools/check_path_coverage.py:302-326 | over every run both lists are what they were exactly when no name is in brackets or no write goes through |
| CoverageMechanisms.MechanismsExactly | tools/check_path_coverage.py:204-262 | for every baseline, which mechanisms are read back after a write, and what each is: recorded labels before the first mechanism line in brackets, with their sites recomputed, and otherwise the last name that a recorded `[MECHANISMS]` turns into that label, without sites |
| CoverageMechanisms.NoLabelAddedExactly | tools/check_path_coverage.py:302-310 | a write adds no label exactly when every name that turns into a mechanism has the label of one |
| CoverageMechanisms.NoLabelLostExactly | tools/check_path_coverage.py:236-262 | ... and loses none exactly when those in brackets, and those after them, come from a name |
| CoverageMechanisms.BodyBecomesMechanism | tools/check_path_coverage.py:204-262 | a family of baselines on which a write turns a body into a mechanism |
| CoverageMechanisms.CheckAfterAnyWrite | tools/check_path_coverage.py:302-372 | for every baseline, exactly what a check reports straight after a write on the same sources |
| CoverageMechanisms.OnlyVanishedExactly | tools/check_path_coverage.py:302-372 | ... so only bodies that are gone exactly when every found name keeps a list and every mechanism that comes back without sites has none |
| CoverageMechanisms.WriteTwiceExactly | tools/check_path_coverage.py:236-326 | for every file, a second write on the same sources leaves the file as it is exactly when one of the two is refused or nothing was in brackets |
| CoverageText.NamesShape | tools/check_path_coverage.py:249-255 | the two lists as lines, under their headers, sorted |
| CoverageText.BlockShape | tools/check_path_coverage.py:256-260 | a mechanism as lines: label and symbol, its sites indented by two blanks, an empty line |
| CoverageText.BlocksInOrder | tools/check_path_coverage.py:256-260 | the mechanisms stand one after the other |
| CoverageText.PrintedText | tools/check_path_coverage.py:261-262 | the text is its lines joined by newlines, with exactly one at the end |
| CoverageText.NothingSaid | tools/check_path_coverage.py:211-212 | blank lines and comments, after blanks or not, say nothing |
| CoverageText.SectionSaid | tools/check_path_coverage.py:213-215 | a line in brackets opens the section it names |
| CoverageText.NameSaid | tools/check_path_coverage.py:216-219 | a name, with blanks around it, goes to the list of its section, and nowhere in a section of another name |
| CoverageText.SiteSaid | tools/check_path_coverage.py:221-223 | a site goes to the last label, unless that is empty |
| CoverageText.LabelSaid | tools/check_path_coverage.py:224-230 | a label and its symbol around the first equals sign start a mechanism without sites |
| CoverageText.WrittenExactly | tools/check_path_coverage.py:302-326 | the write leaves the file alone when it holds no mechanism or a found name is in neither list, and otherwise rewrites it |
| CoverageText.MissingStays | tools/check_path_coverage.py:204-209 | a missing file reads as empty and stays missing |
| CoverageText.NamesReported | tools/check_path_coverage.py:328-372 | which names each kind of failure is reported for |
| CoverageText.ReachMeans | tools/check_path_coverage.py:352-372 | a changed mechanism is reported with the sites that are new and those that are gone, each list in order |
| Reporting.CoverageInOrder | tools/check_path_coverage.py:328-372 | found names before recorded ones before mechanisms, each in ascending order |
| FixtureRegister.ComputeRow | tools/model_fixture_manifest.py:243-256 | one row's digests, and a problem for exactly the missing and the empty files; FixtureContent says what each entry holds |
| FixtureRegister.Compute | tools/model_fixture_manifest.py:236-257 | the register of all rows, and its problems |
| FixtureRegister.ComputedExactly | tools/model_fixture_manifest.py:236-257 | an id has digests exactly when some row that declares it has a file, and they are the last such row's |
| FixtureRegister.Compare | tools/model_fixture_manifest.py:260-298 | the reported differences, all of them and no other |
| FixtureRegister.SilentExactly | tools/model_fixture_manifest.py:260-298 | compare is silent exactly when the two registers are equal |
| FixtureRegister.FindClashes | tools/model_fixture_manifest.py:358-364 | the clashes are exactly the recorded digests that would change |
| FixtureRegister.FixtureTool.Write | tools/model_fixture_manifest.py:357-376 | the write refuses exactly on a clash without --accept-new; otherwise the register becomes what is on disk |
| FixtureRegister.FixtureTool.Check | tools/model_fixture_manifest.py:385-395 | the check passes exactly without problems and with a register; what it reports is the whole list in order, and it changes nothing |
| FixtureRegister.WriteKeepsExactly | tools/model_fixture_manifest.py:357-376 | a recorded digest survives a write exactly when the write is refused or the last row with its id that has any file has this one, not empty |
| FixtureRegister.EvidentMeans | tools/model_fixture_manifest.py:236-257 | that row decides what the register computes for the id and role |
| FixtureRegister.PresentIsEvident | tools/model_fixture_manifest.py:236-257 | where ids are distinct, it is enough and needed that the file is declared, present and not empty |
| FixtureRegister.LaterRowHides | tools/model_fixture_manifest.py:236-257 | a later row with the same id and another file hides this one |
| FixtureRegister.DoubledDrops | tools/model_fixture_manifest.py:357-376 | two rows with one id for which a write drops the digest of a file that is declared, present and not empty |
| FixtureRegister.DigestsStand | tools/model_fixture_manifest.py:357-395 | over every run without --accept-new a recorded digest stands all the way exactly when its own file is evident, in the sense of FixtureRegister.WriteKeepsExactly, at each write that is not refused |
| FixtureRegister.NeverReplaced | tools/model_fixture_manifest.py:357-395 | even when other files go missing, no run puts another digest in a recorded one's place while one is recorded |
| FixtureRegister.CheckAfterWrite | tools/model_fixture_manifest.py:357-395 | a check straight after a write finds no difference |
| FixtureContent.ComputedContent | tools/model_fixture_manifest.py:236-257 | told from the rows and the disk: the register holds, for each fixture with a file and each of its roles with one, the length and the digest of what that file holds, and nothing else |
| FixtureContent.WrittenContent | tools/model_fixture_manifest.py:357-376 | ... and so does the recorded register after a write that goes through |
| FixtureContent.RefusesExactly | tools/model_fixture_manifest.py:357-375 | a write is refused exactly when some recorded digest is not that of what its file holds now |
| FixtureContent.ChangeIsSeen | tools/model_fixture_manifest.py:280-288 | a file that changes after its digest was recorded stops the next write, and the check reports the mismatch |
| FixtureContent.AbsentExactly | tools/model_fixture_manifest.py:245-247 | which missing files are reported |
| FixtureContent.EmptyExactly | tools/model_fixture_manifest.py:248-250 | which empty files are reported |
| FixtureContent.FixtureReported | tools/model_fixture_manifest.py:264-278 | a fixture is reported as missing when it is recorded and has no file, and as unrecorded the other way round |
| FixtureContent.RoleReported | tools/model_fixture_manifest.py:279-298 | what is reported about each file of a recorded fixture |
| Reporting.DifferencesInOrder | tools/model_fixture_manifest.py:264-298 | differences stand in the order of fixtures, and within one in the order of roles |
| Splitters.PiecesJoin | tools/check_parity.py:1816-1828 | joining the unfiltered pieces with commas restores the text |
| Splitters.OpenPiece | tools/check_parity.py:1816-1828 | the last piece is the tail after the last comma at depth zero |
| Splitters.PieceAt | tools/check_parity.py:1816-1828 | every other piece lies between commas at depth zero and holds none |
| Splitters.TopLevelSplit | tools/check_parity.py:1816-1828 | the index-based splitter gives the pieces that are not blank |
| Splitters.SplitArgs | tools/default_argument_audit.py:103-118 | the accumulator gives all pieces but a blank last one |
| Splitters.SplittersAgree | tools/default_argument_audit.py:103-118 | on every text both give the pieces between top-level commas that are not blank, the first at once and the second when its blank pieces are dropped |
| Splitters.MatchIsFirstZero | tools/check_parity.py:1342-1349 | the matching close is where the depth first returns to zero |
| Splitters.MatchUnique | tools/check_parity.py:1340-1350 | at most one close matches |
| Splitters.CallArgs | tools/check_parity.py:1340-1350 | the result is the balanced text up to the matching close, and None exactly when nothing matches |
| Splitters.BracketsAre | tools/check_parity.py:1816-1828 | round, square and curly brackets open and close |
| Splitters.DepthCounts | tools/check_parity.py:1816-1828 | the depth is the number of opening brackets less that of closing ones |
| Splitters.SeparatesExactly | tools/check_parity.py:1816-1828 | a comma separates exactly when as many brackets have closed as have opened before it |
| Splitters.ParensCount | tools/check_parity.py:1342-1349 | the matching of a call's arguments counts round brackets only |
| TableRow.RowRoundTrip | tools/check_parity.py:647-650 | splitting a rendered row gives its cells back, empty cells and cells of pipes and backslashes included |
| TableRow.RoundTripExactly | tools/check_parity.py:647-650 | ... exactly for the non-empty lists of trimmed cells without the marker character |
| TableRow.PlainRow | tools/check_parity.py:647-650 | a row without escapes, however many pipes and blanks surround it, gives the stripped pieces between its inner pipes |
| TableRow.RenderShape | tools/check_parity.py:647-650 | a rendered row: its cells between pipes and single blanks, their own pipes escaped |
| TableRow.RenderSample | tools/check_parity.py:647-650 | a row of a cell with a pipe and an empty one |
| IsaScan.VerdictIsFirst | packaging/isa_baseline.py:499-522 | an instruction is blamed on the first rule that fires, if any does |
| IsaScan.Count | packaging/isa_baseline.py:497-522 | the rule loop adds one to that rule's feature and to nothing else |
| IsaScan.FiresByShape | packaging/isa_baseline.py:499-515 | which patterns a rule of each shape looks at, and what `fullfp16` asks in addition |
| IsaScan.ScanObject | packaging/isa_baseline.py:463-539 | hits, counters, tolerance and readability of a scan |
| IsaScan.LiveExactly | packaging/isa_baseline.py:288-291 | some live rule fires exactly when a rule of the table does whose feature is not allowed |
| IsaScan.CleanExactly | packaging/isa_baseline.py:463-539 | no hits exactly when no rule outside the profile fires on anything that was read |
| IsaScan.ReadableMeans | packaging/isa_baseline.py:523-530 | candidates are the unparsed ones and the read ones; readable means something was read and at most eight, or one in a hundred, were not |
| IsaScan.CountersExactly | packaging/isa_baseline.py:480-530 | what each counter counts, what is tolerated, and when a scan is readable |
| IsaScan.UnreadButReadable | packaging/isa_baseline.py:523-530 | a readable scan with a candidate that was not read |
| IsaScan.HitsSum | packaging/isa_baseline.py:516-522 | the counts sum to the instructions that some live rule catches |
| IsaScan.AllowingMore | packaging/isa_baseline.py:288-291 | a larger allowed set never dirties a clean object, never raises the total, and changes nothing else |
| IsaScan.CountRisesExactly | packaging/isa_baseline.py:499-522 | when more is allowed, the count of an allowed feature is zero, no other falls, and one rises exactly when the first rule that refused some instruction is now allowed and the first that still refuses it has that feature |
| IsaScan.CountsMove | packaging/isa_baseline.py:499-522 | a family of tables and objects on which one feature's count rises when another feature is allowed |

## Left out

- The Mojo engine itself, its GPU kernels and device policy, and the C interface.
- Regular expressions: a Mojo line arrives as what they see of it (blank, or a column, a kind and hazards), a disassembly line as whether it is a candidate and what was read off it, and a rule's patterns as predicates.
- The step from the lines that `read_code` returns to those classified lines, and a guard whose body stands on its own line.
- Rule R3 and the test-module findings of the guard checker, its `--list` mode, and the check that the list of GPU-only tests is current.
- Hazards outside any function body (struct fields, decorators) in the owner theorems, which speak of body lines; GuardCheck.SilentIsSafe covers every line.
- Message texts everywhere, and rules I14 and I15 of the snapshot tool.
- GuardCheck.OwnerExact: holds for files without nested definitions; GuardCheck.OwnerExactly gives the exact condition for all well-indented files.
- `elif` in Mojo source: a statement has at most the two arms `if` and `else`, so an `elif` after a guard can only be laid out as a statement of its own, and the model says that its arms are elaborated where the compiler drops them with the guard.
- CoverageFile.CheckAfterWrite: speaks of baselines without brackets; CoverageMechanisms.CheckAfterAnyWrite speaks of all.
- CoverageFile.WriteTwice: speaks of baselines without brackets; CoverageMechanisms.WriteTwiceExactly speaks of all.
- FixtureRegister.FixtureTool.Check: the declaration and coverage checks and a checksum file that is not valid JSON are left out, and the accompanying fields of the checksum file.
- `normalize`, `classify` and the derivation of the snapshot in `tools/api_snapshot.py`; the superseded legacy snapshot file; a previous snapshot that is not valid JSON reads as absent.
- The scan that finds bodies and the one that names the owner of each line in `tools/check_path_coverage.py` (parameters here), as is the pattern that finds a use of a symbol; its `--list` and `--claims` modes, and carriage returns in its baseline.
- Datasets.MakeData: regression labels only; the binary labels need a sigmoid.
- Datasets.SmokeData: the trigonometric target is a parameter.
- Ranking.MakeRankingData: floats are exact rationals, so a grade that rounding in floating point would move across a half is not captured; numpy's stable argsort is the sorting permutation.
- Rounding of floats everywhere, and seeds outside the range of an unsigned 64-bit integer, on which numpy raises.
- IsaScan.ScanObject: the notes, the examples kept for each hit and the unparsed lines shown are left out.
- Finding and disassembling objects, file access, argument parsing, printing and exit codes.
- The required-name lists, classification rows and other static tables of the tools.
