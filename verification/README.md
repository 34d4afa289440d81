# Verified model of hyphaed

hyphaed is a kernel build-and-install wizard with its own performance tuner. This project
models the parts of it that keep state or transform text, and proves what they promise over
whole runs and over all inputs. Checking everything: `dafny verify dfyconfig.toml`.

| file | what it models |
|---|---|
| `KnobModel.dfy`, `KnobSpec.dfy`, `KnobTuner.dfy`, `KnobHistory.dfy` | the tuner's knob transactions: snapshot, apply, restore, keep, revert, A/B, with a stop possible between any two writes, and whole histories of them |
| `Pipeline.dfy`, `Wizard.dfy` | the phase pipeline: dependency resolver, saved state, hydrate and snapshot, invalidation after a retarget |
| `Baseline.dfy`, `GitTree.dfy` | the pristine git baseline and the patch phase |
| `UnifiedDiff.dfy`, `DiffLines.dfy`, `Landing.dfy`, `Series.dfy` | unified diffs (POSIX.1-2017 XCU `diff`, section "Diff -u or -U Output Format"), the scanner of touched lines, where those lines are in the patched file and in the tree after the series, the series file, the filter on findings |
| `CpuMask.dfy`, `Cmdline.dfy`, `GrubDropin.dfy` | CPU lists, the composed kernel command line, the GRUB drop-in |
| `Dedupe.dfy`, `FileTree.dfy` | the plan that keeps one copy of each clone, and its execution on a tree with symbolic links |
| `TagRefresh.dfy` | which release tags a mirror lacks |
| `Bisect.dfy` | fragment bisection |
| `Framing.dfy` | lines out of two interleaved byte streams |
| `NoiseGate.dfy` | when an A/B/A measurement counts |
| `Depmod.dfy` | the depmod override file |
| `Prelude.dfy`, `Text.dfy`, `Decimal.dfy` | a missing value; `split`, `join`, `strip`, `int` and decimal numerals at character level |

Where the program updates an object or a file step by step, the model is a class whose
methods are proved equal to functions of the old state; the lemmas are about those functions.
Everything a shell command, the kernel, git or the user decides is a parameter or a
nondeterministic choice. The tuner may be refused or stopped at every write; on a `calm` machine
neither happens, and there its methods promise to get done.

Six modelling assumptions are worth knowing. Writing one of a pair of dirty-page limits
zeroes the other when the written value changes. The state file is replaced in one step. A
failed `git am` may leave any mess among the files git tracks or would clean, and none among
ignored untracked files. Each pipe of a child process gives non-empty chunks and then one
empty read. A scan finds real directories by resolved paths. Where a
clone lies inside another, `du` gives the outer one the larger size.

A patch is applied by the line numbers and lines of its hunks; that this is what a unified diff
means is checked by taking it back: with its sides swapped it fits the new file and gives the old
one (`UnifiedDiff.PatchAndBack`).

Seven promises hold only under a condition, each stated as such:

* an A/B survives a stop exactly when its knob is not waiting to be reverted with other
  values (`CrashSafeIffSafeToTest`), which a stopped A/B of a knob not kept leaves it doing unless
  the files were still as before: repeating it loses the originals (`RepeatAfterCrashLoses`); a
  keep leaves `revert all` leading where it led
  exactly when an earlier entry holds nothing but what the files hold (`KeepSafeIff`);
* `keep` writes the files before it records the snapshot, so a stop in between loses the
  originals exactly when the knob had no entry and a file changed (`StoppedKeepRevertsIff`);
* keep followed by revert restores everything exactly when the knob had no entry before; a
  second keep overwrites the recorded original (`KeepThenRevert`, `SecondKeepForgets`);
* the touched-line scanner numbers a patched file's added lines right exactly when none starts
  with `++` and none follows, in its hunk, an unaffected empty line written without its leading
  space (`RecordedIsLandedIff`); patches/0014-tkg-pci-pme-timeout.patch has such a line, and its
  added line is recorded one too early (`BareLineMisplacesShippedHunk`). The docstring promises
  line numbers after the series. For a file whose own diffs meet that condition, whatever the
  series does elsewhere, the recorded numbers are right after every one of its diffs exactly when
  each diff that leaves the file keeps every recorded number an added line's and brings no added
  line of an earlier diff to another number, and each that renames or deletes it finds none in it
  (`RecordedIsRightIff`). Writing the file once is enough (`WrittenOnceIsGood`), and so is
  rewriting in place (`InPlaceIsGood`) or below all added lines (`BelowIsGood`); two patches on
  top of one file break it (`SecondPatchMovesFirst`). A single later diff is harmless whatever was
  added before it exactly when it keeps every kept line on its number (`LaterDiffAddsIff`);
* a patch phase delivers baseline and prefix exactly when the series is not empty or the tree
  is at the baseline already (`PatchedIffReset`); re-extraction at the same path does not send
  later phases round again (`PatchDroppedIffRetargeted`);
* de-duplication keeps every kept copy when no path to be removed lies inside another. Of two
  planned paths that do, a directory or a link outside both is lost exactly when neither is blocked, the outer one is replaced
  by a link and goes first, and the kept copy has that part (`NestedPairLosesIff`); the sort by
  size puts the outer one first (`LargerGoesFirst`, `NestedClonesLoseKeptCopy`);
* one refresh of the mirror's tags is enough exactly when it fetched from every held and still
  recent series that had an eligible tag (`RefreshSettlesIff`): always when the cap of ten is
  not hit, sometimes when it is (`OneSeriesSettles`), not always (`CapLeavesASeries`). A tag the
  cap left out of a series it fetched from is never missing again (`NeverMissingAgain`).

## Model

| member | source | states |
|---|---|---|
| KnobModel.WrittenFacts | diagnostics/perf_tune.py:88-93 | a write never leaves both limits of a coupled pair in force, and the file holds what was written |
| KnobModel.SnapshotIsSnapOf | diagnostics/perf_tune.py:124-130 | from a consistent state every snapshot is restorable: one entry per file in writing order, never both of a coupled pair non-zero |
| KnobModel.AppliedInside | diagnostics/perf_tune.py:132-137 | after any number of an apply's writes only the knob's own files differ, and no pair is doubly in force |
| KnobModel.ProposalStands | diagnostics/perf_tune.py:132-137 | after an apply a target holds the value proposed for it, unless its twin is a target too |
| KnobModel.AppliedFileByFile | diagnostics/perf_tune.py:132-137 | and every file: the twin of a target that changed holds zero, any other file what it held |
| KnobModel.RestoreProgress | diagnostics/perf_tune.py:139-145 | after any number of a restore's writes every value written back so far still stands, although later writes may zero twins |
| KnobModel.CoupledRestore | diagnostics/perf_tune.py:139-145 | restoring in the code's order yields exactly the snapshot from every consistent live state, half-applied and half-restored ones included |
| KnobModel.RatioLostWithoutExtra | diagnostics/perf_tune.py:354-355 | without snapshotting the ratios too, the restore leaves a ratio at zero: a concrete state |
| KnobModel.RestoreUndoes | diagnostics/perf_tune.py:124-145 | a snapshot undoes any writes made inside its knob after it was taken |
| KnobModel.DirtyKnobOk | diagnostics/perf_tune.py:373-377 | the shipped dirty-page knob meets the registry's requirements |
| KnobModel.DirtyKnobApplied | diagnostics/perf_tune.py:373-377 | the shipped dirty-page knob applied: both byte limits as proposed, both ratios zero, from every consistent state |
| KnobSpec.SysctlKeyInjective | diagnostics/perf_tune.py:416-417 | two dot-free paths never share a sysctl key |
| KnobSpec.RendersUnique | diagnostics/perf_tune.py:446-472 | the kept set alone fixes the drop-ins: any two renderings of it are equal, whatever order it was visited in |
| KnobSpec.WithKnobRenders | diagnostics/perf_tune.py:446-459 | adding one kept knob's lines to a rendering renders the larger set, no line fought over |
| KnobSpec.DropinLineIff | diagnostics/perf_tune.py:446-459 | line by line what the drop-ins of a kept set hold: a file below /proc/sys by its sysctl name, any other by its path, the CUDA cache by its variable, and nothing else |
| KnobSpec.RevertOneMore | diagnostics/perf_tune.py:856-862 | restoring one more entry extends the set of reverted names, in any order |
| KnobSpec.CrashedTestReverts | diagnostics/perf_tune.py:779-809 | an A/B of a safe knob stopped in any intermediate state: `revert all` ends in the same files, state and drop-ins as without the A/B |
| KnobSpec.CrashedTestFileByFile | diagnostics/perf_tune.py:779-809 | and file by file: the recorded original if the knob was kept, else the value before the A/B; untouched files keep theirs |
| KnobSpec.UnsafeTestLoses | diagnostics/perf_tune.py:784-787 | a second snapshot over a pending one with other values loses them |
| KnobSpec.CrashSafeIffSafeToTest | diagnostics/perf_tune.py:779-809 | crash safety of an A/B holds if and only if the knob was not waiting with other values |
| KnobSpec.RepeatAfterCrashLoses | diagnostics/perf_tune.py:783-786 | a stopped A/B of a knob not kept leaves it unsafe to test again if and only if its files differ from before, and then testing again loses the originals |
| KnobSpec.PoppedReverts | diagnostics/perf_tune.py:802-809 | dropping a finished test's pending entry changes nothing `revert all` does |
| KnobSpec.StoppedRevertReverts | diagnostics/perf_tune.py:852-869 | a revert stopped before its state file was written can be run again with the same end |
| KnobSpec.StoppedKeepRevertsIff | diagnostics/perf_tune.py:837-847 | a keep stopped before recording loses nothing if and only if the knob already had an entry or no file changed |
| KnobSpec.KeepThenRevert | diagnostics/perf_tune.py:837-869 | keep then revert gives back live files always, and files, state and drop-ins if and only if the knob had no entry |
| KnobSpec.SecondKeepForgets | diagnostics/perf_tune.py:475-479 | after two keeps, revert stops at the values of the second |
| KnobSpec.KeepsCommute | diagnostics/perf_tune.py:837-849 | keeping two knobs in either order gives the same files, originals and drop-ins |
| KnobSpec.RunsKeepDropins | diagnostics/perf_tune.py:749-869 | after any sequence of keep, revert and A/B the drop-ins are the rendering of the persisted set alone and every entry is restorable |
| KnobTuner.Tuner.Apply | diagnostics/perf_tune.py:132-137 | the writing loop, refused or stopped anywhere; done, every file of the knob is there and holds what was proposed; on a machine that refuses nothing it gets done |
| KnobTuner.Tuner.Restore | diagnostics/perf_tune.py:139-145 | the restoring loop gives the snapshot, or stops with only the knob's files touched |
| KnobTuner.Tuner.TestKnob | diagnostics/perf_tune.py:779-809 | one A/B: unhindered, one pass with the proposal in the files between two with the files as they were; done leaves only the knob not pending; stopped leaves an untouched or mid-test state |
| KnobTuner.Tuner.Ab | diagnostics/perf_tune.py:767-818 | any A/B over any list, stopped anywhere: which states it can leave, and `revert all` ends where it would have; a finished one leaves files and kept knobs as they were; unhindered, it makes exactly the three passes of each knob whose files are there |
| KnobTuner.Tuner.RegenerateDropins | diagnostics/perf_tune.py:446-472 | whatever order the kept knobs are visited in, the result is the rendering of the set |
| KnobTuner.Tuner.KeepKnob | diagnostics/perf_tune.py:837-849 | keep as a whole, its refusals, and every state it can stop in, all restorable; done, the proposed values are in the files; unhindered, it gets done |
| KnobTuner.Tuner.ApplyAdopted | diagnostics/perf_tune.py:821-834 | `apply` is one keep per adopted knob, up to the one that stops |
| KnobTuner.Tuner.RevertNames | diagnostics/perf_tune.py:852-869 | revert of one name or all; stopped it leaves files half written back, or all but the drop-ins, all restorable |
| KnobHistory.LeavesOk | diagnostics/perf_tune.py:749-869 | every command, finished or stopped anywhere, leaves every entry restorable |
| KnobHistory.AnyHistoryReverts | diagnostics/perf_tune.py:749-869 | after any history of commands stopped anywhere, `revert all` gives every recorded file its recorded value, leaves the others alone and leaves no entry |
| KnobHistory.KeepSafeIff | diagnostics/perf_tune.py:837-849 | a recorded keep leaves `revert all` leading where it led if and only if an earlier entry holds nothing but what the files hold |
| KnobHistory.RevertLeavesTheRest | diagnostics/perf_tune.py:852-869 | a revert of some names, then of all, is a revert of all |
| KnobHistory.CarefulHistoriesLeadBack | diagnostics/perf_tune.py:749-869 | over any history of careful commands stopped anywhere else, `revert all` always leads to the same machine |
| Pipeline.Before | hyphaed/state.py:62-64 | invalidation keeps exactly the completed phases before the given one |
| Pipeline.Existing | hyphaed/state.py:90-94 | hydration keeps exactly the recorded packages that still exist |
| Pipeline.Missing | hyphaed/cli.py:1584-1587 | exactly the prerequisites not completed |
| Pipeline.OrderAscending | hyphaed/phases/__init__.py:3-16 | ORDER lists every phase once, in strictly ascending position |
| Pipeline.DepsAreAPrefix | hyphaed/cli.py:1406-1419 | every row of the prerequisite table is a prefix of ORDER |
| Pipeline.ResolvedInOrder | hyphaed/cli.py:1581-1594 | what is run is a subsequence of ORDER and exactly the missing prerequisites and the phase, or everything |
| Pipeline.ResolvedReady | hyphaed/cli.py:1581-1594 | every phase in the list will find its prerequisites, even where source drops completions in the middle |
| Pipeline.HistoriesAreFresh | hyphaed/cli.py:214-233 | in every history with failures anywhere, phases start with prerequisites completed, completions stay closed, and what install reads came from a package run fed by a build run, both after the last change of source_dir |
| Pipeline.NextProcessHasItBack | hyphaed/state.py:72-94 | a new process starts with exactly the recorded packages that still exist, the recorded tree if it exists, and the recorded version |
| Pipeline.InstallIsHandedTheList | hyphaed/state.py:90-94 | `install` in a process of its own is handed exactly the recorded packages that still exist |
| Pipeline.BuiltReachesInstall | hyphaed/cli.py:214-233 | build, package and install in three processes: install is handed exactly what the build made, was there for packaging, was packaged, and is there still |
| Pipeline.UnhinderedCompletes | hyphaed/cli.py:214-233 | an invocation nothing fails in starts each phase of its list in order and leaves them all completed; a full run leaves every phase completed |
| Pipeline.RetargetKeepsOldLists | hyphaed/state.py:105-116 | right after a retarget the saved package lists are the old ones, and only the missing completions keep install off them |
| Pipeline.PatchDroppedIffRetargeted | hyphaed/phases/source.py:1195-1213 | a finished source run drops later phases if and only if the path changed |
| Pipeline.SourceDropsIff | hyphaed/phases/source.py:1195-1213 | exactly which completions a finished source run drops: patch and all later ones, when another path was recorded |
| Pipeline.FailedRerunIsForgotten | hyphaed/cli.py:214-233 | a completed phase that fails when run again stays completed, and nothing later waits for it |
| Wizard.PersistedState.MarkComplete | hyphaed/state.py:48-51 | records a phase once |
| Wizard.PersistedState.InvalidateFrom | hyphaed/state.py:53-69 | exactly the completions before the phase remain, and no package list and no version |
| Wizard.Ctx.Hydrate | hyphaed/state.py:72-102 | fills in only what is not set, with exactly the recorded packages that still exist |
| Wizard.Ctx.Snapshot | hyphaed/state.py:105-116 | copies outputs back, cleared lists included |
| Wizard.Program.RunPhase | hyphaed/cli.py:216-233 | one turn of the loop: failure saves nothing, success marks, snapshots and saves |
| Wizard.Program.RunSource | hyphaed/phases/source.py:1195-1213 | invalidation when the resolved path differs from the recorded one |
| Wizard.Program.Invoke | hyphaed/cli.py:1581-1611 | one process: load, hydrate, resolve, run until a failure |
| Baseline.ResetReachesBaseline | hyphaed/gitops.py:75-99 | abort, hard reset and clean give the tagged tree plus exactly the ignored untracked files, from any state |
| Baseline.AppliedIsLongestPrefix | hyphaed/gitops.py:102-134 | fail-fast stops after exactly the longest applicable prefix |
| Baseline.WholeSeriesIff | hyphaed/gitops.py:102-134 | all of a series applies if and only if it goes through in trees one after the other, none creating a file where an ignored one lies, and it ends where they end |
| Baseline.PatchedFileByFile | hyphaed/gitops.py:88-99 | after a patch phase every ignored untracked file is as it was, every tracked one as committed, and after a clean one nothing else is on disk |
| Baseline.PatchAgain | hyphaed/phases/patch.py:183-192 | a second run gives the same commit, verdict and kept files, and after a clean run the same bytes |
| Baseline.BaselineStaysPristine | hyphaed/phases/source.py:933-999 | over every interleaving of extraction, kept checkout, patch phase and disturbance the tag has the version of the extracted tree and names exactly its files that are not ignored, and a non-empty patch phase leaves its longest prefix on it, ignored files untouched, no am open |
| Baseline.PatchedIffReset | hyphaed/phases/patch.py:183-192 | the phase delivers baseline plus prefix, commit and files, if and only if the series is non-empty or everything was at the baseline |
| GitTree.Repo.SeedBaseline | hyphaed/gitops.py:44-64 | a fresh commit of exactly the files that are not ignored, as they are on disk; the tag, unless its command fails, names it |
| GitTree.Repo.ResetToBaseline | hyphaed/gitops.py:75-99 | back at the baseline from any contamination, or refused with only the abort done |
| GitTree.Repo.ApplySeries | hyphaed/gitops.py:102-134 | the halting loop: which patches are reported applied, the tree reached, ignored files as they were |
| GitTree.Repo.PatchPhase | hyphaed/phases/patch.py:183-214 | reset then series; success reported exactly when the whole series goes through from the baseline |
| GitTree.SourceTree.Fetch | hyphaed/phases/source.py:783-790 | keeping a checkout never reseeds; a fresh extraction always does, and its recorded tag names the extracted tree |
| GitTree.SourceTree.Patch | hyphaed/phases/patch.py:183-214 | the patch phase as an event that keeps the baseline pristine |
| DiffLines.HeaderIsRead | patches/staticcheck.py:127-130 | every hunk header git writes is read as the new start, short forms included |
| DiffLines.HunkStartIff | patches/staticcheck.py:127-130 | exactly which lines are hunk headers, and which number is taken from one |
| DiffLines.FileNameIff | patches/staticcheck.py:123-126 | exactly which lines name a file, and which |
| DiffLines.NameIsRead | patches/staticcheck.py:123-126 | the file-name line is read back, trailing blanks stripped |
| DiffLines.ScanHunks | patches/staticcheck.py:127-139 | over all hunks of a file exactly the lines around the recorded numbers are touched, for that file only; any well-formed hunks, bare empty lines and `++` lines included |
| DiffLines.ScanDiffs | patches/staticcheck.py:119-139 | and over all files of a patch, deletions and renames included |
| DiffLines.TouchedIsAroundRecorded | patches/staticcheck.py:98-140 | and over all patches of a series, trailers included: touched lines are exactly those within three of a recorded number |
| DiffLines.TouchedIffNamed | patches/staticcheck.py:112-119 | patch by patch: a line is touched if and only if some line of the series file that is no comment names a patch there that adds a line within three of it |
| DiffLines.AroundMeans | patches/staticcheck.py:133-136 | within three lines, floored at line one |
| DiffLines.CounterKeepsUpIff | patches/staticcheck.py:133-139 | the counter lags by the number of `++` added lines and of empty lines written without their space, and keeps up if and only if there is neither |
| DiffLines.PlusPlusIsSkipped | patches/staticcheck.py:133-136 | such a line is never recorded |
| DiffLines.HeaderLikeMovesOn | patches/staticcheck.py:123-126 | an added line that reads as a file header sets the current file to the name it reads |
| DiffLines.LinesTouched | patches/staticcheck.py:98-140 | the loop over the series |
| DiffLines.PatchLines | patches/staticcheck.py:120-140 | the one-pass loop over a patch |
| Landing.RecordedIsLandedIff | patches/staticcheck.py:127-139 | the recorded numbers of a file diff are those of its added lines in the patched file if and only if no added line starts with `++` or follows a bare empty line of its hunk |
| Landing.OnlyAddIsOffByLag | patches/staticcheck.py:133-139 | a hunk's only added line is recorded too early by the number of lines passed over before it |
| Landing.BareLineMisplacesShippedHunk | patches/0014-tkg-pci-pme-timeout.patch:19-27 | the shipped hunk: recorded at 65, lands at 66 |
| Landing.LaterDiffAddsIff | patches/staticcheck.py:98-109 | a further diff of a file leaves all earlier numbers right, whatever was added, if and only if it keeps every kept line on its number |
| Landing.RecordedIsRightIff | patches/staticcheck.py:98-109 | for one file whose own diffs are steady, in a series that applies: the recorded numbers are those of its added lines after every diff if and only if each diff that leaves it keeps its marked numbers marked and brings no mark elsewhere, and each that takes it away finds no mark |
| Landing.RecordedIsFinal | patches/staticcheck.py:98-109 | and then the numbers recorded for that file are those of the lines of the final tree that the series added |
| Landing.WrittenOnceIsGood | patches/staticcheck.py:98-109 | a file of which no diff reads what an earlier one wrote meets that condition |
| Landing.InPlaceIsGood | patches/staticcheck.py:98-109 | so does a further diff that keeps every line on its number |
| Landing.BelowIsGood | patches/staticcheck.py:98-109 | and one that starts below every marked line |
| Landing.SecondPatchMovesFirst | patches/staticcheck.py:98-109 | two patches on top of one file: an added line of the final tree is not written down, and a line near it not touched |
| Series.ReadSeries | hyphaed/phases/patch.py:14-28 | one name for each line that, blanks aside, is neither empty nor a comment and names a patch on disk, in order, and no other name |
| Series.ReadFullSeries | hyphaed/phases/patch.py:37-43 | the experimental series is read as if appended to the other |
| Series.ScannerFollowsPatchPhase | patches/staticcheck.py:113-119 | the scanner answers for exactly the patches the patch phase lists, in its order |
| Series.Kept | patches/staticcheck.py:365-373 | exactly the findings on touched lines are kept |
| Series.FindingKeptIff | patches/staticcheck.py:365-373 | a finding is reported if and only if it is within three lines of a recorded number, for every series of well-formed patches |
| Series.TouchesWhereLinesLand | patches/staticcheck.py:98-140 | for such a file, whatever the series does to others, touched lines are those within three of a line of the final tree that the series added |
| Series.FindingIsOursIff | patches/staticcheck.py:365-373 | and a finding in it is reported if and only if it is within three lines of such a line |
| CpuMask.RunsCover | hyphaed/topology.py:292-305 | the ranges stand for exactly the numbers given |
| CpuMask.RunsApart | hyphaed/topology.py:292-305 | the ranges are maximal: in order, with a gap between any two |
| CpuMask.RunsAreFewest | hyphaed/topology.py:292-305 | no list of ranges for the same numbers is shorter |
| CpuMask.ParseOfMask | hyphaed/topology.py:264-305 | parsing a printed list gives the sorted distinct numbers, digit by digit |
| CpuMask.MaskIsCanonical | hyphaed/topology.py:292-305 | two lists print alike if and only if they hold the same numbers |
| CpuMask.ParsedIff | hyphaed/topology.py:264-276 | any text: readable exactly when each token is blank, a number or a range, and then the numbers read are those the tokens cover |
| CpuMask.PrintMask | hyphaed/topology.py:292-305 | the walk with start and prev computes the printed list |
| CpuMask.ParseCpuList | hyphaed/topology.py:264-276 | the list parser, errors included |
| CpuMask.ParseCpuRange | hyphaed/grub.py:12-24 | the set parser agrees with the list parser as a set, errors included |
| Cmdline.EffectiveLastWins | hyphaed/grub.py:311-320 | keeping each key's last position changes no key's effective value |
| Cmdline.EffectiveOfComposed | hyphaed/grub.py:286-320 | last-wins value of existing plus composed, for every key: the existing one unless unset or policy, else the last legal proposal |
| Cmdline.MitigationsStayOn | hyphaed/grub.py:286-302 | effective mitigations is always set and never off |
| Cmdline.PresetOverrides | hyphaed/grub.py:283-320 | a preset's own value beats every default, for any key nobody else has set |
| Cmdline.ComposedShape | hyphaed/grub.py:286-320 | composed sets each key once and is a subsequence of the proposal |
| Cmdline.IrqAffinityReadsBack | hyphaed/grub.py:227-258 | irqaffinity parses to the P-threads minus the golden range, or to all of them if none would be left |
| Cmdline.IrqAffinityTakesEffect | hyphaed/grub.py:227-320 | and it is what boots, if nobody else sets it, whatever the vendor parts and options |
| Cmdline.ProposedIff | hyphaed/grub.py:220-284 | which tokens are proposed for which machine and options |
| Cmdline.Without | hyphaed/grub.py:253-256 | exactly the CPUs outside the golden range |
| Cmdline.ComposeCmdline | hyphaed/grub.py:199-320 | the whole composition, None for an unreadable mask |
| Cmdline.KeepLast | hyphaed/grub.py:311-320 | the index loop keeps exactly each key's last token |
| GrubDropin.ReadConfig | hyphaed/grub.py:338-369 | the layered reader over main file and drop-ins in order; for values without quotes and backslashes |
| GrubDropin.AssignmentIsRead | hyphaed/grub.py:323-332 | the pattern finds the written assignment and none of the comment lines |
| GrubDropin.AssignedIs | hyphaed/grub.py:335-335 | an assignment is found with blanks before it and around the equals sign, its value up to the last quote |
| GrubDropin.FirstAssignmentCounts | hyphaed/grub.py:347-361 | the first line of a file that assigns the variable decides |
| GrubDropin.PlainAssignmentReplaces | hyphaed/grub.py:352-361 | a later file that does not refer to the earlier value replaces it |
| GrubDropin.EveryFileCounts | hyphaed/grub.py:345-369 | the main file and every drop-in that appends count: the tokens read are the last-wins deduplication of all of them in order |
| GrubDropin.LastWinsTwice | hyphaed/grub.py:363-369 | deduplicating early makes no difference |
| GrubDropin.DropinReadsBack | hyphaed/grub.py:323-369 | reading the drop-in over any earlier value yields exactly the last-wins deduplication of existing plus composed tokens; for values without quotes and backslashes |
| GrubDropin.DropinTakesEffect | hyphaed/grub.py:199-369 | the composed drop-in in place, the reader sees for every key the last-wins value of existing plus composed; for values without quotes and backslashes |
| Dedupe.Keeper | scripts/dedupe-clones.py:179-184 | a kept copy is a selected clone outside the removal list, none of them newer |
| Dedupe.KeeperIff | scripts/dedupe-clones.py:172-184 | a copy is kept if and only if its remote is looked at and cloned more than once and it is the first of the newest outside the removal list; and there is one exactly when some copy is outside |
| Dedupe.BuildPlan | scripts/dedupe-clones.py:172-220 | the plan is exactly every tree of the removal list and every copy beside a kept one, each once, the largest first, and each blocked exactly when a clone there or inside has blockers, a kept copy is inside, a process works there, or it is a submodule |
| Dedupe.PlannedIff | scripts/dedupe-clones.py:178-220 | the same, entry by entry, for the specification of the plan |
| Dedupe.PlacedKeepsOrder | scripts/dedupe-clones.py:222-222 | placing one more entry keeps the order by size, loses none and repeats none |
| Dedupe.UnblockedSparesKeepers | scripts/dedupe-clones.py:198-220 | an unblocked entry never covers a kept copy |
| Dedupe.UnblockedCoversNoBlocker | scripts/dedupe-clones.py:198-220 | an unblocked entry covers no copy with blockers, no busy path and no submodule; only on the removal list do large untracked files not block |
| FileTree.FileSystem.Remove | scripts/dedupe-clones.py:278-278 | removal reaches the tree lookup leads to |
| FileTree.FileSystem.Execute | scripts/dedupe-clones.py:250-283 | the loop over the plan: the tree it leaves, finished or stopped by the first error |
| FileTree.StepDoesOnePath | scripts/dedupe-clones.py:278-280 | an entry whose path is there removes that path alone and links it |
| FileTree.ApartPlanDedupes | scripts/dedupe-clones.py:250-283 | a plan with no unblocked path inside another unblocked one runs without error in any order and leaves exactly the unblocked paths gone and the links made |
| FileTree.OneHop | scripts/dedupe-clones.py:279-280 | through such a link every path below resolves to the kept copy's |
| FileTree.DedupeKeepsOneCopy | scripts/dedupe-clones.py:172-283 | the whole run of such a plan: every kept copy still a real directory, copies that block both removals still there, a blocked extra there unless inside a removed path, each replaced copy a one-hop link to its keeper, nothing else gone |
| FileTree.NestedPairLosesIff | scripts/dedupe-clones.py:250-283 | of two planned paths, one inside the other, a directory or a link outside both is gone or changed if and only if neither is blocked, the outer has a keeper and goes first, and the kept copy has that part, a link that comes back as it was not counted; finished or stopped |
| FileTree.KeptPartIs | scripts/dedupe-clones.py:278-280 | with no link on the way, the kept copy has the part exactly when the directory is there |
| FileTree.NestedPlanReachesKeptCopy | scripts/dedupe-clones.py:278-280 | with the outer path replaced, the inner removal deletes that part of the kept copy |
| FileTree.LargerGoesFirst | scripts/dedupe-clones.py:222-222 | of two planned trees the larger one goes first |
| FileTree.NestedClonesLoseKeptCopy | scripts/dedupe-clones.py:178-283 | nested pairs of clean clones pass every check, are planned in the losing order, and cost a kept copy, finished or stopped |
| FileTree.NestedClonesExist | scripts/dedupe-clones.py:178-222 | four clean clones are one example |
| TagRefresh.TagKeyReadsBack | hyphaed/phases/source.py:69-92 | vX.Y.Z and vX.Y read back as their numbers, vX.Y as X.Y.0 |
| TagRefresh.TagKeyIff | hyphaed/phases/source.py:69-80 | a tag is read exactly if it is two or three numerals with dots between, `v` before them or not, blanks around, and as those numbers |
| TagRefresh.DashHasNoKey | hyphaed/phases/source.py:69-80 | a release candidate, or any other tag with a dash, has no key |
| TagRefresh.NewestStable | hyphaed/phases/source.py:69-80 | the highest readable tag, none if there is none |
| TagRefresh.SortedSorts | hyphaed/phases/source.py:127-127 | newest first, nothing lost, ties in order |
| TagRefresh.TopThreeAreRecent | hyphaed/phases/source.py:114-117 | the first three sorted series are those with fewer than three above them |
| TagRefresh.PerSeries | hyphaed/phases/source.py:114-116 | the newest tag of every series held |
| TagRefresh.MissingTags | hyphaed/phases/source.py:102-127 | the loops compute the missing tags |
| TagRefresh.MissingAreTheNewest | hyphaed/phases/source.py:102-127 | the newest at most ten eligible tags, each newer than every local tag of its series |
| TagRefresh.StillMissing | hyphaed/phases/source.py:102-127 | a tag counts again after a refresh if and only if it did before, in a held series still recent of which nothing was fetched |
| TagRefresh.RefreshIsComplete | hyphaed/phases/source.py:102-127 | cap not hit: a second refresh finds nothing, although the window moved |
| TagRefresh.RefreshSettlesIff | hyphaed/phases/source.py:102-127 | a second refresh finds nothing if and only if the first fetched from every held, still recent series with an eligible tag |
| TagRefresh.OneSeriesSettles | hyphaed/phases/source.py:102-127 | all eligible tags in one series: one refresh is enough, cap hit or not |
| TagRefresh.CapLeavesASeries | hyphaed/phases/source.py:127-127 | ten newer tags crowd out another series, which a second refresh still finds |
| TagRefresh.NeverMissingAgain | hyphaed/phases/source.py:102-127 | a tag the cap left out of a series it fetched from is never missing again |
| TagRefresh.FourRefreshesSettle | hyphaed/phases/source.py:102-127 | cap or not, the fifth refresh finds nothing |
| Bisect.Session.Invoke | hyphaed/cli.py:743-793 | one invocation over the saved state, and its report |
| Bisect.CulpritStays | hyphaed/cli.py:778-787 | a truthful answer keeps the culprit suspected and out of the safe list |
| Bisect.RoundAccounts | hyphaed/cli.py:770-787 | a half that booted is cleared as a whole and nothing is lost; after a failed boot the half tried is what is left and nothing is cleared |
| Bisect.SafeOnlyGrows | hyphaed/cli.py:752-793 | what was cleared once stays cleared |
| Bisect.AllBootedLosesNone | hyphaed/cli.py:752-793 | as long as every half tried booted, suspects and cleared ones together are all the fragments |
| Bisect.NothingInvented | hyphaed/cli.py:778-791 | whatever is answered, suspects and safe together come from the fragments, and suspects never run out |
| Bisect.BisectFindsCulprit | hyphaed/cli.py:752-793 | after k answers about a side at most n/2^k suspects rounded up; once 2^k >= n the one left is the culprit |
| Framing.ChunkArrives | hyphaed/util/run.py:155-160 | a chunk delivers exactly the lines it completes |
| Framing.StreamEnds | hyphaed/util/run.py:139-146 | end of file delivers a non-empty last fragment |
| Framing.Pump | hyphaed/util/run.py:107-162 | for every chunking and interleaving: parts concatenate to each stream, lines per stream are the newline split of its content |
| Framing.LinesRebuildTheStream | hyphaed/util/run.py:155-160 | the lines, joined, are the stream up to one final newline |
| NoiseGate.HalfOnEachSide | diagnostics/perf_tune.py:655-655 | at least half of a list is on each side of its median |
| NoiseGate.MedianIsMidway | diagnostics/perf_tune.py:655-655 | the median is midway between the smallest element half the list does not exceed and the greatest it reaches |
| NoiseGate.Compare | diagnostics/perf_tune.py:648-668 | the loop over the metrics: a row for each whose three lists are there and whose base is not zero |
| NoiseGate.RowsIff | diagnostics/perf_tune.py:648-668 | a row for exactly the metrics all three passes measured with a base that is not zero |
| NoiseGate.VerdictIff | diagnostics/perf_tune.py:655-665 | for a positive base a metric is better, or worse, if and only if the test median is past both baselines that way by more than 1.5 times their gap, over 3% off their mean, and past twice the relative deviation of each list |
| NoiseGate.VerdictMeans | diagnostics/perf_tune.py:655-665 | better means beyond both baseline medians by more than 1.5 times their gap, in the good direction, and over 3% off their mean; worse is its mirror |
| NoiseGate.VerdictClearsSpread | diagnostics/perf_tune.py:662-665 | and past twice the relative deviation of each list |
| NoiseGate.BetterMeansHalfBeat | diagnostics/perf_tune.py:655-665 | so at least half the test repeats beat both baselines by that much |
| NoiseGate.BetweenIsNoChange | diagnostics/perf_tune.py:655-665 | a test median between the baselines is no change |
| NoiseGate.BaselinesCommute | diagnostics/perf_tune.py:648-680 | swapping the baselines changes no row and no overall verdict |
| NoiseGate.OverallMirrors | diagnostics/perf_tune.py:671-680 | a win is some better and none worse; mirrored rows turn a win into a loss; no effect means no changed row, mixed means one each way |
| Depmod.OverrideIsFor | hyphaed/phases/nvidia.py:219-221 | a written override line splits into its four fields and is recognised as its kernel's |
| Depmod.KernelIff | hyphaed/phases/nvidia.py:219-220 | a line that starts with `override` and a blank is for the kernel that is its third word, if it has one |
| Depmod.EachModuleHasItsLine | hyphaed/phases/nvidia.py:221-222 | after a merge the target has one line for each module, in order, with module, kernel and directory |
| Depmod.LinesOfWritten | hyphaed/phases/nvidia.py:218-222 | the written text splits back into its lines |
| Depmod.OnlyTargetChanges | hyphaed/phases/nvidia.py:216-222 | the target's lines are the new ones, every other kernel's survive in order |
| Depmod.MergeTwiceIsLast | hyphaed/phases/nvidia.py:216-222 | merging twice for one kernel is the last merge, byte for byte |
| Depmod.MergesCommute | hyphaed/phases/nvidia.py:216-222 | merges for two kernels commute up to line order |
| Depmod.EachKernelHasItsLast | hyphaed/phases/nvidia.py:216-222 | after any history of merges each kernel has its last merge's lines, or the ones it had |
| Depmod.Underscored | hyphaed/phases/nvidia.py:221-221 | module names lose their dashes and nothing else |
| Text.WordsOfJoin | hyphaed/phases/nvidia.py:220-220 | the words of a join by blanks are the parts |
| Decimal.ValueOfShow | hyphaed/topology.py:305-305 | decimal digits read back as the number |
| Decimal.IntOfShow | hyphaed/topology.py:271-275 | int() of a printed natural is that number |
| Decimal.IntIff | hyphaed/topology.py:271-275 | int() takes digits with a sign or without, blanks around, and nothing else |
| Text.SplitOfJoin | hyphaed/topology.py:264-305 | splitting a join gives the parts back |

## Left out

- Tuner: the custom knobs (power profile, noatime, preemption mode, RAPL, scheduler service) and `--scx-off`, which act through commands or another file each; the dry-run switch; benchmarks and reports.
- State files: a torn write of the tuner's or the wizard's JSON; an unreadable file starts empty in the program.
- Drop-ins: their text is a sorted list of lines under a fixed header, so they are kept as a map from line to value.
- KnobTuner.Tuner.KeepKnob: a keep that does not finish promises only one of the states of `MidKeep`; the program has no write-ahead record there.
- KnobTuner.Tuner.RevertNames: stopped while the three drop-ins are rewritten, they are any files; a further command re-renders them.
- Pipeline: `--from-phase`, `rebase`, the round mode's own state edits and install's fallback that globs packages bypass the resolver; timings, profile, preset, source mode and series directory are not carried.
- Pipeline.HistoriesAreFresh: provenance is per package list, not per file; the build phase globs all packages beside the tree, older ones included.
- Git: objects, the index and merge internals; `git am` is a partial function on trees, and a failed `git tag` goes unnoticed as in the program.
- Source: network, archives, the kernel configuration, version prompts; the other fetch modes share the seed and reuse branches modelled here.
- DiffLines.TouchedIsAroundRecorded: other line separators of Python's splitlines, Unicode digits, an added line that reads as a file header (`++ b/...`, which makes the scanner go on under another name, `HeaderLikeMovesOn`), and lines between files that start with a plus sign.
- Landing.RecordedIsFinal: copies, which git does not write by default; `git am --3way` placing a hunk elsewhere than it says.
- Series.ReadSeries: a listed name that is a directory, which one reader takes for present and the other does not.
- CpuMask.ParseOfMask: underscores and Unicode digits that Python's int() also takes.
- GrubDropin.ReadConfig: values with quotes or backslashes, which shlex and the template syntax of re.sub treat specially; a pattern match across lines; the reader's skipping of the wizard's own drop-in.
- GrubDropin.DropinReadsBack: an earlier value with quotes or backslashes; composed tokens with blanks, quotes, backslashes or dollar signs.
- GrubDropin.DropinTakesEffect: the same limit on the earlier value and the tokens.
- Dedupe.BuildPlan: what git, /proc and du say about a copy is a parameter; trees of equal size may come in any order.
- FileTree.DedupeKeepsOneCopy: plans with one unblocked path inside another, which `NestedPairLosesIff` treats by pairs; `--force`, `--no-symlink`, backups, the manifest and ownership of links; plain files go with their directory.
- Framing.Pump: the timeout, the log file, and exceptions of the line callback, which the program swallows; decoding is any function of a line's bytes.
- TagRefresh.MissingTags: probing and fetching themselves; Unicode digits.
- Bisect.Session.Invoke: the third answer is announced as widening the search, but like the program it leaves the state as it was.
- NoiseGate.VerdictMeans: arithmetic over the reals; a base of zero or below gives a row like the program's but no promise.
- Depmod.MergedLines: other line separators of Python's splitlines.
- User interface, installers, verification checklists, hardware detection beyond the CPU lists, and the research scripts.
