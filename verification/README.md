# Verified model of fleetreach's decision engines

fleetreach audits the dependencies of a fleet of repositories. This project models the parts of it that
decide something and proves what they are for:

- the **scan history**: an index of findings kept up to date one run at a time, which must equal folding every
  run ever taken, across pruning, late snapshots and calls that stop half way (`History`, `HistoryLaws`,
  `HistoryNewestRun`, `HistoryStore`, `HistoryPruning`);
- **fix application**: branches, tracking refs and other people's pushes; the run scheduler with its canaries and
  limits; the verification relation; closing what a plan no longer wants (`FixPlan`, `FixProtocol`, `FixSchedule`,
  `FixClosing`);
- **fix targets**: the step to the least version clear of the counted advisories (`Osv`, `FixTargets`);
- the **rpm version order** (`RpmOrder`, `RpmTexts`) and **npm ranges** (`SemVer`, `NpmRange`, `NpmWritten`,
  `NpmTexts`, `NpmRaise`);
- **edits of files**: ranges replaced from the back, npm ranges, yarn.lock entries, normalized versions (`Splice`,
  `YarnTexts`);
- **vendor verdicts** (`Csaf`), **suppression and gating** of a report (`Assemble`, `AssembleLaws`), the **registry
  health** cache and its gaps (`HealthCache`, `HealthReport`), and **attributing findings to a change** (`DiffText`,
  `Attribute`).

`Wrappers`, `Severity`, `Decimal` and `Text` hold what the others share. Code that updates state in the program is a
class or a method with a loop here, proved against a specification function; the properties are lemmas about that
function, and what it gives is stated once more over the fields or the text of the inputs alone (in `HistoryNewestRun`,
`AssembleLaws`, `RpmTexts`, `NpmTexts`, `YarnTexts`, and beside the function elsewhere). Git, forges, registries, package managers and the file system are inputs with arbitrary answers; versions
not shown in the source are an abstract total order or preorder. Times are integers, text is a sequence of characters.

Check the project with `dafny verify dfyconfig.toml --resource-limit 2000000 --verification-time-limit 0`.

## Where the code and the ideal part

Each of these is a lemma here, with the condition under which the code does meet the ideal: an exact one, except where
the item says that it is only sufficient.

- *Reading the remote.* The remote's heads are listed and then fetched in two commands, and a branch that is gone from
  the remote leaves its tracking ref. The push is pinned to the tracking ref, so it respects other people's pushes in
  every environment exactly when the two reads agree (`PushRespectsOthersIff`, `AtomicReadIsConsistent`).
- *Closing.* A superseded branch is deleted by name, not pinned to the head that was judged. Over every trace of commands
  and other people's writes, the deleted head is the judged one exactly when the last write to that branch since the
  fetch, if any, put that very head back (`DeletedIsJudgedIff`).
- *Late snapshots after pruning.* With nothing pruned a late snapshot changes nothing (`LateSnapshotChangesNothing`). With
  the runs before those on disk pruned, a rebuild agrees with the full history exactly when, of no finding, something of
  the following is lost (`RebuiltEntryDiffersIff`, `RebuildIsExactIff`). Nothing else of an entry is ever lost.
  - The fix, or its date: no run on disk touches the finding, and a late one is trusted before the fix the index dates,
    if it dates one.
  - The rating, or the owner: runs on disk touch the finding, none sights it, or names an owner, and the index has one.
  - A reopening: the disk adds more of them than the known runs on it do (`ReopeningIsLost`). This guard needs, beside the
    index and the disk, whether the pruned runs left the finding fixed. The index shows that while no known run on disk
    touches the finding (`WasFixedIsReadable`); it does not matter when a trusted run comes before the first touch in both
    or neither (`WasFixedDoesNotMatter`); otherwise nothing shows it (`NeitherTellsTheReopening`).
- *rpm builds without a release.* `compare` is transitive at three builds exactly unless the middle one lacks the release
  that would tell the outer two apart (`CompareEvrTransitive`, `ReleaseGapHappens`).
- *Last affected versions.* A range told by a last affected version gives no fix to step to. For one such range the target
  is stuck below a clear version exactly when it lies in the range and something lies above it
  (`LastAffectedIsStuckIff`); for any set of advisories it is sufficient, not necessary, that from the target up they are
  told by fixes alone (`StepIsComplete`).
- *Unknown severities.* Grouping takes the worst severity with unknown lowest, so a severity that would gate is lost exactly
  where its record gives none, another record of the finding gives one, and all of them are below the floor
  (`UnknownIsHiddenExactlyByKnownRecords`).
- *One listing speaks for its key.* When `diff --base` sees several listings of one repo, advisory, package and version,
  the first one's severity and scope decide (`NewFindingsAreCaughtByTheFirstListing`, `DevListingHidesARuntimeOne`).
- *Carriage returns.* An added line comes back from a diff without a carriage return at its end (`ReadingIsExactIff`).

## Model

| member | source | states |
|---|---|---|
| History.WorstOutcomes | crates/cli/src/history.rs:152-163 | looking a finding up by advisory, repo, package and version gives the most urgent decision on it, and none when there is none |
| History.Present | crates/cli/src/history.rs:151-201 | exactly the vulnerable in-repo occurrences are seen, each with the severity of the last finding that sights it and the most urgent decision |
| History.Index.TouchEntry | crates/cli/src/history.rs:275-301 | one touch: a fixed finding is reopened and counted, the sighting and a known owner replace the old ones, nothing else changes |
| History.Index.TouchSeen | crates/cli/src/history.rs:302-309 | the first pass advances exactly the findings the run sees |
| History.Index.TouchHidden | crates/cli/src/history.rs:310-314 | the second pass advances exactly the findings only an ignore names |
| History.Index.MarkGone | crates/cli/src/history.rs:315-321 | the last pass fixes exactly the untouched findings that are not fixed and whose repo this run can vouch for |
| History.Index.Fold | crates/cli/src/history.rs:259-330 | the three passes together act on every finding at once as one state machine step, and on the package list |
| History.Index.MergeNames | crates/cli/src/history.rs:333-357 | every name of the run is known, since the earliest of its old and new sighting |
| History.Index.MergeOld | crates/cli/src/history.rs:369-403 | the rebuilt index keeps what only the old one knew, the earlier first sighting and the larger reopening count |
| History.Rebuild | crates/cli/src/history.rs:361-404 | the incremental index over the snapshots is the fold of them all, merged with the old index |
| History.AppendNewIs | crates/cli/src/history.rs:396-402 | the rebuilt index lists the runs of the old one in their order, then each it lacks, once |
| HistoryLaws.ClosedForm | crates/cli/src/history.rs:259-330 | for every run sequence: an entry exists iff its finding was ever seen or ignored, and then it has a first touch and a last; it is fixed iff a trusted run follows the last, since the first such run; first and last seen are the two touches; reopenings are the touches with a trusted run since the touch before |
| HistoryLaws.StepSummary | crates/cli/src/history.rs:5-10 | a run that does not touch a finding changes it only if trusted for its repo, and then only to fixed |
| HistoryLaws.RatedByLastSighting | crates/cli/src/history.rs:294-309 | severity and urgency are those of the last run whose report had the finding |
| HistoryLaws.UnratedWhenNeverSighted | crates/cli/src/history.rs:310-314 | a finding only ignores ever named has no rating and is not open |
| HistoryLaws.OwnedByLastNaming | crates/cli/src/history.rs:261-300 | the owner is the one named by the last run that touched the finding and named one |
| HistoryLaws.UnownedWhenNeverNamed | crates/cli/src/history.rs:261-300 | a finding no touching run named an owner for has none |
| HistoryLaws.PackagesSinceFirstRecorded | crates/cli/src/history.rs:332-357 | a package is known iff some run recorded it, since the earliest run that did |
| HistoryLaws.Changes | crates/cli/src/history.rs:972-1008 | one pass over the entries finds exactly those new and those fixed against the fold of the earlier snapshots |
| HistoryLaws.ChangesAreTheDifference | crates/cli/src/history.rs:972-1008 | with nothing pruned and increasing times, new is open now and not before the newest run, fixed is fixed now and not before |
| HistoryLaws.TrendBoundsOpen | crates/cli/src/history.rs:622-656 | the newest trend count is at most the open count, equal iff every open finding is in the newest report, as when that run is trusted for every repo with one |
| HistoryNewestRun.FixedOnlyByAFullRead | crates/cli/src/history.rs:238-256 | after one more run that neither has nor ignores a finding: fixed at that run iff it was known and not fixed, the run did not exit 2, scanned the finding's repo and lists no gap in it; otherwise exactly as before |
| HistoryNewestRun.SeenAgain | crates/cli/src/history.rs:274-314 | after one that has or ignores it: open, or ignored when ignored, last seen at that run, with one more reopening iff it was fixed |
| HistoryNewestRun.RatedByTheNewestRun | crates/cli/src/history.rs:151-201 | the rating of a finding the newest run has: the severity of the report's last finding that sights it, and the most urgent of its decisions in the order immediate, out-of-cycle, scheduled, defer |
| HistoryNewestRun.IgnoringKeepsTheRating | crates/cli/src/history.rs:310-314 | a run that only ignores a finding leaves its rating, and rates one not known before as unknown |
| HistoryNewestRun.OwnedByTheNewestRun | crates/cli/src/history.rs:259-300 | the owner of a touched finding: whom the report's last context naming an owner of its repo names, else the one it had |
| HistoryStore.InsertionDominates | crates/cli/src/history.rs:359-404 | dropping any runs out of a sequence never raises a finding's reopening count, nor makes it first seen earlier |
| HistoryStore.LateSnapshotChangesNothing | crates/cli/src/history.rs:359-404 | rebuilding over an index of any subsequence of the runs gives the entries and packages of rebuilding from nothing |
| HistoryPruning.RunsCompose | crates/cli/src/history.rs:259-330 | what runs make of a finding after others is fixed by what they make of it alone and by the entry before: untouched it can only be fixed, by the first trusted run; touched it keeps the first sighting, and the rating and owner where the runs give none |
| HistoryPruning.LateAfterPruningDiffersIff | crates/cli/src/history.rs:359-404 | with any runs pruned before those on disk, whatever the times: the rebuild knows the findings of the full fold, and status, rating and owner differ iff the index and the disk meet the guard of each |
| HistoryPruning.FixDateDiffersIff | crates/cli/src/history.rs:359-404 | with increasing times the fix date differs iff no run on disk touches the finding and a late one is trusted before the fix the index dates, or it dates none |
| HistoryPruning.ReopeningDiffersIff | crates/cli/src/history.rs:359-404 | with increasing times first and last sighting never differ, and the reopening count iff the runs on disk add more than the known ones on it and more than they show alone, given whether the pruned runs left the finding fixed |
| HistoryPruning.RebuiltEntryDiffersIff | crates/cli/src/history.rs:359-404 | the whole entry differs from the full fold's iff one of those four guards holds |
| HistoryPruning.RebuildIsExactIff | crates/cli/src/history.rs:359-404 | the rebuilt entries are those of the full fold iff no guard holds of any finding |
| HistoryPruning.WasFixedIsReadable | crates/cli/src/history.rs:259-330 | while no known run on disk touches a finding, the index shows whether the pruned runs left it fixed |
| HistoryPruning.WasFixedDoesNotMatter | crates/cli/src/history.rs:376-384 | otherwise the reopening guard does not ask it when a trusted run comes before the first touch both on disk and among the known runs, or neither |
| HistoryPruning.NeitherTellsTheReopening | crates/cli/src/history.rs:376-384 | two histories leave the same entry and the same disk, and the full fold has the finding back once in one and twice in the other |
| HistoryPruning.LateFixLostInAnyHistory | crates/cli/src/history.rs:359-404 | the status alone, wherever pruned runs stand among the others: it differs iff no run on disk touches the finding, the index holds it not fixed and a late run after its last touch is trusted; a finding touched on disk has the full fold's status while no later pruned run concerns it |
| HistoryPruning.LateAfterPruningDiffers | crates/cli/src/history.rs:369-387 | it happens: a late trusted run after a pruned touch brings a fix the rebuilt entry does not show and the full fold does |
| HistoryStore.HistoryDir.Load | crates/cli/src/history.rs:424-486 | snapshots come in time order and the index is caught up or rebuilt as they require |
| HistoryStore.LoadIsExact | crates/cli/src/history.rs:424-486 | with every snapshot on disk, loading over an index of any of them equals the fold of all, late arrivals included |
| HistoryStore.LoadFoldsEverything | crates/cli/src/history.rs:424-486 | loading a directory whose index covers the first runs and whose files hold the rest gives the fold of all, however many covered files are gone |
| HistoryStore.HistoryDir.Record | crates/cli/src/history.rs:495-567 | a call stopped anywhere leaves the state after its last finished step: snapshot, index, each prune |
| HistoryStore.HistoryDir.Prune | crates/cli/src/history.rs:552-565 | exactly the removable snapshots before the cutoff go, never the newest |
| HistoryStore.FinishedCallKeeps | crates/cli/src/history.rs:495-567 | a finished call leaves its own snapshot and each other one within the time to keep, the newest of the directory, and what the system does not let it remove; with no such time, all of them |
| HistoryStore.CallKeepsCaughtUp | crates/cli/src/history.rs:488-567 | whatever point a call stops at, each run ever installed is covered by the index or on disk, and the newest is on disk |
| HistoryStore.CrashSafeRetention | crates/cli/src/history.rs:488-567 | over every sequence of calls, finished or not, loading yields the fold of every run ever installed, pruned or not |
| FixPlan.NamesApart | crates/cli/src/fix.rs:952-958 | no unverified edit's branch is one of ours, whatever the edits |
| FixPlan.BranchTellsCampaign | crates/cli/src/fix.rs:1378-1400 | two edits with one branch name are of one campaign |
| FixPlan.SafeNames | crates/cli/src/fix.rs:1388-1400 | a safe name is the text with every character outside letters, digits, dot, underscore and hyphen made a hyphen and both ends stripped of hyphens and dots; a text already so is its own |
| FixPlan.NamesOf | crates/cli/src/fix.rs:1378-1385 | a branch and its unverified twin are one campaign, package and target under two prefixes |
| FixPlan.VerifiedMessageCarriesItsMarks | crates/cli/src/fix.rs:932-942 | whatever the names in it, a verified commit's message holds its campaign and the verification mark |
| FixPlan.MessagesTell | crates/cli/src/fix.rs:905-942 | every message holds the package, target, advisories and update, and its title says whether the edit is unverified |
| FixPlan.VerifiedExactlyWhenItShrinks | crates/cli/src/fix.rs:1856-1894 | a bump is verified iff the pairs of advisory and package strictly shrink by its targets, nothing new appears and nothing stops being scanned |
| FixPlan.VerifiedBumpsTerminate | crates/cli/src/fix.rs:1856-1894 | any chain of verified bumps is no longer than the initial number of pairs less those left |
| FixProtocol.Clone.BaseAndRemote | crates/cli/src/fix.rs:760-796 | a command at a time, with any answers: the base, the listed head and the tracking refs the two reads leave |
| FixProtocol.Clone.Apply | crates/cli/src/fix.rs:806-969 | the refs and the outcome of one edit under every combination of outside answers, each failure leaving what came before it |
| FixProtocol.Clone.Publish | crates/cli/src/fix.rs:974-1015 | only our own branch is pushed, only while the remote's head is the tracking ref, and then the remote and the tracking ref hold it |
| FixProtocol.MessagesAreMarked | crates/cli/src/fix.rs:799-804 | the commit of a verified edit is recognised as ours afterwards |
| FixProtocol.OnlyVerifiedMoves | crates/cli/src/fix.rs:806-969 | a fleetreach branch moves only for its own edit with outcome verified, and then ends at a marked commit on the current base |
| FixProtocol.ChangedEditsMove | crates/cli/src/fix.rs:865-969 | when every command succeeds and the edit has work to do: an update that changed nothing leaves the branches alone, one that passes the re-scan ends verified with its branch at a commit on the base, any other unverified on the unverified branch |
| FixProtocol.SettledEditsStay | crates/cli/src/fix.rs:838-863 | with nothing to do, somebody else's head is skipped, and a head of our own that sits on the base is where the local branch ends |
| FixProtocol.FailuresMoveNothing | crates/cli/src/fix.rs:806-946 | a command that fails before the commit stands leaves the local branches and what has passed as they were |
| FixProtocol.VerifiedBranchesPassed | crates/cli/src/fix.rs:20-25 | over every sequence of edits, with each listed head honest at its time, every branch marked verified for its campaign stays at a commit whose own re-scan passed |
| FixProtocol.MovedBranchesPassed | crates/cli/src/fix.rs:20-25 | so any edit's branch is where it was before the runs, or at a commit that passed the re-scan for that edit's campaign |
| FixProtocol.RerunLeavesItAlone | crates/cli/src/fix.rs:847-863 | applying a verified edit again on the same base changes no local ref |
| FixProtocol.PushRespectsOthersIff | crates/cli/src/fix.rs:20-25 | every push after a verified edit replaces only the listed head of ours, or nothing, exactly when listing and tracking ref agree |
| FixProtocol.AtomicReadIsConsistent | crates/cli/src/fix.rs:784-796 | they agree when nobody pushes between listing and fetching and no tracking ref is left for an absent branch |
| FixProtocol.VerifiedEditsArePushedIff | crates/cli/src/fix.rs:974-1015 | a verified edit is pushed iff the push gets through and the remote's head is the one fetched, or for a branch not listed the one last known |
| FixProtocol.TurnsPublish | crates/cli/src/fix.rs:974-1015 | a run that does not publish leaves the tracking refs alone; a push that goes through leaves the tracking ref at the local branch |
| FixProtocol.BranchesEndVerified | crates/cli/src/fix.rs:806-969 | over every sequence of edits with others acting in between, a fleetreach branch is where it was, or at a marked commit that a turn for an edit of its name ended verified and left it at |
| FixSchedule.ChooseRequests | crates/cli/src/fix.rs:590-607 | for each branch the listing keeps the last open request, or the first when none is open |
| FixSchedule.Requests.Of | crates/cli/src/fix.rs:590-607 | a repo's requests are listed once; the answer, or the error, stands for the whole run |
| FixSchedule.CanariesComeFirst | crates/cli/src/fix.rs:650-653 | the order of work is a permutation of the plan with every canary edit ahead of the others |
| FixSchedule.PlanOrderHolds | crates/cli/src/fix.rs:650-653 | within the canaries and within the others the plan's order holds |
| FixSchedule.CheckRequests | crates/cli/src/fix.rs:693-711 | an edit is held back exactly when its repo's requests could not be listed, or the one kept for its branch is closed or merged; otherwise it is told whether that one is open |
| FixSchedule.WithinLimitsStep | crates/cli/src/fix.rs:655-730 | one more result keeps all limits when the guards of the loop held before it |
| FixSchedule.ApplyNext | crates/cli/src/fix.rs:655-730 | an edit is attempted exactly when it is not blocked, the run is not stopped by failures or a canary nor over its repos or requests, its repo is in the fleet and its requests allow it; the record is the attempt's answer or the reason, and keeps every limit |
| FixSchedule.RunApply | crates/cli/src/fix.rs:618-750 | over every plan and every outcome: each edit in scope gets one result in canary order, attempted exactly when no test holds it back at its turn, and all limits hold |
| FixSchedule.EveryEditIsRecorded | crates/cli/src/fix.rs:655-669 | without a repo filter every edit of the plan is recorded as often as it is there; with one, exactly the blocked edits and those of the named repos |
| FixSchedule.AttemptedWheneverAllowed | crates/cli/src/fix.rs:655-730 | an edit is attempted iff it is not blocked, its repo is in the fleet, and the counts of failed turns, repos and opened requests, the canaries and its repo's requests each allow it |
| FixSchedule.UnattemptedIsSkipped | crates/cli/src/fix.rs:655-730 | an edit not attempted opens nothing and is recorded skipped, or not applied when its repo's requests could not be listed |
| FixSchedule.FailedCanaryHoldsTheRest | crates/cli/src/fix.rs:650-690 | once any canary edit failed, no edit of another repo was ever attempted |
| FixSchedule.CloseObsolete | crates/cli/src/fix.rs:1045-1079 | exactly the open requests on branches no edit of the plan asks for, in scanned repos in scope, are to be closed |
| FixClosing.Origins.CloseOne | crates/cli/src/fix.rs:1081-1150 | fetch, judge, close, delete: a command that fails ends the request, with others writing before and between |
| FixClosing.CloseUnwanted | crates/cli/src/fix.rs:1042-1079 | exactly the obsolete requests are turned to, each once, and a branch the plan wants, of a repo it did not scan, or not of fleetreach, is where other people left it |
| FixClosing.OnlyTheClosedAreTouched | crates/cli/src/fix.rs:1081-1150 | over every trace, other branches are where other people left them, and each deleted branch is a fleetreach one whose fetched head said verified |
| FixClosing.WantedBranchesAreUntouched | crates/cli/src/fix.rs:1042-1079 | over every trace that turns to obsolete requests only, what the plan wants or did not scan is left to other people |
| FixClosing.DeletedIsJudgedIff | crates/cli/src/fix.rs:1098-1150 | over every trace, the deleted head is the judged one iff the last write by others to the branch since the fetch, if any, put that head back |
| RpmOrder.CompareSegments | scripts/update-centos.py:70-83 | the comparison of two segments as Python makes it is that of the two tokens |
| RpmOrder.RpmVerCmp | scripts/update-centos.py:41-86 | the two-index loop ends and is the lexicographic order on tokens: tilde, end, caret, letters, digits |
| RpmOrder.RpmIsATotalPreorder | scripts/update-centos.py:41-86 | on all texts: reflexive, antisymmetric in sign, transitive, and equal iff the tokens are the same |
| RpmOrder.DigitsCompareByValue | scripts/update-centos.py:78-83 | runs of digits of any length compare by the number they write |
| RpmTexts.TildeEndCaretMore | scripts/update-centos.py:50-68 | for any texts: `v~x` is before `v`, `v^x` after `v` and before `v.y`, and `v.y` after `v` |
| RpmTexts.LettersBeforeDigits | scripts/update-centos.py:75-76 | for any front, a part of letters is before a part of digits |
| RpmTexts.NumbersByValue | scripts/update-centos.py:78-83 | parts of digits compare by value, whatever their length and leading zeros |
| RpmTexts.WordsByFirstDifference | scripts/update-centos.py:82-83 | parts of letters compare at the first letter that differs, the shorter first |
| RpmTexts.SeparatorsDoNotCount | scripts/update-centos.py:46-49 | any separators do for any others |
| RpmOrder.BuildReadsBack | scripts/update-centos.py:89-92 | a printed build splits into the epoch, version and release it was printed from |
| RpmOrder.Compare | scripts/update-centos.py:95-99 | an error iff an epoch cannot be read, else the order of the two builds, the release counting only when both have one |
| RpmTexts.EpochThenVersionThenRelease | scripts/update-centos.py:89-99 | printed builds compare by epoch, then version, then release |
| RpmOrder.CompareEvrTransitive | scripts/update-centos.py:95-99 | below chains exactly unless the middle build lacks the release that would tell the outer two apart |
| RpmOrder.ReleaseGapHappens | scripts/update-centos.py:95-99 | such a chain of builds exists |
| RpmOrder.Release | scripts/update-centos.py:126-148 | the kept build of each key was offered, and is at or above every build offered for it |
| RpmTexts.RowsAreOffered | scripts/update-centos.py:138-147 | the builds considered are exactly those of packages that are not source packages, under their name and module stream |
| RpmOrder.HighestInAnyOrder | scripts/update-centos.py:138-148 | reading the same builds in another order keeps equal builds |
| Osv.AffectedCarriesUp | crates/core/src/osv.rs:97-137 | with every last affected bound below it, what affects a version affects every version up to the next fix |
| Osv.LastEventDecides | crates/core/src/osv.rs:97-137 | a range affects a version iff it can be matched and its last event to say anything of the version puts it in and does not take it out; with none, iff nothing is introduced |
| FixTargets.StepIsSound | crates/cli/src/fix_targets.rs:76-111 | clear iff nothing counted hits the target; a version to go to is a published fix above it, hit by nothing, the least such, and a fixpoint; stuck means no such fix |
| FixTargets.StepMeans | crates/cli/src/fix_targets.rs:76-111 | over the advisories' own fields: clear iff none is of the target that is targeted by id or alias or that no installed version has; else the least published fix offered of which that holds, stuck iff there is none |
| FixTargets.StepIsComplete | crates/cli/src/fix_targets.rs:42-111 | where from the target up the counted advisories are told by fixes alone with none passed over, the step is the least of all clear versions above the target, and stuck means there is none |
| FixTargets.LastAffectedIsStuckIff | crates/cli/src/fix_targets.rs:76-111 | told by one last affected version, the step is stuck below a clear version iff the target lies in the range and a version lies above it |
| FixTargets.PlannedEdit.Check | crates/cli/src/fix_targets.rs:113-193 | the edit moves as the step says, a block stays a block, what names the edit is kept; where written versions read back, an edit not blocked ends at a target its own step calls clear |
| NpmRange.ParsePartial | crates/cli/src/fix_constraints.rs:166-193 | the loop with its wildcard flag reads what the grammar of partial versions gives |
| NpmRange.PartialInOrder | crates/cli/src/fix_constraints.rs:166-193 | nothing after a wildcard or a missing number counts |
| NpmRange.ComparatorSet | crates/cli/src/fix_constraints.rs:273-300 | hyphen ranges and joined marks read as the whole set of plain comparators, unreadable when any token is |
| NpmRange.NpmSatisfies | crates/cli/src/fix_constraints.rs:313-331 | no answer iff some part between bars is unreadable, else whether some part takes the version |
| NpmRange.AfterMeans | crates/cli/src/fix_constraints.rs:212-222 | for every version, prereleases included: before the bound after k numbers iff its first k numbers are at most the partial's |
| SemVer.PrecedenceIs | crates/cli/src/fix_constraints.rs:303-311 | precedence as section 11 of Semantic Versioning 2.0.0 has it: numbers first, a prerelease before its release, then the first identifier that differs |
| SemVer.PrereleaseParsesIff | crates/cli/src/fix_constraints.rs:196-210 | a prerelease parses iff it is identifiers of section 9 of Semantic Versioning 2.0.0 joined by dots, and as those |
| NpmRange.CaretKeepsThroughLeftmostNonZero | crates/cli/src/fix_constraints.rs:245-256 | a caret keeps everything through the leftmost given number that is not zero, or all the given ones |
| NpmRange.SugarMeansWhatItSays | crates/cli/src/fix_constraints.rs:229-270 | among releases every mark takes exactly its intended versions |
| NpmRange.HyphenMeansWhatItSays | crates/cli/src/fix_constraints.rs:273-300 | a hyphen range takes the releases from its low end through everything its high end names |
| NpmTexts.WrittenRangeTakes | crates/cli/src/fix_constraints.rs:229-331 | from the text of any range written with marks, whole or partial versions, spaces and bars: it takes a version, prerelease or not, iff one of its sets has every bound take it and a prerelease is named by one of them |
| NpmTexts.EachMarkTakes | crates/cli/src/fix_constraints.rs:229-270 | from the text of one mark before a printed version, with or without a space: which releases it takes, by their three numbers |
| NpmRange.PrintedReadsBack | crates/cli/src/fix_constraints.rs:166-193 | a printed version with numbers up to 2^53-1 reads back whole |
| NpmRange.RaisedRangeTakesTheTarget | crates/cli/src/fix_constraints.rs:494-503 | for every old range, the raised range printed and read again takes the target |
| NpmRange.RaisingKeepsTheSpirit | crates/cli/src/fix_constraints.rs:494-503 | a tilde range stays one, an exact version with no space stays exact, with or without its equals sign, every other becomes a caret, and the bound is the target |
| NpmRaise.Constrain | crates/cli/src/fix_constraints.rs:37-62 | blocked iff a range the repo does not own excludes the target, a manifest bump iff only its own do |
| NpmRaise.RaisingSettlesOwnRanges | crates/cli/src/fix_constraints.rs:541-584 | once raised, no own range excludes the target, and what blocks is as before |
| NpmRaise.RaiseManifest | crates/cli/src/fix_constraints.rs:541-584 | every excluding range of the manifest is raised in the text in turn, and a change is reported iff the text changed |
| Splice.Replaced | crates/cli/src/fix_managers.rs:220-227 | replacing from the back, in whatever order the ranges come, is the left-to-right splice |
| Splice.EachRangeHoldsTheText | crates/cli/src/fix_managers.rs:220-227 | every range holds the new text, at its place moved by what the ranges before it grew |
| Splice.OutsideIsKept | crates/cli/src/fix_managers.rs:220-227 | every character outside the ranges is kept, in order |
| Splice.WithNpmRange | crates/cli/src/fix_constraints.rs:514-534 | the one pass over the text splices the new range into exactly the sites |
| Splice.SitesAreSites | crates/cli/src/fix_constraints.rs:514-534 | a site is the old range, quoted, after the quoted package, a colon and white space only |
| Splice.SitesAreComplete | crates/cli/src/fix_constraints.rs:514-534 | every such place is changed, unless an earlier key or the site of an earlier key reaches over its own key |
| Splice.SitesExactly | crates/cli/src/fix_constraints.rs:514-534 | the value after a key is changed iff no key read before it is still being read there |
| Splice.OverlapIsASharedQuote | crates/cli/src/fix_constraints.rs:514-534 | between quoted texts without quotes inside that happens at a shared quote only, or when the package's name is itself the range |
| Splice.RaisingToItselfChangesNothing | crates/cli/src/fix_constraints.rs:514-534 | writing the range already there leaves the file as it is |
| Splice.WithoutYarnEntries | crates/cli/src/fix_managers.rs:60-83 | the flag over the lines drops exactly the entries that name the package |
| Splice.DroppingOnceIsEnough | crates/cli/src/fix_managers.rs:60-83 | no key line of the package is left, and dropping again changes nothing |
| YarnTexts.WholeEntriesGo | crates/cli/src/fix_managers.rs:60-83 | of a lockfile as written, exactly the entries one of whose keys names the package go, with their lines, and everything else stays |
| Splice.VersionParts | crates/cli/src/fix_managers.rs:231-242 | the core loses all its trailing zero parts and the suffix is what follows the core |
| Splice.VersionIs | crates/cli/src/fix_managers.rs:231-242 | same iff some candidate has the same suffix and, up to added zero parts, the same core |
| Splice.SameVersionInParts | crates/cli/src/fix_managers.rs:231-242 | cut at the first dash or plus, two versions are the same iff what follows is the same text and the numbers differ in trailing zero parts alone |
| Csaf.Verdicts.AddVerdict | crates/cli/src/csaf.rs:729-752 | a verdict is recorded exactly when stronger than the one standing, other slots untouched |
| Csaf.FoldIsAMaximum | crates/cli/src/csaf.rs:702-752 | whatever the order of entries: a highest fix if there is one, else not affected if said, else the first open status |
| Csaf.AnyOrderSameVerdict | crates/cli/src/csaf.rs:702-752 | reordering the entries changes no verdict but between equal versions and open statuses |
| Csaf.RedHatVex | crates/cli/src/csaf.rs:824-873 | the loop folds exactly what each rpm entry of a main stream says |
| Csaf.MainStreamCpesRead | crates/cli/src/csaf.rs:688-700 | a platform is a main stream iff its CPE is the operating system or application of a numbered release, whatever follows |
| Csaf.RedHatVerdict | crates/cli/src/csaf.rs:824-873 | fixed iff some rpm entry of a main stream states a readable fix, and then at a highest one; not affected iff one says so for the release or its main stream and there is no such fix |
| Csaf.RedHatOpenStatus | crates/cli/src/csaf.rs:664-673 | an open package carries the state of the first Red Hat entry that states it open |
| Csaf.SuseVex | crates/cli/src/csaf.rs:880-931 | the loop folds exactly what each SUSE entry says |
| Csaf.SuseVerdict | crates/cli/src/csaf.rs:880-931 | fixed iff some readable fix is stated, what is merely recommended beside a status of its platform and component not counting, and then at a highest one; not affected iff that is said and no such fix |
| Csaf.SuseOpenStatus | crates/cli/src/csaf.rs:880-931 | an open package carries the state of the first SUSE entry that states it open |
| Csaf.VexAffects | crates/cli/src/csaf.rs:764-816 | read by the range matcher, the written advisory hits the versions below the fix, all of them, or none, as the verdict is |
| Assemble.GroupsConserve | crates/correlate/src/lib.rs:63-117 | every occurrence and alias of the input is in its group and nothing else is, under the worst severity of the group |
| Assemble.Correlate | crates/correlate/src/lib.rs:63-117 | the one pass over the findings gives those groups |
| Assemble.MalwareGroupsAreCritical | crates/cli/src/assemble.rs:282-287 | a group with a malware name in any of its records is critical |
| Assemble.SuppressOne | crates/cli/src/assemble.rs:416-438 | each occurrence stays iff no suppression applies to it, and the ids are those of the first that do |
| Assemble.SuppressFindings | crates/cli/src/assemble.rs:416-438 | a finding goes only when nothing of it stays, and what was taken is exactly what a suppression claims |
| Assemble.SuppressWarnings | crates/cli/src/assemble.rs:440-451 | exactly the warnings a fleet-wide suppression names go |
| Assemble.StaleIds | crates/cli/src/assemble.rs:453-460 | exactly the ids that matched nothing, each once |
| Assemble.ApplySuppressions | crates/cli/src/assemble.rs:409-462 | the four results together account for every finding, warning and suppression |
| Assemble.AssembleReport | crates/cli/src/assemble.rs:276-313 | with no severity filter, the report accounts for the groups of all input findings |
| Assemble.OccurrencesAreConserved | crates/cli/src/assemble.rs:276-313 | each input occurrence is in the report or among the suppressed, never both, and nothing else is |
| AssembleLaws.ReportedUnlessSilenced | crates/cli/src/assemble.rs:409-438 | an occurrence is reported iff a record has it and no suppression with the finding's id or an alias covers its own repo, package, version and ecosystem; one for another place leaves it |
| AssembleLaws.StaleIsExact | crates/cli/src/assemble.rs:453-460 | an id is stale iff it is listed, was never the first to cover an occurrence, and names no warning fleet-wide |
| Assemble.NoFalseClean | crates/cli/src/assemble.rs:392-404 | exit 0 means something was scanned, nothing errored, and every input occurrence is claimed by a suppression, or is no malware and its own record's severity is known and below its scope's floor or its scope never gates; the only gap is a record without a severity among known ones below the floor |
| AssembleLaws.ExitIsExact | crates/cli/src/assemble.rs:392-404 | exit 2 iff something errored or nothing was scanned, else 1 iff an unsilenced occurrence of the input is malware or reaches the floor of its scope by its records' severities, or a warning trips, else 0 |
| Assemble.NoFalseCleanByGroup | crates/cli/src/assemble.rs:253-265 | the same with the severity of the whole finding, and then with no gap |
| Assemble.UnknownIsHiddenExactlyByKnownRecords | crates/correlate/src/lib.rs:104-112 | a record that would gate is hidden by its group iff it gives no severity, some record of the finding gives one, and all of them are below the floor |
| Assemble.AgreeingRecordsHideNothing | crates/correlate/src/lib.rs:104-112 | where the records of an advisory agree, the group has their severity |
| Assemble.UnknownHiddenHappens | crates/cli/src/assemble.rs:392-404 | one record rated low beside one not rated lets a fleet gating on high exit 0 |
| HealthCache.MergeTakesTheNewestWord | crates/cli/src/health.rs:145-153 | merging keeps known and unknown versions apart, forgets none, and the newer answer speaks for each version it was asked about |
| HealthCache.Answer.Merge | crates/cli/src/health.rs:145-153 | the loop of removals and the two extensions make that merge |
| HealthCache.PerVersion | crates/cli/src/health.rs:225-241 | an answer gives each asked version its own verdict and speaks of no other; one failed verdict fails it all |
| HealthCache.Check | crates/cli/src/health.rs:667-686 | a package the registry does not have has every asked version unknown; an unreachable registry gives no answer |
| HealthCache.Cache.Refresh | crates/cli/src/health.rs:891-931 | exactly the wanted packages with a registry and no fresh covering answer are asked; each answer heard is stamped and merged, each failure leaves its entry and is returned |
| HealthCache.DuePackagesAreRefreshed | crates/cli/src/health.rs:889-931 | a package is asked about iff in use, of a registry, and missing a version or a week old; then it fails as the registry does, or takes its word for each version in use and keeps the others |
| HealthCache.CacheSaysTheLastWord | crates/cli/src/health.rs:889-931 | over every sequence of runs: no version is both known and unknown, and the cache says of each version what the last run to hear of it was told |
| HealthCache.AnsweredAfterAnOnlineRun | crates/cli/src/health.rs:899-903 | a wanted package whose lookup did not fail has an answer for every wanted version, stamped within the freshness limit |
| HealthCache.EntriesAreNeverLost | crates/cli/src/health.rs:891-931 | offline nothing changes, and no run forgets a version |
| HealthReport.Report | crates/cli/src/health.rs:1043-1108 | the gaps count the first unanswered use of each identity, the warnings list its places once for each flag |
| HealthReport.ListedExactly | crates/cli/src/health.rs:1064-1095 | a place is under a warning iff a counted use there raised a flag with its id |
| HealthReport.FlaggedExactlyWhenRaised | crates/cli/src/health.rs:1064-1095 | a warning is reported iff for some use the registry says so of its version, or its source repo is archived, or scores below the floor |
| HealthReport.GapsExactly | crates/cli/src/health.rs:1050-1063 | a file has a gap iff it is the first to list a use of a registry package with no answer or a failed lookup |
| HealthReport.NoAnswerIsNeverClean | crates/cli/src/health.rs:1043-1108 | a use of a registry package is in a gap, or answered for its version with every flag listed; with neither, its answer is an explicit nothing |
| HealthReport.GapsCountEachUseOnce | crates/cli/src/health.rs:1050-1063 | the gaps add up to the number of distinct uses without an answer |
| HealthReport.Wanted | crates/cli/src/health.rs:1111-1115 | each package in use is wanted at exactly the versions in use |
| HealthReport.Run | crates/cli/src/health.rs:1110-1144 | the cache goes through the run and the report is of what it then holds |
| HealthReport.OnlineGapsAreFailuresAndUnknownVersions | crates/cli/src/health.rs:1110-1144 | after an online run a use is unanswered iff its lookup failed or the registry does not have its version; every other answer is fresh |
| DiffText.ParseAdded | crates/cli/src/attribute.rs:287-307 | the loop reads what the lines of the diff add, with 32-bit numbers |
| DiffText.HeaderReadsBack | crates/cli/src/attribute.rs:291-298 | a printed hunk header gives the first line of its new range, whatever section it names |
| DiffText.ReadingAPrintedDiff | crates/cli/src/attribute.rs:287-307 | the diff printed for any change reads back as exactly its added lines in order, numbered in the new file, even when their text starts with at signs, plus or minus |
| DiffText.ReadingIsExactIff | crates/cli/src/attribute.rs:287-307 | the texts are unchanged iff no added line ends in a carriage return |
| DiffText.NumbersAreLinesOfTheNewFile | crates/cli/src/attribute.rs:287-307 | the line of the new file at each number given is the text given, and the numbers ascend |
| Attribute.NewOccurrences | crates/cli/src/attribute.rs:134-168 | one finding for each key the baseline lacks, from its first listing |
| Attribute.NewFindingsAreTheFirstListings | crates/cli/src/attribute.rs:134-168 | the new findings are exactly those the baseline lists nowhere, each as its first listing tells it |
| Attribute.PlaceOne | crates/cli/src/attribute.rs:350-378 | introduced iff a lockfile holds it only now, existing iff all that hold it held it at the merge base, at the first that says so |
| Attribute.PlacingHidesOnlyWhatWasThere | crates/cli/src/attribute.rs:71-91 | a placed finding gates iff it would unplaced and is not in lockfiles all of which had it before: an unreadable format hides nothing |
| Attribute.GatesExactly | crates/cli/src/attribute.rs:71-91 | which findings gate: not those there before, dev ones by the gate for dev findings, the others by the severity the run fails on, warnings when it fails on them |
| Attribute.NewFindingsAreCaughtByTheFirstListing | crates/cli/src/attribute.rs:134-168 | a new occurrence is caught iff the first listing of its key gates |
| Attribute.AgreeingListingsHideNothing | crates/cli/src/attribute.rs:134-168 | where the listings of a key agree on severity and scope, it is caught iff it gates itself |
| Attribute.DevListingHidesARuntimeOne | crates/cli/src/attribute.rs:146-149 | a critical runtime listing behind a dev listing of its key is not caught when dev findings never gate |

## Left out

- The history queries on EPSS, age, mean time to fix and service levels, trend grouping and the inventory file: readings of the index that would only add easy members.
- Unreadable or lost indexes and snapshots, times that do not parse, duplicate run ids and duplicate keys in a stored index: every stored file is read as it was written.
- The 32-bit wrap of the reopening count, which needs four thousand million reopenings.
- Git, forge, registry and package-manager commands, temporary directories and the text of errors: every answer is an input, and no property depends on which.
- Edits of manifests other than npm's, the Cargo side of constraints, and the walk that finds a package's copy in node_modules: tables over the same questions.
- Build metadata in versions, and full node-semver equality on prereleases: a bound such as `<1.2` is kept as the code has it.
- The spellings of an epoch Python's `int` takes beyond digits (signs, underscores, surrounding spaces).
- Numbers of 64 bits and more in a version part: past 2^53-1 both the code and the model call them unreadable.
- One rule of precedence across SUSE platforms that share an ecosystem: the code's rule on recommended versions is per platform and component, and so is the model's.
- The parsing of rpm and other version types: abstract orders with a reading function.
- The order of findings, warnings and occurrences in a printed report: sets and maps hold them here.
- Severity, EPSS and reachability filters, base-image roll-up and dropped occurrences in `assemble`: they remove by a single test each.
- Refreshing source repos and scorecards, and the wording of flags and titles: the report takes what is cached of them.
- Freshness of a single version in the health cache: merging stamps the whole package, as the code does, so an answer the last run did not ask for may be older than its stamp.
- The manifest line named as the cause of a finding, and which repo a checkout is: the search takes added lines one by one.
- Configuration, forge paging, image and inventory reading, evidence, cross-checks and the website: validation and plumbing.
- HealthCache.PerVersion: which of several failures is reported is not fixed, because the versions are taken in any order.
- DiffText.ReadingAPrintedDiff: new files have fewer than 2^32-1 lines, the range of the numbers the program keeps.
- HistoryStore.CrashSafeRetention: runs have distinct ids and come in the order of their times, as a clock that does not go back gives them.
- FixProtocol.VerifiedBranchesPassed: a listed head that carries the marks was verified, in this clone or another, since the marks in the message are all the code reads.
- HistoryPruning.LateFixLostInAnyHistory: the status alone; the other fields are characterised for pruned runs older than those on disk. It says nothing of a finding touched on disk when a newer run that touched it or vouched for its repo was pruned, since neither the index nor the disk then tells what came last.
- HistoryPruning.RebuiltEntryDiffersIff: the reopening guard takes from outside whether the pruned runs left the finding fixed, which the index and the disk need not show.
- FixSchedule.RunApply: an edit whose branch is listed with an open request updates it rather than opening another, as the forge reports it.
- FixTargets.PlannedEdit.Check: that the edit ends at a clear target is promised where a version written by its own type reads back as itself.
