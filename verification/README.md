# LeafWiki, verified

A Dafny model of the four hand-written parts of LeafWiki whose guarantees are meant to hold on every
input and in every run, with proofs of those guarantees. `dafny verify dfyconfig.toml` checks all of it.

Code that changes state step by step is a class or a method with loops here; code that only computes a
value is a function. Calls into the operating system, the network, the database, the Markdown parser and
the clock are arbitrary inputs, so a contract speaks about every way they can turn out.

## Git backup

`GitTrees`, `Splice`, `DirTrees`, `PullPlan`, `Materialize`, `Directories`, `Applying`, `Commits`,
`Repository`.

Trees are nested maps from names to files and directories; content is a map from paths to blobs;
history is a graph of commits. The remote is seen through single calls, and its branch may be anything at
each of them. Live directories become trees, trees are spliced into the repository's tree, and a pull
decides path by path between base, remote and live.

What the proofs found:

- A pull that is killed inside a write leaves a truncated file. With a base commit the next pull then
  reports a conflict, unless the leftover happens to be base's or remote's version
  (`Materialize.TornWriteConvergesIff`). The first pull of an unborn branch has no base: the next one keeps
  the truncated file silently, and the next backup commits it over the remote's version
  (`Materialize.FirstPullKeepsTornWrite`).
- Killed between operations a pull converges, as the comments say. A removal and the clean-up of the
  directories it leaves empty are two operations, though: killed between them, a pull that is to write a
  file in the place of such a directory is refused on every retry. `Directories` has the exact condition
  (`Directories.KilledCleanUpGetsThroughIff`, `Directories.StuckStaysStuck`).
- With case folding, a rename of `Foo` to `foo` made on both sides deletes the file without a conflict
  (`Materialize.CaseRenameOnBothSidesLosesTheFile`); `Materialize.FoldedPullArrivesIff` says exactly when
  a pull brings in everything.
- `ForcePush` promises not to overwrite a remote it has not seen. After a comparison that said up to date
  or no branch its lease is zero and it does (`Repository.ForcePushOverwritesUnseenIff`).
- A cycle that committed nothing and whose HEAD was pushed before does not push, also if the remote was
  reset meanwhile.

## Live restore

`Swap`, `RestoreJob`, `RestoreManager`, `WriteGate`.

Every item has a live, a staged and a set-aside content. Every call can fail, every step of foreign code
can also panic. The gate is a state machine of the steps its mutex separates.

- `os.Stat` failing on a path that is there counts as absence. For a live path that lets a rename
  overwrite the original, and a clean rollback then removes it (`Swap.MissedLiveIsLost`); for a set-aside
  copy a rollback forgets it (`Swap.RollKeepsSafeIff`). For a staged path the item is skipped without an
  error, and the run may succeed with some items restored and others not
  (`RestoreManager.OneSkippedIsAMixture`). The claims about whole runs hold for every answer of every stat
  and say exactly what the wrong ones cost; no other failure costs anything.
- Settings caches are not reloaded after a rollback (`RestoreManager.RolledBackCachesFreshIff`).
- NeedsIntervention after a failed pause leaves the gate open, with nothing swapped on disk.
- A job can start over a NeedsIntervention state (`RestoreJob.StartOverInterventionIff`), also when no run
  was going at the check (`RestoreJob.AnotherRunInBetween`). Such a run may end as an ordinary error that
  leaves the gate engaged for good (`RestoreManager.Manager.StartOverHidesTheGate`), or opens it over the mixture
  that the earlier run had fenced off (`RestoreManager.Manager.StartOverOpensTheGate`).

## Links

`Text`, `RoutePaths`, `LinkRewrite`, `TextRanges`, `Replacements`, `InlineLinks`, `LinkSyntax`,
`LinksStore`, `LinkService`, `TitleIndex`.

The first group rewrites link texts after a rename or move and proves that they reach the same page. The
second keeps the table of links, a map keyed by source page and target path, equal to what resolving every
page afresh would store.

- The page tree folds titles by Unicode rules, the table by ASCII rules. The index claims therefore speak
  about a set of titles on which the two agree; `TitleIndex.CreateReconcilesIff` says exactly what goes
  wrong otherwise, and `TitleIndex.NonAsciiCapitalStaysBroken` gives the input.
- A rename or move rewrites the path hint of a top-level page in the content as well, so that [[docs]]
  becomes [[guide]]; the rows are re-derived by title rules only and miss it
  (`LinkService.MovedHintIsMissed`, `LinkService.OneRuleFollowsIff`), until the refresh that follows.
- Restoring a revision may change the title back, and only the new title is reconciled: links to the title
  the page loses keep pointing at it (`TitleIndex.RestoredTitleLeavesOldOne`); `TitleIndex.RestoredIff` says
  exactly when.
- A page of a moved subtree whose only spelling of an absolute link has a repeated slash is skipped by the
  second rewriting pass (`LinkRewrite.DoubledSlashIsSkipped`).
- A slash-containing title without a match is a route row and not part of the title index.

## Importer

`ImportPlans`, `PlanStore`, `Executor`, `CodeSpans`, `MarkdownLinks`, `WikiLinks`.

The state file is a sequence of contents, each of which a crash may leave behind; a resume starts from one
of them. The rewriting pass is a scan that tells code from plain text.

- An item that fails does not update the recorded tree hash until the run is through. A run that is
  interrupted with items left is refused when items that failed behind the last good one changed the wiki,
  and also when it began afresh and every item so far failed; its recorded results are then replaced by none.
  Once every item is recorded it is resumed even if the last one failed (`ImportPlans.ResumedIff`,
  `ImportPlans.FailedLastItemIsResumed`).
- In a canceled state the processed count is one less than the number of recorded items when the last
  item failed. In a running state the two are always equal.
- A longer run of backticks closes an inline span (`CodeSpans.LongerRunCloses`).

## Model

| member | source | states |
|---|---|---|
| `Repository.CycleIsThreeWayMerge` | internal/backup/repo.go:509-625 | Under each target the tree has the remote's content where base and remote differ and the live file elsewhere, as far as the ignore and name rules let files in; outside the targets it has exactly the remote's files. This is what a pull of remote and a backup on top of it leave |
| `Repository.Repository.RunBackup` | internal/backup/repo.go:509-625 | A cycle that pulled has the fetched remote tip for its base, and when it ends well the tree at HEAD is the three-way merge of the old HEAD, that tip and the live files; HEAD only moves forward and ends at the base or at one child of it; behind the pull HEAD holds the live content under the targets and the base's content elsewhere, also when the push then fails, and an unborn branch gets its first commit exactly when some file is kept; the cycle succeeds exactly when the pull does, no target path is a file in the repository and the push is accepted or not needed; every way in which the pull can end is told apart |
| `Repository.Repository.CommitLive` | internal/backup/repo.go:524-625 | A commit is added on top of HEAD only when the tree changed, on an unborn branch exactly when some file is kept; HEAD then holds the live content under the targets and its former content elsewhere; it succeeds exactly when no target path is a file in the repository and a push that is needed is accepted, and the status says which |
| `Repository.Repository.PullBeforeBackup` | internal/backup/repo.go:716-761 | HEAD moves only when the remote's changes are on disk, and then to the very tip that was fetched, a descendant of it; the outcome, the status and what is on disk are given for each case: a comparison that fails, nothing to pull, diverged histories, a name that is refused, a conflict in a plan, and else success exactly when the disk lets every operation through, or the operations before the one it stops |
| `Repository.Repository.MoveTo` | internal/backup/repo.go:734-760 | HEAD moves exactly when the content was applied; a conflict asks for intervention, any other failure is an error, and both leave HEAD |
| `Repository.Repository.Pull` | internal/backup/repo.go:482-502 | A pull moves HEAD to the fetched tip, forward, or not at all, and ends as the part it shares with a backup cycle does in each case; it leaves a clear status exactly when it succeeds with a remote |
| `Repository.Repository.CompareWithRemote` | internal/backup/repo.go:787-859 | The verdict is which of HEAD and the fetched tip can be reached from the other, through any parents: a tip that has HEAD among its parents, be it the second of a merge, is behind; it fails exactly when the list or a needed fetch does not get through |
| `Repository.Repository.Push` | internal/backup/repo.go:956-1054 | Exactly when a push lands: unforced as a fast-forward, forced under a lease while the tip is the leased commit, forced with no lease over anything; exactly when it is reported as pushed, or as refused because the remote moved; and what is remembered of it |
| `Repository.Repository.ForcePush` | internal/backup/repo.go:1105-1145 | HEAD stays; nothing is pushed from behind; after an ahead or diverged comparison the remote is replaced only while its tip is the compared commit; exactly when it succeeds, and which status is left in each case |
| `Repository.ForcePushOverwritesUnseenIff` | internal/backup/repo.go:1128-1131 | A force push replaces a tip it has not seen exactly when the comparison said up to date or no branch, because the lease is then zero, and another tip came in since |
| `Repository.UpToDateForcePushDropsNewCommit` | internal/backup/repo.go:1128-1131 | The concrete case: after an up-to-date comparison a commit pushed on top by somebody else is dropped |
| `Repository.BehindIsNeverForced` | internal/backup/repo.go:1116-1124 | A HEAD that is an ancestor of the compared tip is never force-pushed |
| `Repository.Repository.Session` | internal/backup/repo.go:482-625 | In every interleaving of backups, pulls and force pushes with pushes by others, HEAD ends at a descendant of where it was |
| `Repository.Repository.Materialize` | internal/backup/tree.go:613-687 | Both targets are planned, each from its files in base, remote and on disk, before either is changed; the outcome is a conflict exactly when some plan has one, on a case-sensitive disk exactly when both sides changed some file, and then nothing changes; an unreadable name fails it with nothing changed; else it is applied exactly when the disk lets every operation of both plans through, which on a case-sensitive disk is the merge |
| `Repository.Repository.PlanTarget` | internal/backup/tree.go:662-687 | The plan of a target is made from base's, remote's and the live files at that target's tree path, with conflict checks exactly when there is a base commit |
| `Repository.Repository.PlanConflicts` | internal/backup/tree.go:738-747 | On a case-sensitive disk the plan of a target has a conflict exactly when base and remote differ at a path and the live file is neither |
| `Repository.Repository.BuildTarget` | internal/backup/tree.go:252-270 | A live target becomes a tree of exactly its kept files, and is absent exactly when it keeps none |
| `Repository.Repository.BuildContentReplacements` | internal/backup/tree.go:252-270 | The replacements are the two targets, neither inside the other, each with the kept live files |
| `Repository.Repository.LiveTree` | internal/backup/repo.go:530-560 | The tree with the live content spliced in, or an error exactly when a target path is a file; from nothing it is empty exactly when no file is kept |
| `Commits.AncestryIsAntisymmetric` | internal/backup/repo.go:842-858 | The ancestry tests of the comparison cannot both hold for two different commits |
| `Commits.AncestorsCompose` | internal/backup/repo.go:842-858 | Ancestry is transitive, so fast-forwards compose |
| `Commits.AncestorIffReachable` | internal/backup/repo.go:842-858 | A commit is an ancestor exactly when a chain leads down to it, in which each commit is some parent of the one before |
| `Splice.SplicedFiles` | internal/backup/tree.go:277-337 | For targets none of which lies inside another, the spliced tree's files are exactly base's files outside the targets and each replacement's files under its target |
| `Splice.SpliceTree` | internal/backup/tree.go:277-337 | The splice fails exactly when a target or a directory leading to one is a file in base, and else gives the one tree the specification names, for every order in which the maps are visited |
| `Splice.CollidesMeansFileOnTheWay` | internal/backup/tree.go:300-327 | The error is raised exactly when some target, or a directory leading to one, is a file in base |
| `Splice.NotPresentMeansEmpty` | internal/backup/tree.go:330-336 | The result is empty, so reported as not present, exactly when no file is left in it |
| `Splice.SplicedIntoNothing` | internal/backup/tree.go:330-336 | Targets without a tree spliced into nothing give nothing, any other target gives something |
| `Splice.SpliceKeepsDirsNonEmpty` | internal/backup/tree.go:277-337 | Splicing non-empty directories into a base without empty directories leaves none behind |
| `Splice.UpsertTreeEntry` | internal/backup/tree.go:350-361 | The entries list the old tree with the one name replaced, or removed for a zero hash |
| `Splice.FindTreeEntry` | internal/backup/tree.go:339-346 | The entry of that name, if the tree has one |
| `Splice.WriteTree` | internal/backup/tree.go:60-71 | Storing the entries gives back the tree they list |
| `Splice.SplitReplacements` | internal/backup/tree.go:283-296 | Each replacement is recorded once: directly under its only segment, or in the group of its first segment by the rest of its path |
| `DirTrees.BuildDirTree` | internal/backup/tree.go:90-182 | The tree has exactly the live files whose every path prefix is taken by the ignore and name rules; every name in it passes the check made when it is read back; no directory in it is empty |
| `DirTrees.BackupThenRead` | internal/backup/tree.go:90-182 | What a backup stores of a directory is always readable by a pull, with the same content |
| `DirTrees.NotPresentIffNothingKept` | internal/backup/tree.go:174-181 | A directory is left out exactly when it keeps no file |
| `DirTrees.KeptIff` | internal/backup/tree.go:109-172 | A file is kept exactly when no entry on its way is called .git, has a name that is refused, or is ignored, as a directory on the way and as a file at its end |
| `GitTrees.FlattenTree` | internal/backup/tree.go:467-492 | The files recorded are exactly those of the tree under the prefix, and the read fails exactly when some name anywhere is not valid |
| `GitTrees.SubtreeAt` | internal/backup/tree.go:425-448 | The directory at the path; a missing or non-directory segment on the way is not present |
| `GitTrees.FilesUnder` | internal/backup/tree.go:452-465 | The files below a directory of a tree, empty when it is not there; fails exactly on an invalid name below it |
| `GitTrees.FilesArePrefixFree` | internal/backup/tree.go:467-492 | No file of a tree lies below another file of it |
| `PullPlan.PlanContentChanges` | internal/backup/tree.go:705-755 | The lists hold each changed path once, in the list its three versions decide, for every iteration order and every folded view of the live files |
| `PullPlan.UnionKeys` | internal/backup/tree.go:813-826 | Every path of either map, once |
| `PullPlan.FoldLive` | internal/backup/tree.go:712-719 | One live content for each folded name, taken from a file of that folded name |
| `Materialize.CleanPullMerges` | internal/backup/tree.go:705-798 | On a case-sensitive disk a conflict-free pull gives remote's version wherever remote differs from base and leaves every other path alone |
| `Materialize.PullNeverClobbers` | internal/backup/tree.go:705-798 | At every moment of applying, a path that changed held base's version before and holds remote's now |
| `Materialize.FoldedPullNeverClobbers` | internal/backup/tree.go:705-755 | Where case is folded, whatever changes under a folded name at any moment held base's version of a path of that name, or already remote's, and is remote's version of it now |
| `Materialize.ConflictIff` | internal/backup/tree.go:741-748 | A path is a conflict exactly when remote and live both left base's version and disagree |
| `Materialize.InterruptedPullConverges` | internal/backup/tree.go:761-798 | On the files, after any prefix of the deletes and writes, replanning from the same base and remote finds no conflict and ends with the files of an uninterrupted apply |
| `Materialize.TornWriteConvergesIff` | internal/backup/tree.go:802-811 | Killed inside any write of the plan, the next pull converges exactly when what the write left is base's or remote's version, and otherwise reports a conflict |
| `Materialize.FirstPullKeepsTornWrite` | internal/backup/tree.go:738-743 | With no base commit the next pull reports no conflict, keeps the torn file and brings everything else; it converges only if the torn file happens to be remote's version |
| `Materialize.FoldedPullArrivesIff` | internal/backup/tree.go:705-755 | With case folding, a conflict-free pull brings in every remote change, case-only renames included, exactly when no path the remote deleted folds together with a remote path that the live directory has in that very spelling |
| `Materialize.CaseRenameOnBothSidesLosesTheFile` | internal/backup/tree.go:729-752 | The losing case: base Foo, remote foo and live foo give a plan without conflict that removes the file |
| `Materialize.ClashIsWithLocalOnlyFile` | internal/backup/tree.go:790-797 | A file that is in the way of a planned write exists locally and in neither version |
| `Materialize.UnbornPullIsSync` | internal/backup/tree.go:558-600 | A pull with no base commit adds exactly what the first-contact sync adds |
| `Applying.LiveDirs.ApplyMaterialize` | internal/backup/tree.go:761-798 | Every path is resolved before anything changes; it succeeds exactly when no path lies outside and no operation, tried where the ones before it leave the disk, finds it worn out or a file or directory in the way; success performs every plan, and a failure leaves complete targets, one interrupted target and untouched ones |
| `Applying.LiveDirs.MaterializeContent` | internal/backup/tree.go:613-628 | A conflict in any plan, and only that, means nothing is written and the conflict is reported; without one it is applied exactly when the disk lets every operation through |
| `Applying.LiveDirs.ApplyTarget` | internal/backup/tree.go:780-797 | The deletes of a target are done first, then its writes, up to the operation that fails |
| `Applying.LiveDirs.WriteLiveBlob` | internal/backup/tree.go:802-811 | One file is written and its directories made; something in the way changes nothing, a failing disk may leave a torn file |
| `Applying.LiveDirs.RemoveEmptyParents` | internal/backup/tree.go:830-845 | The empty directories go, from the one the file was in upwards, up to the first that holds something; no file and no other target changes |
| `Directories.PlanGetsThroughIff` | internal/backup/tree.go:780-797 | On any disk a plan gets through exactly when the files it ends in do not clash and no write goes to the place of a directory that holds no file, or that such a one lies in |
| `Directories.KilledBetweenGetsThrough` | internal/backup/tree.go:780-797 | Killed between two operations, a pull that would have got through gets through next time, to the same files |
| `Directories.KilledCleanUpGetsThroughIff` | internal/backup/tree.go:785-788 | Killed in the clean-up behind a removal, before any directory went or after some did, the next pull finds no conflict, and gets through exactly when the directory the clean-up would have looked at next has a file in it or no write goes to its place or to that of a directory above it |
| `Directories.KilledCleanUpIsStuck` | internal/backup/tree.go:785-788 | Otherwise the empty directory is in the way of a write that is still to be made |
| `Directories.StuckStaysStuck` | internal/backup/tree.go:785-797 | Such a pull never gets through again: every retry is refused, and however far it comes the empty directory and the write are still there |
| `Directories.KilledMkdirGetsThrough` | internal/backup/tree.go:802-811 | Killed in a write before, while or after its directories were made, the next pull gets through to the files of an uninterrupted one |
| `Applying.LiveDirs.SyncFromRemote` | internal/backup/tree.go:558-600 | Files that are there stay, remote-only files are added, nothing is deleted, also when it stops half way |
| `RestoreManager.Manager.RunGuarded` | internal/restore/manager.go:220-228 | From whatever gate and stores an earlier run has left, whatever step fails or panics and whatever os.Stat answers: it succeeds exactly when every step that counts does, and it ends with an ordinary error exactly when validation fails or a later step does and each call that undoes it works; a run that succeeds has restored everything exactly when it skipped no captured item that differs from its original, has left a mixture exactly when it skipped some such items and put others in place, and has removed every set-aside copy whose removal works; a run that ends with an ordinary error leaves every item as it was but for those whose only copy a stat missed, and is ready for requests exactly when it got past validation or was ready before; where no stat missed a copy, an engaged gate means that every original is safe; with the gate disengaged and no wrong stat every item is wholly as it was or every captured item wholly restored |
| `RestoreManager.Manager.RunFromZipPath` | internal/restore/manager.go:237-367 | The same for a run before the panic guard, with the job finished unless a panic is on its way up; a failed validation changes neither gate nor stores nor disk |
| `RestoreManager.LandedIff` | internal/restore/swap.go:358-377 | A swap that went through has restored everything exactly when the staged stat missed no captured item that differs, and has changed nothing exactly when it missed all of them |
| `RestoreManager.OneSkippedIsAMixture` | internal/restore/swap.go:360-362 | The failing input: of two captured items one is missed, every step reports success, and the disk holds a mixture |
| `RestoreManager.BackIsOriginalIff` | internal/restore/swap.go:387-416 | What a rollback without errors leaves is the original everywhere exactly when nothing was lost, but for empty databases that were empty databases before |
| `RestoreManager.Manager.RollbackOrIntervene` | internal/restore/manager.go:395-424 | The shared failure path opens the gate and ends the run exactly when no call that undoes the swap fails and every store opens; then all items are original but for what wrong stats have cost and all stores serve them; otherwise the job needs intervention, or a panic is on its way up, and the gate stays engaged; where no stat missed a copy every original stays safe, whatever fails |
| `RestoreManager.RollbackFailsIff` | internal/restore/swap.go:387-416 | However far the swap came, the rollback fails exactly when, for an item the swap put aside, the removal fails or a copy that is found cannot be renamed back |
| `RestoreManager.Manager.Prepare` | internal/restore/manager.go:238-310 | Nothing on disk changes before the swap but missing databases; it goes on exactly when every step succeeds, and then all stores have let go of their files; a failed validation ends the job and changes nothing else; every later error that ends it opens the gate, and unless intervention is needed all stores serve |
| `RestoreManager.Manager.StartOverOpensTheGate` | internal/restore/manager.go:255-309 | A run started over NeedsIntervention that passes validation and cannot pause a store ends as an ordinary error and opens the gate over the mixture the earlier run had fenced off |
| `RestoreManager.Manager.StartOverHidesTheGate` | internal/restore/manager.go:237-243 | One that fails validation ends as an ordinary error too, with the gate engaged and the stores as they were |
| `RestoreManager.Manager.RecoverStores` | internal/restore/manager.go:267-275 | After a pause or clean-up failure the gate is disengaged, also when recovery fails and the job needs intervention |
| `RestoreManager.Manager.Complete` | internal/restore/manager.go:318-366 | From a completed swap the run ends with what the swap put in place committed, or rolled back exactly when a step before the commit fails and each call that undoes the swap works, or needing intervention with the gate engaged |
| `RestoreManager.Manager.SwapFiles` | internal/restore/manager.go:255-316 | Files are renamed only while every store has let go of its file |
| `RestoreManager.Manager.CleanWalSidecars` | internal/restore/manager.go:297-308 | Succeeds exactly when the sidecars of every database file that is staged, and that the stat finds, are cleaned |
| `RestoreManager.Manager.ReopenStore` | internal/restore/manager.go:458-474 | A store is opened on the file that is on disk now; a database that is missing is created |
| `RestoreManager.Manager.ReopenAllStores` | internal/restore/manager.go:456-476 | Every store is tried; without an error all of them serve the files on disk; nothing else happens on disk but that missing databases are created |
| `RestoreManager.Manager.PauseAll` | internal/restore/manager.go:266-287 | The stores are paused in order until one fails; without a failure all have let go of their files |
| `RestoreManager.Manager.ReplaceAll` | internal/restore/manager.go:319-353 | Without an error all stores serve the swapped-in files; session and label failures do not count |
| `RestoreManager.Manager.ReloadAll` | internal/restore/manager.go:373-384 | Every cache is tried; exactly the ones that succeed take the file on disk |
| `RestoreManager.RolledBackCachesFreshIff` | internal/restore/manager.go:356-358 | After a run that failed in the settings reload and rolled back, the caches agree with the disk exactly when none had taken a restored content that differs from the original |
| `RestoreJob.StartOverInterventionIff` | internal/restore/manager.go:80-91 | Checking for NeedsIntervention and starting are two steps, and any number of other triggers and runs may come between: a trigger starts over that state exactly when its check passed and the last thing that happened to the job since is that a run ended needing intervention |
| `RestoreJob.AnotherRunInBetween` | internal/restore/manager.go:80-91 | No run needs to be going at the check: another trigger may check, start and end needing intervention in between |
| `RestoreJob.LogTellsJob` | internal/restore/job.go:49-93 | In every interleaving of checks, starts and ends the job is what the last start or end made it: running, done, failed or in need of intervention |
| `RestoreJob.NoTwoRestores` | internal/restore/job.go:45-60 | However the triggers interleave, no restore is started while another one runs |
| `Swap.SafeThroughRollbacks` | internal/restore/swap.go:358-416 | Through a swap that fails anywhere and any number of rollbacks that fail anywhere, an original stays whole at exactly one place; an error-free rollback puts it back, also when it did not exist |
| `Swap.SafeMeansOnePlace` | internal/restore/swap.go:358-416 | An original that exists is at exactly one of its live path and its pre-restore path |
| `Swap.SwapKeepsSafeIff` | internal/restore/swap.go:358-377 | A swap step keeps the original safe exactly when os.Stat did not report an error for a live path that is there |
| `Swap.MissedLiveIsLost` | internal/restore/swap.go:366-373 | What that costs: one error-free rollback then destroys the original |
| `Swap.RollKeepsSafeIff` | internal/restore/swap.go:387-416 | A rollback step keeps the original safe exactly when os.Stat did not report an error for a set-aside copy that is there |
| `Swap.SwapFailsIff` | internal/restore/swap.go:358-377 | The failing calls are what keeps a staged item that is found from being swapped |
| `Swap.RollFailsIff` | internal/restore/swap.go:387-416 | The failing calls are what leaves an item put aside for the next attempt |
| `Swap.UndoFailsIff` | internal/restore/swap.go:358-416 | The same said of the calls of both: which make the rollback of a swap step fail |
| `Swap.Swapper.SwapAll` | internal/restore/swap.go:358-377 | The items are swapped in order up to the first failure, the rest untouched; it succeeds exactly when, for no item that is staged and found there, moving the live one aside or moving in fails |
| `Swap.Swapper.RollbackAll` | internal/restore/swap.go:387-416 | Every item is tried; it succeeds exactly when no item that was put aside has a failing removal, or a copy that the stat finds and that cannot be renamed back, and then none stays put aside |
| `Swap.Swapper.CommitAll` | internal/restore/swap.go:421-430 | Only copies of swapped items are removed |
| `WriteGate.CounterIsExact` | internal/restore/writegate.go:48-57 | In every interleaving the counter is the number of admitted requests that have not left |
| `WriteGate.HolderGoesOn` | internal/restore/writegate.go:25-57 | Whoever holds the gate's mutex can go on, and gives it back by its next steps |
| `WriteGate.EngagedOnlyDrains` | internal/restore/writegate.go:25-57 | While the gate stays engaged the counter never rises and nobody new is admitted |
| `WriteGate.DrainedStaysEmpty` | internal/restore/writegate.go:59-75 | Once the drain wait returned true no admitted request runs until the gate is disengaged |
| `WriteGate.PollSucceedsIffAllLeft` | internal/restore/writegate.go:64-75 | A poll succeeds exactly when every admitted request has left |
| `WriteGate.TimeOutMayLeaveRequests` | internal/restore/manager.go:251-253 | After a time-out the restore goes on although admitted requests may still run |
| `WriteGate.Gatekeeper.TryEnter` | internal/restore/writegate.go:48-57 | A call is steps of the gate: the request is admitted exactly when the gate is open, and then it is counted and one of those inside |
| `WriteGate.EnteredIsSteps` | internal/restore/writegate.go:48-57 | An undisturbed TryEnter keeps the gate's invariant, gives the mutex back and adds the request to those inside exactly when the gate is open |
| `WriteGate.Gatekeeper.WaitForDrain` | internal/restore/writegate.go:64-75 | True exactly when at some poll before the deadline every admitted request had left; polling stops there |
| `LinkRewrite.PathChangeCommutesIff` | internal/links/link_refactor.go:596-626 | For a relative link of a moved page, the rewritten text from the new path reaches the rule-mapped image of what the old text reached from the old path, exactly when that is not the page itself or the old text reaches the page anyway; query and fragment are kept |
| `LinkRewrite.RewriteCommutes` | internal/links/link_refactor.go:558-594 | The same law for links on pages that stay or that the rules move: a changed text reaches the mapped target; without change and warning the target did not move; a warning means it is the page itself |
| `LinkRewrite.AbsoluteRewriteReaches` | internal/links/link_refactor.go:558-594 | An absolute link is rewritten to the mapped route, with its suffix |
| `LinkRewrite.RuleMovesSubtree` | internal/links/link_refactor.go:694-704 | A rule moves a page and everything below it, and nothing that only starts with the same letters |
| `LinkRewrite.MappedIsPlain` | internal/links/link_refactor.go:694-704 | For every link of a page with a plain route, wherever it leads, and every list of rules between plain routes, the mapped target is a plain route in normal form, so the laws above apply to every link, moved subtrees included |
| `LinkRewrite.RulesKeepRoutes` | internal/links/link_refactor.go:694-704 | Rules between routes map routes to routes, for the moved page and for everything below it |
| `LinkRewrite.FirstRuleWins` | internal/links/link_refactor.go:694-704 | The first rule whose old path is the path or an ancestor of it replaces that part, and no later one is applied |
| `LinkRewrite.ExternalLinksStay` | internal/links/link_refactor.go:558-576 | Links to other sites, to mail addresses and within the page are left alone by both passes, without a warning |
| `LinkRewrite.OthersAreInternal` | internal/links/link_refactor.go:686-692 | A text without a colon and without a hash is never taken for one of them |
| `LinkRewrite.AssetLinksStay` | internal/links/link_refactor.go:563-576 | Links into the assets folder are left alone by both passes, with any suffix |
| `LinkRewrite.AssetLinkIff` | internal/links/helpers.go:68-75 | What counts as one, also in angle brackets |
| `LinkRewrite.UnparsableStays` | internal/links/link_refactor.go:567-576 | A link that does not parse is left alone, with a warning |
| `RoutePaths.ResolveUndoesRelative` | internal/links/link_refactor.go:706-732 | Folder-relative resolution undoes the relative path between any two distinct plain paths |
| `RoutePaths.RelativePathResolves` | internal/links/link_refactor.go:706-732 | The same on texts: between different routes the relative path is not empty and resolves to the target's normal form |
| `RoutePaths.RelativeEmptyIff` | internal/links/link_refactor.go:706-732 | The relative path is empty exactly between a path and itself |
| `RoutePaths.RelativeWikiLinkPath` | internal/links/link_refactor.go:706-732 | The loops compute the relative path of the specification |
| `RoutePaths.NormalFormIsStable` | internal/core/markdown/links.go:49-81 | Normalizing twice is normalizing once; the normal form is the route of the text's segments |
| `RoutePaths.ResolvedIsPlain` | internal/core/markdown/links.go:83-109 | Whatever a link says, it resolves to a route without dot segments |
| `RoutePaths.NameLeadsToChild` | internal/core/markdown/links.go:83-109 | A page is a folder: a plain name leads to its child |
| `RoutePaths.UpLeadsToSibling` | internal/core/markdown/links.go:83-109 | A name behind ../ leads to its sibling, and at the root to the top level |
| `RoutePaths.NothingLeadsToPage` | internal/core/markdown/links.go:86-98 | A query, a fragment or nothing leads to the page itself |
| `RoutePaths.RelativeIsShortest` | internal/links/link_refactor.go:706-732 | No relative link with fewer segments leads to the target |
| `TextRanges.MergeRanges` | internal/links/link_refactor.go:338-365 | The merged ranges are sorted and cover exactly the offsets the raw ranges cover |
| `TextRanges.IsExcludedOffset` | internal/links/link_refactor.go:664-674 | On sorted ranges the early exit loses nothing: the answer is membership in their union |
| `InlineLinks.ScanInlineLinkOccurrences` | internal/links/link_refactor.go:367-401 | The occurrences are the links of the text outside code, each once and none left out, strictly increasing and disjoint |
| `InlineLinks.ParseInlineLinkOccurrence` | internal/links/link_refactor.go:403-466 | The destination behind a link's parenthesis, exactly when there is one in the sense of LinkSyntax |
| `InlineLinks.FindClosing` | internal/links/link_refactor.go:742-776 | The bracket or parenthesis that closes the opening one, escapes skipped, or none; LinkSyntax.ClosingFromIff says which one that is |
| `LinkSyntax.ClosingFromIff` | internal/links/link_refactor.go:742-776 | It is the first unescaped closing bracket at which as many were closed as opened, a character being escaped when an odd number of backslashes stands before it; none is found exactly when there is none |
| `LinkSyntax.DestinationAtIff` | internal/links/link_refactor.go:403-466 | What is parsed is exactly: behind the blanks, the text up to the first unescaped > or, without angle brackets, up to the first unescaped blank or unopened parenthesis, not empty, in a parenthesis that is closed |
| `LinkSyntax.LinkAtIff` | internal/links/link_refactor.go:373-397 | A link is found at a position exactly when a bracketed text that is no image begins there, and a parenthesis with a destination follows behind blanks |
| `InlineLinks.BuildRewritePlan` | internal/links/link_refactor.go:468-546 | Each parsed link takes the next occurrence with its destination, no occurrence is used twice and none that could be is passed over; the edits are exactly those of the taken ones that the rule changes, and a warning is counted for each parsed link that finds none and for each taken one the rule warns of |
| `InlineLinks.AgreementEditsAll` | internal/links/link_refactor.go:468-546 | When parser and scanner see the same links, no link the rule changes is left out of the plan |
| `InlineLinks.AgreementPicksAll` | internal/links/link_refactor.go:468-546 | When parser and scanner see the same links, the edits are those of every link the rule changes, none left out |
| `InlineLinks.BracketsDoNotCount` | internal/links/link_refactor.go:548-556 | Parsed and scanned destinations are compared without angle brackets |
| `InlineLinks.LinksAreDetermined` | internal/links/link_refactor.go:367-401 | The text decides its links: no other list is what a scan finds |
| `InlineLinks.PickedIsAllRewritten` | internal/links/link_refactor.go:468-546 | When they agree, the text the rule makes of each link it changes stands in the result, at its place moved by the edits before it |
| `InlineLinks.PlannedEditsAreOrdered` | internal/links/link_refactor.go:468-506 | What scanner and plan hand to the replacement step is in the text, strictly increasing and disjoint |
| `InlineLinks.Rewrite` | internal/links/link_refactor.go:241-265 | Every reported edit lands at its own place, replaces the destination of a link outside code, and no other byte changes; nothing is left out: the edits are those that the parsed links pick by the next-occurrence rule, and when parser and scanner agree every link the rules move has in the result, behind a plain move, a destination that keeps its suffix and reaches, from where the rules leave the page, the place the rules give to what the old one reached |
| `InlineLinks.RewriteRelativeLinksForPathChange` | internal/links/link_refactor.go:215-239 | The same for the content of a page that moves: every relative link, changed or not, reaches in the result, from the page's new path, the mapped image of what it reached from the old path; a page that stays is not touched |
| `InlineLinks.MoveFollows` | internal/links/link_refactor.go:596-626 | A relative link the pass leaves as it is does so too, unless its target becomes the page itself |
| `LinkRewrite.RelativeSurvivesBothPasses` | internal/wiki/pages/refactor.go:665-674 | Both passes over a page of the moved subtree together: for a rule between paths of which neither lies in the other, a relative link that does not lead to its own page reaches, from the new path, the mapped image of what it reached before |
| `LinkRewrite.AbsoluteAfterBothPasses` | internal/wiki/pages/refactor.go:665-674 | An absolute link reaches the mapped image of its target after both passes |
| `LinkRewrite.MappedOnce` | internal/wiki/pages/refactor.go:668-673 | What such a rule has mapped it does not map again, so the second pass leaves the first one's links alone |
| `LinkRewrite.NormalLinkIsNotSkipped` | internal/wiki/pages/refactor.go:671-674 | The second pass is skipped for a page that does not contain the old path; an absolute link in normal form that the rule moves contains it |
| `LinkRewrite.DoubledSlashIsSkipped` | internal/wiki/pages/refactor.go:671-674 | A link with a repeated slash need not: it reaches the moved page, its text does not contain the old path, and the page is skipped |
| `InlineLinks.RewriteLinks` | internal/links/link_refactor.go:215-265 | The part both share, for any rule for one destination and any parsed links: each edit lands, replaces the destination of a link outside code by what the rule makes of that very text, and nothing else changes; the edits are exactly those the next-occurrence rule picks; when the parsed links are those that begin outside code, in order, each one the rule changes is edited |
| `InlineLinks.RewriteWikiLinks` | internal/links/link_refactor.go:109-161 | The kept edits are disjoint matches that do not begin inside code, each lands, nothing else changes, and every match outside code is kept or begins inside a kept one |
| `InlineLinks.SortIsStable` | internal/links/link_refactor.go:137-140 | Edits that start at the same place keep their order, so the first rule's match wins |
| `InlineLinks.CollectMatches` | internal/links/link_refactor.go:119-135 | Exactly the matches that do not begin inside code |
| `Replacements.ApplyReplacements` | internal/links/link_refactor.go:628-645 | The loop writes the text the specification names |
| `Replacements.EveryEditLands` | internal/links/link_refactor.go:628-645 | Ordered edits are all carried out and every byte between them is unchanged |
| `Replacements.EditStands` | internal/links/link_refactor.go:628-645 | Each edit's new text stands in the result at its place moved by the edits before it |
| `Replacements.StretchStays` | internal/links/link_refactor.go:628-645 | A stretch that no edit touches stands in the result, moved likewise |
| `Replacements.KeptIsOrdered` | internal/links/link_refactor.go:141-155 | What the overlap filter keeps is ordered and disjoint |
| `Replacements.DroppedOverlapsKept` | internal/links/link_refactor.go:141-155 | Every edit the filter drops begins inside one that stands before it and is kept |
| `Replacements.CompactOverlaps` | internal/links/link_refactor.go:145-155 | The in-place compaction keeps exactly what the specification keeps |
| `TitleIndex.LinkIndex.constructor` | internal/links/link_service.go:17-23 | An empty table is right for an empty wiki |
| `TitleIndex.LinkIndex.ReconcileTitle` | internal/links/link_service.go:306-317 | Every row whose title folds together with the given one is what a fresh resolution of its title gives now; every row whose folded path is another stays |
| `TitleIndex.LinkIndex.ReconcileTitles` | internal/wiki/pagesave/link_effect.go:144-160 | Reconciling each distinct folded title once makes the whole title index right |
| `TitleIndex.LinkIndex.SavePage` | internal/wiki/pagesave/link_effect.go:48-57 | A content save keeps the title index equal to a fresh resolution; the page's path rows are its links resolved now, those of other pages stay but for broken ones to its path, which it heals |
| `TitleIndex.LinkIndex.CreatePage` | internal/wiki/pagesave/link_effect.go:36-38 | So does creating a page, and the path rows are settled in the same way |
| `TitleIndex.LinkIndex.RestorePage` | internal/wiki/pagesave/link_effect.go:40-43 | Restoring a revision onto its page reconciles the new title only: the index is right afterwards exactly when the old title is the same up to folding, at least three pages carried it, or no other page links it; otherwise only rows of the old title are wrong; the path rows are settled as by a save |
| `TitleIndex.RestoredIff` | internal/wiki/pagesave/link_effect.go:40-43 | The same condition, for every table that is right and every revision that leaves the path |
| `TitleIndex.RestoredTitleLeavesOldOne` | internal/wiki/revisions/use_cases.go:331-338 | The failing input: after a rename from Queue to Kafka the older revision is restored, and a row of [[Kafka]] still points at a page of another title |
| `TitleIndex.LinkIndex.RenamePage` | internal/wiki/pagesave/link_effect.go:52-64 | A new title keeps the title index right, and the path rows are settled as by a save |
| `TitleIndex.LinkIndex.MovePages` | internal/wiki/pagesave/link_effect.go:46-71 | So does a move or a new slug of a subtree, with or without a new title; of other pages the resolved rows to the left path or below it are broken, then broken ones to a new path are healed, and every other path row stays |
| `TitleIndex.LinkIndex.DeletePages` | internal/wiki/pagesave/link_effect.go:73-109 | So does deleting a page or a subtree; no row of a deleted page is left, no resolved row points at one, none to the deleted path, or for a subtree below it, is resolved, and every other path row is as before |
| `TitleIndex.DeletedPaths` | internal/wiki/pagesave/link_effect.go:73-109 | The same of the path rows for every table |
| `TitleIndex.MovedPaths` | internal/wiki/pagesave/link_effect.go:46-71 | What a move does to the path rows, for every table |
| `TitleIndex.SettledOnePaths` | internal/links/link_service.go:245-248 | What a save does to them |
| `TitleIndex.BatchPaths` | internal/links/links_store.go:267-321 | What a batch of updates does to them, in whatever order the pages come |
| `TitleIndex.LinkIndex.IndexAllPages` | internal/links/link_service.go:29-68 | Rebuilding the table from scratch makes it right, with every page's path rows its links resolved now |
| `TitleIndex.LinkIndex.UpdateLinksAndHealForPages` | internal/links/link_service.go:250-271 | So does replacing the rows of many pages from their content, also when those rows were wrong before; their path rows are settled together |
| `TitleIndex.LinkIndex.UpdateRewrittenLinksAndHealForPages` | internal/links/link_service.go:108-134 | After re-deriving the rows of refactored pages from the stored rows instead of their content, the index is right exactly when on each page the renamed rows are those of the rewritten links, and otherwise only the rows of these pages are wrong; their path rows are the stored ones as the rewrite leaves them, and those of other pages are healed where they lead to one of these |
| `TitleIndex.LinkIndex.FinishPathChange` | internal/wiki/pages/refactor.go:395-423 | After the link steps of a rename or move - the affected pages re-derived from their rows, the moved subtree collected from its rewritten content, the affected pages refreshed - the index is right in every case, and the path rows are those of one refresh of all these pages |
| `TitleIndex.LinkIndex.RewriteResolvedTargets` | internal/links/link_service.go:346-367 | Every stored link comes back: path links rewritten, title links renamed and resolved again |
| `TitleIndex.TitleRowsAreDetermined` | internal/links/link_service.go:306-317 | Two tables that are right for the same pages hold the same slash-free title rows, with the same state and target |
| `TitleIndex.CreateReconcilesIff` | internal/links/links_store.go:624-655 | Without agreeing case foldings, reconciling a created page's title leaves every title row exact exactly when each row folded together by the tree but not by the table was ambiguous already |
| `TitleIndex.NonAsciiCapitalStaysBroken` | internal/links/links_store.go:624-655 | The failing case: a broken link with a non-ASCII capital stays broken when the page with the small letter is created |
| `TitleIndex.SlashTitleIsNotReconciled` | internal/links/helpers.go:165-183 | A slash-containing title without a match is stored as a route row, which reconciling that title never touches |
| `LinkService.ReconcileOne` | internal/links/link_service.go:306-317 | One reconcile settles all rows of that title and unsettles none |
| `LinkService.FreshStateIff` | internal/links/helpers.go:49-62 | A title link is broken when no page has the title, ambiguous when two have, and else leads to the only one |
| `LinkService.TitleLink` | internal/links/helpers.go:154-197 | A title link is stored under its title with that state; one with a slash in it that no page has is a path link, resolved by its route |
| `LinkService.RelinkKeeps` | internal/links/link_service.go:245-248 | Replacing a page's rows by its resolved links settles that page and unsettles no row |
| `LinkService.RederivedFitIff` | internal/links/link_service.go:346-367 | Rows re-derived from stored rows fit the rewritten page exactly when they have the slash-free titles the rewritten content links: rows follow the title rules only, content was rewritten by path hints too |
| `LinkService.PathTargetsOf` | internal/links/link_service.go:346-367 | The path rows that come back are the stored ones, each rewritten, and no other |
| `LinkService.Renaming.FirstRenameWins` | internal/links/link_service.go:371-378 | The first rule that has the title as its old one, in whatever case, and another one to give renames it; without one it stays |
| `LinkService.Renaming.FirstPatternWins` | internal/links/link_refactor.go:74-161 | In the content the first matching rule wins as well, its title before its path hint |
| `LinkService.OneRuleFollowsIff` | internal/links/link_refactor.go:74-95 | For the one rule of a rename or move they do exactly unless its path hint rewrites a link of the page and one of the two hints is slash-free and not also the title of another link |
| `LinkService.MovedHintIsMissed` | internal/links/link_refactor.go:86-93 | The failing input: moving /docs to /guide turns [[docs]] into [[guide]], and the re-derived row stays that of docs |
| `LinkService.TreeChange` | internal/links/link_service.go:306-317 | A change of the page tree leaves every title row exact except those of the titles that came or went |
| `LinkService.BreakIncomingKeeps` | internal/links/links_store.go:143-156 | Breaking links to a page that is gone changes only rows about to be reconciled |
| `LinkService.BreakPathKeeps` | internal/links/links_store.go:160-193 | Breaking links by path or prefix never touches a title row |
| `LinkService.HealKeeps` | internal/links/links_store.go:607-618 | Healing links by path never touches a title row |
| `LinksStore.WithLinksAt` | internal/links/links_store.go:195-245 | After inserting a page's links a key holds the last link with its path, or what it held before |
| `LinksStore.LinksStore.AddLinks` | internal/links/links_store.go:195-245 | All rows of the page are replaced by the given links |
| `LinksStore.LinksStore.ReplaceLinksAndHeal` | internal/links/links_store.go:247-321 | First the rows of every page are replaced, then every page's path is healed |
| `LinksStore.LinksStore.ReconcileWikiLinksForTitle` | internal/links/links_store.go:639-655 | All rows whose folded path is the folded sentinel have the state, and the page exactly for a resolved state; every other row stays |
| `LinksStore.LinksStore.MarkIncomingLinksBroken` | internal/links/links_store.go:143-156 | No resolved row points at the page any more; rows that did are broken without a target, rows that point elsewhere stay |
| `LinksStore.LinksStore.MarkLinksBrokenForPath` | internal/links/links_store.go:160-173 | No row with that path is resolved any more; those that were are broken without a target, rows with another path stay |
| `LinksStore.LinksStore.MarkLinksBrokenForPrefix` | internal/links/links_store.go:177-193 | No row at or below that path is resolved any more; those that were are broken without a target, rows elsewhere stay |
| `LinksStore.UnderPrefixIff` | internal/links/links_store.go:177-193 | A path is at or below the prefix, in whatever case, exactly when it is the prefix or goes on with a slash |
| `LinksStore.LinksStore.HealLinksForPath` | internal/links/links_store.go:607-618 | No row with that path is broken any more; those that were point at the page, every other row stays |
| `LinksStore.HealUndoesBreakIff` | internal/links/links_store.go:607-618 | Healing a path after breaking it restores the table exactly when no link to it was broken before, or resolved to another page |
| `LinksStore.ReconcilesCommute` | internal/links/links_store.go:639-655 | Reconciles of titles that fold differently do not disturb each other; of titles that fold together the last one counts |
| `LinksStore.BreakPrefixCoversPath` | internal/links/links_store.go:177-193 | Breaking a subtree breaks its root's links too, and healing one path afterwards leaves the rest of the subtree broken |
| `Executor.ManyLives` | internal/importer/importer_service.go:378-401 | Across any number of crashes and resumes, each life cut short at any of its writes, every content the state file ever has is sound: a running state's processed count is the number of recorded items, which are the plan's items in order, and imported plus skipped is that count; a completed one lists each plan item once; recorded items stay recorded while their run lasts |
| `Executor.ImporterService.Execute` | internal/importer/executor.go:93-244 | Refused exactly when the tree hash is missing or stale, and then nothing changes; otherwise result and wiki are those of the run up to the item it was canceled at, or of the whole plan; it is canceled only when a cancel request is seen before an item, and on every one that is while the store can be written; every running state of this plan that the file has on the way holds a report of that very run |
| `Executor.ImporterService.NextItem` | internal/importer/executor.go:125-233 | One item is reported, imported and recorded, or the cancel request of another is obeyed before it |
| `Executor.ImporterService.ImportItem` | internal/importer/executor.go:139-227 | The branches of one item: the first failing call skips it and leaves the recorded tree hash alone |
| `Executor.ImporterService.ReportProgress` | internal/importer/importer_service.go:331-343 | A report stores the result and as many processed items as are recorded, unless another plan took over or the store failed |
| `Executor.ImporterService.ExecuteAndFinish` | internal/importer/importer_service.go:331-343 | A run ends stored as completed, canceled or failed with its result, unless another plan took over; it is canceled only on a request |
| `Executor.ImporterService.ExecuteCurrentPlan` | internal/importer/importer_service.go:167-218 | Started exactly for a plan that is neither running nor completed, with the store writable; the run begins without a cancel request, so when none comes in it ends done, or failed exactly when the wiki no longer fits the plan; it is canceled only at an item at which one has come in since |
| `Executor.ImporterService.ResumeInterruptedExecution` | internal/importer/importer_service.go:378-401 | Exactly a stored running state is resumed, from where it stopped, and refused exactly when its recorded tree hash does not fit; a cancel request in the file, or one that comes in, is what cancels it, and nothing else |
| `ImportPlans.ResumedIff` | internal/importer/executor.go:94-105 | Whatever a run, fresh or resumed, may have left in the file, it is resumed exactly when nothing was recorded and the pages fit the plan, or they fit what the last recorded item that did not fail left, or, once every item is recorded, what the last item left even if it failed; a fresh run whose items all failed so far is refused while items are left |
| `ImportPlans.FailedLastItemIsResumed` | internal/importer/executor.go:234-241 | A plan whose only item failed is resumed, because the report behind the loop carries the wiki's current hash |
| `ImportPlans.ResumeBegins` | internal/importer/executor.go:81-105 | An accepted resume begins as a run does, so what holds of a fresh run holds through every crash |
| `ImportPlans.ResumeIsSeamless` | internal/importer/executor.go:81-105 | When what was recorded behind the last good item left the wiki as it was, an accepted resume ends with the very result and pages of an uninterrupted run |
| `ImportPlans.RecordedHash` | internal/importer/executor.go:226-241 | The tree hash of a report is that of the pages the last item that did not fail left, behind the last item that of the pages at the end, and none while every item of a fresh run failed |
| `ImportPlans.AttemptStopsAtFirst` | internal/importer/executor.go:139-227 | An item fails exactly when one of its six calls does, with the first failing call's error and what was done up to it |
| `ImportPlans.HashAfterStep` | internal/importer/executor.go:226-233 | A page that could not be made leaves the recorded hash; every other item records that of the wiki |
| `ImportPlans.RunAccounts` | internal/importer/executor.go:125-233 | A run accounts for each plan item once, in order, counted as imported or skipped |
| `PlanStore.PlanStore.TryStartExecution` | internal/importer/plan_store.go:102-138 | Starts exactly a plan that is not running or completed when the write succeeds; the run begins with nothing processed, no result, no error and no cancel request, for this user |
| `PlanStore.PlanStore.FinishExecution` | internal/importer/plan_store.go:140-189 | Stores the end of the run, its result and its status, with no cancel request left, unless another plan took over |
| `PlanStore.PlanStore.UpdateExecutionProgress` | internal/importer/plan_store.go:191-219 | Stores progress and partial result, unless another plan took over; a cancel request stays |
| `PlanStore.PlanStore.RequestCancel` | internal/importer/plan_store.go:221-244 | Marks a running plan once and changes nothing else |
| `PlanStore.PlanStore.Set` | internal/importer/plan_store.go:61-73 | Replaces the plan; a failed write makes the store unavailable |
| `PlanStore.PlanStore.Clear` | internal/importer/plan_store.go:87-100 | Removes the plan and returns it |
| `PlanStore.PlanStore.Get` | internal/importer/plan_store.go:75-85 | What is returned is what the file holds, and sound |
| `PlanStore.PlanStore.PersistLocked` | internal/importer/plan_store.go:278-304 | The file holds the new state or, on failure, still the old one |
| `CodeSpans.RewriteOutsideCodeSpans` | internal/importer/content_transformer.go:768-812 | The text is split into alternating plain text and code, the output is the plain pieces rewritten and the code verbatim, in order; the first error of a piece is the result |
| `CodeSpans.WholeOutputIs` | internal/importer/content_transformer.go:768-812 | The text is its plain pieces and its code in turn, and the output the rewritten pieces and the same code in turn |
| `CodeSpans.ScansAgree` | internal/importer/content_transformer.go:768-812 | The text decides the split: no other split puts code exactly where it first starts and ends it where it ends |
| `CodeSpans.IdentityKeepsText` | internal/importer/content_transformer.go:768-812 | A rewrite that changes nothing gives the text back |
| `CodeSpans.CodeAdvances` | internal/importer/content_transformer.go:842-885 | Code is never empty and ends within the text, so the scan terminates |
| `CodeSpans.DetectFenceStart` | internal/importer/content_transformer.go:814-840 | A fence opens exactly where a line starts with at most three spaces and at least three backticks or tildes |
| `CodeSpans.FenceAtIff` | internal/importer/content_transformer.go:814-840 | The same of the line's text: it begins with a run of that many of the mark |
| `CodeSpans.CodeIs` | internal/importer/content_transformer.go:768-812 | Code starts at a backtick and at a line that opens a block, and where both do it is the block |
| `CodeSpans.FindFenceEnd` | internal/importer/content_transformer.go:842-869 | The block ends behind the first later line that starts with as many fence characters, or with the text |
| `CodeSpans.FenceEndIs` | internal/importer/content_transformer.go:842-869 | The end by the lines alone: behind the first one that closes, or the text's |
| `CodeSpans.FindInlineCodeEnd` | internal/importer/content_transformer.go:871-885 | The span ends behind the first run of exactly that many backticks that no further backtick follows, or with the text |
| `CodeSpans.InlineEndIs` | internal/importer/content_transformer.go:871-885 | The end by the runs alone: behind the first such run, or the text's |
| `CodeSpans.ClosingLineIsFirst` | internal/importer/content_transformer.go:842-869 | No earlier line closes the block |
| `CodeSpans.ClosingTicksAreFirst` | internal/importer/content_transformer.go:871-885 | No earlier position closes the span |
| `CodeSpans.LongerRunCloses` | internal/importer/content_transformer.go:871-885 | A longer run of backticks closes a span too, unlike section 6.1 of CommonMark |
| `CodeSpans.CountRepeatedByte` | internal/importer/content_transformer.go:891-905 | The length of the run at a position |
| `MarkdownLinks.RewriteMarkdownLinks` | internal/importer/content_transformer.go:86-142 | The output is the text with the destination of every link found rewritten and every other byte unchanged, or the first error |
| `MarkdownLinks.WrittenIs` | internal/importer/content_transformer.go:86-142 | The output is the pieces between the destinations and the rewritten destinations in turn |
| `MarkdownLinks.FirstErrorWins` | internal/importer/content_transformer.go:115-131 | The first destination that cannot be resolved is the error of the text |
| `MarkdownLinks.LinksAreLinks` | internal/importer/content_transformer.go:86-142 | What is rewritten is the destination of a link: a bracketed label without a closing bracket in it, then a parenthesis and its partner |
| `MarkdownLinks.NoLinkMissed` | internal/importer/content_transformer.go:86-142 | Every link is found, except one that begins in another link's destination or behind a link that never closes |
| `MarkdownLinks.ParenEndIsFirst` | internal/importer/content_transformer.go:725-739 | The destination ends at the first parenthesis that closes more than was opened |
| `MarkdownLinks.FindMarkdownLinkDestinationEnd` | internal/importer/content_transformer.go:725-739 | The loop finds that parenthesis, or -1 exactly when there is none |
| `MarkdownLinks.SplitMarkdownDestination` | internal/importer/content_transformer.go:628-643 | Opening bracket, href and title put together are the destination again |
| `MarkdownLinks.RewriteKeepsAround` | internal/importer/content_transformer.go:266-290 | A resolved link takes its target's place with bracket and title kept around it, in that order; one that does not resolve, and an empty one, stay as written; an error is passed on |
| `MarkdownLinks.PartsAreUnique` | internal/importer/content_transformer.go:628-643 | There is one way to take a destination apart |
| `MarkdownLinks.NormalizedHref` | internal/importer/content_transformer.go:674-683 | The href asked for has slashes for backslashes, unless it is a drive path |
| `MarkdownLinks.DrivePathIff` | internal/importer/content_transformer.go:685-693 | A drive path is a letter, a colon and a slash of either kind, and anything behind |
| `WikiLinks.RewriteWikiLinks` | internal/importer/content_transformer.go:145-262 | The output is the text with every wiki link and embed replaced by what the rule makes of it and every other byte unchanged, or the first error |
| `WikiLinks.WikiLinksFound` | internal/importer/content_transformer.go:153-182 | What is replaced are the links: opening brackets, with or without the mark of an embed, up to the first closing ones behind them; and every link is found or begins inside one that is |
| `WikiLinks.WikiLinkIff` | internal/importer/content_transformer.go:153-182 | The scan's own tests find exactly such links |
| `WikiLinks.TransformContent` | internal/importer/content_transformer.go:67-83 | Both passes: the Markdown links of the plain pieces are rewritten, then the wiki links of the plain pieces of what came out, code verbatim each time and the first error the result; a page whose links resolve to nothing and whose wiki links are written as they are comes back as it was |

## Left out

- Repository.Repository.RunBackup: a push that HEAD's remembered push makes unnecessary is skipped, so the contract does not say that the remote has HEAD afterwards unless this cycle committed.
- Repository.CycleIsThreeWayMerge: stated for case-sensitive disks; what a case-folding disk does is `Materialize.FoldedPullArrivesIff`.
- Repository.Repository.Materialize: on a case-folding disk, that applied means carried out is said as if the disk kept names of different case apart; what it then holds is `Materialize.AfterFolded`.
- Repository.Repository.RunBackup: on a case-folding disk the live files that a cycle commits after a pull are taken to be those `Applying` leaves, which carries plans out as if the disk kept names of different case apart.
- Applying.LiveDirs.WriteLiveBlob: a write that fails with only some of its directories made is `Directories.KilledMkdirGetsThrough`, not one of the ways this disk fails.
- Applying.LiveDirs.SyncFromRemote: a first-contact sync that stops inside a write; it stops between writes here.
- RestoreManager.Manager.RunGuarded: the promise of all or nothing holds only where no stat is wrong about a captured item, a live path or a set-aside copy; the contract says what is on disk otherwise.
- RestoreManager.Manager.ReopenStore: opening a database either works, and creates the file if it is missing, or fails and creates nothing; what a run leaves on disk is stated with a missing database of a store counting as an empty one.
- RestoreManager.Manager.CleanWalSidecars: what becomes of a database whose sidecars a wrong stat left in place.
- TitleIndex.LinkIndex.UpdateRewrittenLinksAndHealForPages: that the content was rewritten by the patterns of `Renaming.Content`, and what path links become, are inputs; regular expressions are taken to ignore case as `strings.EqualFold` does.
- InlineLinks.BuildRewritePlan: that parser and scanner see the same links is not proved, since the parser is not modelled; `InlineLinks.AgreementPicksAll` says what follows when they do.
- Executor.ManyLives: a plan that replaces a running one has an ID of its own, as generated IDs do; the plan that replaces it is not itself run further within that life.
- WikiLinks.RewriteWikiLinks: what a wiki link is replaced by is an arbitrary function of where it stands and what it says; whether the second pass finds the same code as the first is not stated.
- Transport, authentication, packing and garbage collection of the backup; commits are told apart by their content and a stamp.
- Missing tree objects, which `spliceTree` treats as empty; failing reads of the live directory, which end a backup without storing anything.
- Symbolic links in live directories when a pull writes through them, and the executable bit of files a pull writes.
- Ignore patterns and entry-name rules are arbitrary predicates, the same for writing and reading.
- The order in which plans list paths; the theorems hold for every order.
- Reading and checking the restore archive, WAL files beyond one step that can fail, status texts, time-outs and clocks.
- Percent-escapes and schemes in `net/url`: paths are resolved on their segments.
- The Markdown parser, regular expressions and code ranges are inputs; bytes beyond ASCII are single characters.
- SQLite itself: each method of the link table is one transaction that succeeds; route slugs hold no wildcard characters.
- Backlink queries, broken-link reports, link status views and warnings' texts.
- The import planner, zip extraction, asset uploads, the workspace clean-up, and how a link of an import resolves to a page or an asset.
- JSON encoding of the import state: what is written is what is read. A store without a state file is not modelled.
- Search, tags, properties, favorites, branding, users, HTTP and the user interface.
