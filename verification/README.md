# Verified models of the command layer

The tool chain's commands share one machine and one store with the sessions that
work on it. What they promise is mostly about state that outlives a run: what may
be removed, who holds a worktree, what a resumed run may credit, what a printed
manifest is worth. This project states those promises over models of the commands
and proves them.

Each module models one area of the command layer.

| module | what it models |
|---|---|
| `BuildScrub` | the scrub of a build directory: a recursive walk that must remove exactly what no retained prefix declares |
| `Citations` | the search of committed lines for a path, its trial on an entry's own path, and the field a record's line belongs to |
| `Weighing`, `Removal`, `Deletion` | the walk that measures an entry and keeps back what may not be deleted; the token of a listing, its confirmation and the removal loop; and the deletion of a place from one to the other |
| `UndeclaredPlaces` | the listing of directories no line declares |
| `Withdrawal` | the withdrawal of a run's locations from the store, in one commit at the head that was read |
| `WorktreeHold` | the hold of a worktree by concurrent sessions, one file step at a time |
| `StopGate` | the stop hook over a session's prompts, edits, commits, resumptions and stops |
| `Cycle` | the improvement cycle's phases over a state file, with a crash between any two steps |
| `Render` | media drawn into a directory under a manifest, cut short anywhere and run again |
| `HashManifest` | the digests of a file, printed one a line, read back and checked |
| `KernelLayouts`, `ManifestMerge` | two stable groupings: kernel functions by parameters and their verifier, evaluation requests by path |
| `Calibration` | the history an alarm budget asks for, its disjoint blocks and their empirical quantile |
| `TopLogits` | the in-place selection of the n greatest logits |
| `BudgetSlices` | one evaluation budget shared out over the models of a pass |

`Text`, `Lists`, `Grouping`, `Arithmetic`, `Options` and `Leftovers` hold what several of
these share. Code that changes state is modelled by classes and loops, each proved
equal to a function or a step of a state machine; what the code promises is then
proved of that function or machine, over every input and every run.

`dafny verify dfyconfig.toml` checks the whole project.

Some promises hold only up to a condition. Where that is so the exact condition is
proved, and a lemma gives the run or the input that breaks it:

- A crash between the cycle's two writes can leave an old publication standing
  beside newer cells, and the next run credits it (`Cycle.HazardIsExact`,
  `Cycle.HazardCreditsAStalePublication`, `Cycle.HazardIsReached`).
- Cells that passed are credited by the next run of their key exactly while their
  record stands (`Cycle.PassedCellsAreCreditedExactly`): a crash before it is written
  and another key's record both run them again (`Cycle.CrashRepeatsCells`,
  `Cycle.OtherKeyRepeatsCells`).
- The search's trial of an entry misleads exactly for a path that ends in a full stop
  and that the elements above its last already hold (`Citations.TrialMisleadsExactly`);
  every such path is so held in a directory that is its own name over again
  (`Citations.FullStopEscapesTheTrial`).
- At most one landed session is between an answer of "" and its release, a session that
  stood beside no holder when its landing was recorded counting from the end of the hook
  that asks after it (`WorktreeHold.OneLandedStands`, `WorktreeHold.LandedMutualExclusion`).
  Counted from the record itself two can always come to be
  (`WorktreeHold.LandedBesideHolder`, `WorktreeHold.ProperIsExact`,
  `WorktreeHold.LandingBesideIsReached`). A takeover within another session's creation
  or takeover leaves two holding (`WorktreeHold.TakeoverRacesCreate`,
  `WorktreeHold.TakeoverRacesTakeover`), as does one within a release once another landed
  session asks (`WorktreeHold.TakeoverRacesRelease`), and a hold whose creator dies before
  writing its name sends every session away until a takeover
  (`WorktreeHold.UnwrittenHoldWedges`).
- A withdrawn artifact is left no location exactly when nothing else kept it, and then
  nothing that is protected uses it (`Withdrawal.LastLocationGoesExactly`); a part of a
  part of a served model is not protected (`Withdrawal.PartOfAPartMayGo`).
- A file is checked against its own lines as `HashManifest.CheckedAgainstPrinted` says of
  any names. A path that holds white space is found in no manifest
  (`HashManifest.SpacedInputIsNeverFound`). Any other file meets its own lines exactly when,
  for each name without white space, the last tensor whose name is it, or is it and more
  after white space, has the same digest (`HashManifest.RoundTrip`); else the intact file
  fails (`HashManifest.SpacedNameMismatches`, `HashManifest.SpacedTensorFails`).
- The undeclared listing nests exactly when the data root lies above the checkout and
  holds an untracked directory of it with a directory that is neither named nor, being
  above a named one, read (`UndeclaredPlaces.CommandListingNests`,
  `UndeclaredPlaces.DataRootReportsTwice`).
- A list of no parameters and a list of one empty parameter share a signature
  (`KernelLayouts.EmptyParameterHides`); some accepted layouts name an unlisted function
  exactly when a function is listed twice (`KernelLayouts.AcceptanceIsExactForDistinct`).
- Compiling a manifest again changes nothing exactly when trimming and cleaning twice is
  the same as once for every path and suite it gave (`ManifestMerge.MergedTwice`,
  `ManifestMerge.CompiledTwice`, `ManifestMerge.MergedTwiceDiffers`).

## Model

| member | source | states |
|---|---|---|
| BuildScrub.Scrub.Walk | cmd/buildscrub/main.go:65-96 | The walk appends to the scrap, and adds to its bytes, exactly what the tree's scrap function gives, for any tree and prefixes. |
| BuildScrub.Scrub.Apply | cmd/buildscrub/main.go:111-115 | Removing the scrap found leaves exactly the declaration and what a prefix names, holds or lies beneath, frees exactly the bytes counted, and leaves a tree in which nothing is scrap. |
| BuildScrub.RetainedExactly | cmd/buildscrub/main.go:45-56 | A name is retained if and only if it is the declaration, a prefix, beneath a prefix, or on the way to one. |
| BuildScrub.BytesMore | cmd/buildscrub/main.go:119-130 | A tree of one entry more holds that entry's bytes more, and an empty one none. |
| BuildScrub.NotRetainedBelow | cmd/buildscrub/main.go:45-56 | What lies under a path that is not retained is not retained, so a scrap entry may go whole. |
| BuildScrub.AncestorsNest | cmd/buildscrub/main.go:51-51 | The string test against a prefix and a slash is strict containment: two paths above one path are themselves one above the other. |
| BuildScrub.ScrapPartition | cmd/buildscrub/main.go:65-96 | For every tree and prefixes, a path of the tree lies at or under a scrap entry if and only if it is not retained. |
| BuildScrub.ScrapNeverNests | cmd/buildscrub/main.go:70-76 | No scrap entry lies at or under another. |
| BuildScrub.RemovalIsExact | cmd/buildscrub/main.go:111-115 | Removing one path takes that path and what lies under it, and nothing else. |
| BuildScrub.RemovalsAreExact | cmd/buildscrub/main.go:111-115 | Removing any list of paths leaves exactly what lies at or under none of them. |
| BuildScrub.ScrubLeavesRetained | cmd/buildscrub/main.go:100-115 | The scrap removed in any order leaves exactly the retained paths. |
| BuildScrub.SecondRunFindsNothing | cmd/buildscrub/main.go:65-96 | After the scrap is removed, in any order, a second run finds no scrap. |
| BuildScrub.BytesAreConserved | cmd/buildscrub/main.go:74-74 | A tree's bytes are those counted as scrap and those retained, with none counted twice. |
| BuildScrub.RemovalTakesNoRetainedByte | cmd/buildscrub/main.go:111-115 | Removing a path that is not retained changes no retained file's bytes. |
| BuildScrub.ScrubFreesWhatItReports | cmd/buildscrub/main.go:101-115 | The bytes left and the bytes reported as scrap add up to the bytes there were. |
| Citations.RunsHaveAnAlphabet | cmd/loop/leftovers.go:61-63 | The path characters the lemmas are proved of, any that hold a slash and a full stop, include the search's own. |
| Citations.RunsExactly | cmd/loop/leftovers.go:63-63 | A run goes on through the small letters, the digits, and four signs alone. |
| Citations.NormalExactly | cmd/loop/leftovers.go:523-523 | A line is searched with either slash a slash and each letter small, and else as it is. |
| Citations.NamedInAnyForm | cmd/loop/leftovers.go:508-512 | Two lines that differ in the case of letters and in the slashes alone name the same paths. |
| Citations.FramedSearch | cmd/loop/leftovers.go:519-530 | Text between slashes contains other text between slashes if and only if it holds the other's elements as whole elements, one after another. |
| Citations.CarriesElements | cmd/loop/leftovers.go:525-530 | A run, its last full stops dropped and closed as the search closes it, carries a path if and only if its elements hold the path's contiguously. |
| Citations.CarriedInside | cmd/loop/leftovers.go:525-528 | A path without the closing mark is carried exactly where the run's own elements hold it: the mark adds no match. |
| Citations.CarriedAtEnd | cmd/loop/leftovers.go:528-530 | A path given with the closing mark is carried exactly when its elements are the run's last. |
| Citations.Cited | cmd/loop/leftovers.go:517-536 | The line found is the first that names the path, and none is found if and only if no line names it. |
| Citations.WrittenIsNamed | cmd/loop/leftovers.go:510-516 | A text that writes a path of path characters as a whole word, in any case and with either slash, names it, unless it ends in a full stop. |
| Citations.NamedIsWritten | cmd/loop/leftovers.go:510-516 | A text that names a path holds that path whole, between slashes or the ends, in a run of its own, the full stops the run ends with left out. |
| Citations.SilenceIsSound | cmd/loop/leftovers.go:514-516 | Every text that writes a path is found to name it if and only if the path is all path characters and does not end in a full stop. |
| Citations.Unnamed | cmd/loop/leftovers.go:543-548 | An entry is finished if and only if the search finds its own path in a line of that path alone. |
| Citations.TrialIsSound | cmd/loop/leftovers.go:538-548 | An entry that passes the trial is all path characters, and, unless it ends in a full stop, passes exactly when no text that writes it could be missed. |
| Citations.FullStopTrial | cmd/loop/leftovers.go:538-548 | A path of path characters that ends in a full stop passes the trial if and only if an earlier run of its own path names it or the elements above its last hold it. |
| Citations.TrialMisleadsExactly | cmd/loop/leftovers.go:538-548 | The trial says finished of an entry some line writes unnoticed if and only if the path is of path characters, ends in a full stop, and is held above its last element. |
| Citations.FullStopEscapesTheTrial | cmd/loop/leftovers.go:543-548 | Every path of path characters that ends in a full stop passes the trial in a directory that repeats its name, although a line that is the path does not name it. |
| Citations.InStoreField | cmd/loop/leftovers.go:563-572 | A line is kept if and only if the row that opens its field, read back over the rows that open with a blank, opens with the key store and a colon in either case. |
| Citations.OneFieldOneVerdict | cmd/loop/leftovers.go:550-555 | Every line of one field is kept or none is: a continuation has the field of the row it continues. |
| Weighing.Weighed | cmd/loop/leftovers.go:225-251 | An entry that would be deleted stays finished if and only if no visit of its walk is an obstacle; otherwise it takes the state and the path of the first, and the bytes counted before it; any other entry stops at what cannot be read. |
| Weighing.ObstacleExactly | cmd/loop/leftovers.go:230-241 | A visit is held exactly for a store, a backup or a taken lock, a link before these, and unknown exactly for a link or what cannot be read; a file counts its size. |
| Weighing.WalkMore | cmd/loop/leftovers.go:230-245 | A directory of one child more is walked, and weighs, that child more, itself first. |
| Weighing.WalkOne | cmd/loop/leftovers.go:230-245 | Anything else is met alone, an unreadable directory twice, and weighs its own size. |
| Weighing.ClearIsAllSafe | cmd/loop/leftovers.go:230-245 | A walk meets no obstacle if and only if nothing in the tree, at any depth, is a link, a store or a backup, a taken lock, or unreadable. |
| Weighing.SumIsTotal | cmd/loop/leftovers.go:239-243 | A whole walk counts every regular file it meets once. |
| Weighing.WeighedForDeletion | cmd/loop/leftovers.go:225-251 | A finished entry stays finished if and only if its whole tree is safe, and then measures exactly its files. |
| Removal.DecimalInjective | cmd/loop/leftovers.go:1317-1317 | Two numbers printed alike are the same number. |
| Removal.DecimalDigits | cmd/loop/leftovers.go:1317-1317 | A number is printed as its tens are, and its last digit. |
| Removal.FramingInjective | cmd/loop/leftovers.go:1317-1317 | The bytes given to the digest tell the whole list of finished facts, when no field holds a NUL. |
| Removal.FramingMore | cmd/loop/leftovers.go:1317-1317 | One fact more is its path, its bytes and its rule, each closed by a NUL. |
| Removal.FactsMore | cmd/loop/leftovers.go:1311-1317 | One entry more is one fact more if it is finished, and else none. |
| Removal.NulBreaksFraming | cmd/loop/leftovers.go:1317-1317 | With a NUL in a field, one entry and two give the digest the same bytes, for any fields. |
| Removal.TokenMeansOneList | cmd/loop/leftovers.go:1322-1328 | With a digest that tells its inputs apart, two listings have one token if and only if they list the same finished facts. |
| Removal.Confirmed | cmd/loop/leftovers.go:1308-1332 | Agreed if and only if a token was given and it is that of what is found now; with no token it prints, of each entry in order, that it is kept or would be taken. |
| Removal.ListingMore | cmd/loop/leftovers.go:1311-1321 | One entry more is one line more, kept, or would be taken unless it was asked for already. |
| Removal.KeptListing | cmd/loop/leftovers.go:1312-1315 | Asked for already, the lines are those of the entries that are not finished. |
| Removal.ReceiptMore | cmd/loop/leftovers.go:1207-1221 | A finished entry more is a line more: done, left, or removed in part if its path is gone all the same. |
| Removal.SaidIsTaken | cmd/loop/leftovers.go:1318-1320 | The entries said to be taken, in order, are those taken, and the receipt has a line for each. |
| Removal.Remover.RemoveFinished | cmd/loop/leftovers.go:1197-1224 | Each finished entry is attempted once, in order, whatever came of those before it, and no other is; nothing is attempted when the receipt or the commit fails; the receipt says what came of each. |
| Removal.Remover.Delete | cmd/loop/leftovers.go:1234-1252 | Nothing is attempted but on the token of what is listed now. |
| Removal.ConfirmedRemovalIsExact | cmd/loop/leftovers.go:1226-1233 | A removal confirmed by the token of an earlier listing takes exactly the paths that listing showed, each as it was measured then. |
| Deletion.ListPlace | cmd/loop/leftovers.go:181-211 | A place's listing finds finished exactly the entries its rule finished whose whole tree is safe, each of exactly its files' bytes. |
| Deletion.DeletePlace | cmd/loop/leftovers.go:1226-1252 | On the token of a fresh listing and no other, the finished entries alone are attempted, and nothing in any of them was a link, a store or a backup, a taken lock or unreadable. |
| Deletion.ConfirmedWasSafe | cmd/loop/leftovers.go:1226-1233 | What a confirmed removal takes was finished and safe both when it was shown and when it was taken. |
| UndeclaredPlaces.Listing.Test | cmd/loop/leftovers.go:921-941 | The recursive test appends exactly what the tree's report function gives, and ends on every tree. |
| UndeclaredPlaces.Listing.TestAll | cmd/loop/leftovers.go:942-950 | The roots' reports are appended in order. |
| UndeclaredPlaces.RestIsReported | cmd/loop/leftovers.go:921-941 | A directory neither at or beneath a named one nor above one lies at or beneath a report. |
| UndeclaredPlaces.ReportsLieBeneath | cmd/loop/leftovers.go:921-941 | Every report lies beneath its root, is there, is under no named directory, and above none when it is undeclared. |
| UndeclaredPlaces.Trichotomy | cmd/loop/leftovers.go:919-951 | Each directory beneath a tested root is exactly one of: at or beneath a named directory, strictly above one or the data root, at or beneath a report. |
| UndeclaredPlaces.ReportsNeverNest | cmd/loop/leftovers.go:928-931 | No report of a root lies at or beneath another. |
| UndeclaredPlaces.ReportedExactly | cmd/loop/leftovers.go:921-941 | Unread is reported of exactly the directories opened that cannot be read, and undeclared of exactly those neither named nor above a named one whose own directory is opened, and of such a root. |
| UndeclaredPlaces.ListingNeverNests | cmd/loop/leftovers.go:942-950 | No report of a list of roots lies at or beneath another, when no root does. |
| UndeclaredPlaces.ReportedAbove | cmd/loop/leftovers.go:921-941 | What a directory's own test reports lies beneath a report of any test of a root above it. |
| UndeclaredPlaces.SilentExactly | cmd/loop/leftovers.go:921-941 | A directory's test reports nothing if and only if every directory in its tree is at or beneath a named one, or above a named one and can be read. |
| UndeclaredPlaces.CommandListingNests | cmd/loop/leftovers.go:942-950 | Of the roots the command tests, the listing's reports never nest if and only if every directory in the tree of an untracked one that the data root holds is named, or above a named one and can be read. |
| UndeclaredPlaces.DataRootReportsTwice | cmd/loop/leftovers.go:942-950 | For every checkout beneath the data root, an untracked directory in it that no line concerns is reported twice. |
| UndeclaredPlaces.ReportedOnce | cmd/loop/leftovers.go:928-931 | A path lies beneath one report at the most. |
| Withdrawal.Collect | cmd/loop/leftovers.go:1402-1424 | A checkpoint accounts for itself, its weights, what its resume document contains, the models it produced, and the components of those, one level deep, and for nothing else the store's edges and manifests hold. |
| Withdrawal.MembersExactly | cmd/loop/leftovers.go:1402-1424 | An artifact is a member if and only if an edge or a manifest of the store ties it so. |
| Withdrawal.Own | cmd/loop/leftovers.go:1391-1429 | The map built over all checkpoints gives each artifact exactly the folders of the checkpoints that account for it. |
| Withdrawal.OwnedIsAccounted | cmd/loop/leftovers.go:1425-1427 | An artifact is in the map if and only if a checkpoint of the run accounts for it. |
| Withdrawal.Classify | cmd/loop/leftovers.go:1434-1460 | Withdrawn are exactly the locations under a folder that accounts for their artifact; each count is the number of usable locations that stay; the listing's finished facts are those withdrawn and its other lines those that stay under the run's directory. |
| Withdrawal.CountTellsKept | cmd/loop/leftovers.go:1436-1454 | A count is positive if and only if some usable location of the artifact stays. |
| Withdrawal.Refused | cmd/loop/leftovers.go:1463-1483 | Refused if and only if some location would leave an artifact with no usable location although it is served, or is held by a model that is served or that no checkpoint accounts for. |
| Withdrawal.StrandsExactly | cmd/loop/leftovers.go:1445-1480 | What strands an artifact, by the store alone: it is served, or in a model that is served or not accounted for, and no location that stays is of use. |
| Withdrawal.Withdraw | cmd/loop/leftovers.go:1391-1500 | Which of refused, shown, not confirmed, nothing to do, not committed or committed it is, exactly; a commit needs nothing stranded, the token of this listing and the head that was read, takes exactly the locations an accounting folder holds, and leaves every artifact in use a location on this machine. |
| Withdrawal.OnlyAccountedGo | cmd/loop/leftovers.go:1440-1443 | After the commit a location is there if and only if it was and no accounting folder holds it. |
| Withdrawal.NothingUsedIsStranded | cmd/loop/leftovers.go:1469-1480 | Of every withdrawn artifact that is served, or contained in a model that is served or not accounted for, a location on this machine stays, and a directory when it is a model. |
| Withdrawal.LastLocationGoesExactly | cmd/loop/leftovers.go:1469-1480 | A withdrawn artifact is left no usable location if and only if no other kept it, and then no served model is it and no needed model contains it itself. |
| Withdrawal.PartOfAPartMayGo | cmd/loop/leftovers.go:1473-1479 | For any four artifacts, a part of a part of a served model may lose its last location in a withdrawal that is not refused. |
| Withdrawal.NothingLeftToWithdraw | cmd/loop/leftovers.go:1440-1443 | A withdrawal done again finds nothing to withdraw. |
| WorktreeHold.StepKeepsInv | cmd/loophook/main.go:310-343 | Every file step of every session keeps what the exclusion rests on, the unwritten hold and a removal in flight among it. |
| WorktreeHold.OverwrittenAt | cmd/loophook/main.go:324-328 | A name written at the start of a file leaves what it does not cover. |
| WorktreeHold.AtMostOneHolds | cmd/loophook/main.go:310-343 | Over every interleaving whose takeovers meet no hold being created, taken over, written or removed, at most one session holds the worktree. |
| WorktreeHold.MutualExclusion | cmd/loophook/main.go:302-343 | Without takeovers, over every interleaving of any number of sessions, at most one holds, and the file names it. |
| WorktreeHold.HolderKeepsHold | cmd/loophook/main.go:310-343 | Over any steps a holder keeps the hold, however often it asks again, until it removes it itself or a takeover comes. |
| WorktreeHold.OneLandedStands | cmd/loophook/main.go:302-343 | Over every such interleaving, whatever is recorded when, at most one landed session is between an answer of "" and its release, one recorded while it stood beside no holder counting once its next hook has ended. |
| WorktreeHold.LandedMutualExclusion | cmd/loophook/main.go:302-343 | The same without takeovers, from any list of records and whatever hold was left; and with no such exception when no session beside is recorded. |
| WorktreeHold.FirstLandingTakesHold | cmd/loophook/main.go:254-263 | A prompt that finds no holder and then a first landing end with the session holding, landed and no longer excepted. |
| WorktreeHold.ProperIsExact | cmd/loophook/main.go:256-263 | After any proper takeover-free run, one action more leaves at most one landed session standing whatever proper steps follow if and only if it records no session that stands beside. |
| WorktreeHold.TakeoverRacesRelease | cmd/loophook/main.go:315-318 | A takeover between a release's read and its removal leaves two sessions holding once any other idle session that has landed asks, in every such state. |
| WorktreeHold.TakeoverRacesCreate | cmd/loophook/main.go:315-328 | A takeover between a creation and its write leaves two sessions holding, in every such state. |
| WorktreeHold.TakeoverRacesTakeover | cmd/loophook/main.go:315-318 | A takeover between another takeover's truncation and its write leaves two sessions holding, in every such state. |
| WorktreeHold.LandedBesideHolder | cmd/loophook/main.go:256-263 | A record of a session beside no holder can always be continued to two landed sessions last answered "", at once, after a write under way, or after any other session lands. |
| WorktreeHold.LandingBesideIsReached | cmd/loophook/main.go:256-263 | From a list of one landed session, the steps of that session and one other reach two landed sessions last answered "". |
| WorktreeHold.AskedAgainIsSentAway | cmd/loophook/main.go:329-334 | A landed session that asks while another holds is sent away and changes nothing. |
| WorktreeHold.UnwrittenHoldWedges | cmd/loophook/main.go:324-332 | After a creator that never writes, no session holds over any run without a takeover. |
| WorktreeHold.ReleaseHandsOver | cmd/loophook/main.go:336-343 | After a holder's release the next landed session to ask holds alone. |
| WorktreeHold.Worktree.RecordImplementer | cmd/loophook/main.go:282-291 | The list gets the session on a line of its own, unless it is there or no name, and the implementers are then those there were and the session. |
| WorktreeHold.Worktree.HoldWorktree | cmd/loophook/main.go:310-334 | For every session and file: a takeover writes the name; a free worktree is taken by a session of the list and by no other; a file that is there stays, and the answer is the name it gives, or "" if that is the session's own. |
| WorktreeHold.Worktree.ReleaseWorktree | cmd/loophook/main.go:338-343 | The hold is removed if and only if it names the session. |
| StopGate.Session.RunStop | cmd/loophook/main.go:127-171 | The code is 2 if and only if the stop owes an answer, nothing in the plan or a gate lets the turn end, and it does not wait undirtied; the worktree is released and the block recorded exactly as that says. |
| StopGate.Session.TurnCreatedDirt | cmd/loophook/main.go:588-600 | The facts that the parked ones do not hold, in order. |
| StopGate.Session.BeginTurn | cmd/loophook/main.go:407-420 | A prompt's snapshot is of HEAD and the dirt now; it keeps a review session one, lets only a first message make it one, and names the holder of no review session. |
| StopGate.Session.RunPostCommit | cmd/loophook/main.go:256-269 | A landing writes the snapshot with the holder's answer, a gate's commit writes it with review and holder kept, and nothing else does. |
| StopGate.Session.RunDoctrine | cmd/loophook/main.go:362-380 | A resumed session's snapshot is dropped if and only if it does not review and was not sent away. |
| StopGate.BlockIsLast | cmd/loophook/main.go:194-220 | Over every run the recorded block is what the last block found, and there is one if and only if a stop was blocked readably. |
| StopGate.BaseIsSnapshot | cmd/loophook/main.go:529-538 | Over every run a session's snapshot is the dirt and HEAD of the prompt or commit boundary that wrote it last. |
| StopGate.CreatedIsNew | cmd/loophook/main.go:587-600 | A turn created no dirt if and only if every dirty fact was parked as it is. |
| StopGate.NoDirtIsLeavesNothing | cmd/loophook/main.go:571-600 | What the hook computes is what the run says: no dirt was created if and only if every dirty fact was there at the boundary the standing snapshot was taken at. |
| StopGate.AllowedIsJustified | cmd/loophook/main.go:117-172 | Over every run, a turn-end allowed an implementing session whose state is readable has a recorded stop, a committing gate, a complete plan, a waiting dispatch with no dirt since the standing snapshot, or is a retry that finds things as its last block did. |
| StopGate.BlockedExactly | cmd/loophook/main.go:127-171 | Over every run, a stop blocks if and only if it is no retry of what its last block found or cannot be read, of no session that reviews or was sent away, not stopped, committing or complete, and not waiting with no dirt. |
| StopGate.DirtiedIsLeft | cmd/loophook/main.go:571-600 | The dirt that blocks is the dirt the run left since the standing snapshot. |
| StopGate.ReviewIsKept | cmd/loophook/main.go:407-412 | Over every run with a HEAD a session that reviews goes on reviewing. |
| StopGate.SentAwayStays | cmd/loophook/main.go:370-380 | Over every run with a HEAD a session sent away stays so until its next prompt or landing. |
| StopGate.UnchangedRetryPasses | cmd/loophook/main.go:205-221 | A retry that finds things as its last block did, or whose state cannot be read, passes. |
| StopGate.ChangedRetryIsJudgedAfresh | cmd/loophook/main.go:173-178 | Any other retry is judged as a first stop is. |
| StopGate.NextStopAfterBlockPasses | cmd/loophook/main.go:127-171 | A retry right after a block passes, whatever the plan says: the gate never wedges. |
| StopGate.ReleaseIsRested | cmd/loophook/main.go:141-161 | The worktree is released only on a stop, a complete plan or a waiting dispatch, with no dirt created since the standing snapshot. |
| StopGate.ReleasedExactly | cmd/loophook/main.go:141-161 | Over every run, the worktree is released if and only if a stop that is judged leaves no dirt of the turn's and finds the plan stopped, complete or waiting. |
| Cycle.StepKeepsInv | cmd/loop/improve.go:531-582 | Every step, a crash at any point among them, keeps what the state file and the run in progress stand for. |
| Cycle.CreditIsEarned | cmd/loop/improve.go:557-575 | Over every sequence of runs and crashes, a phase is credited only if it passed under the same key in the same cycle; credited cells have not run since. |
| Cycle.PassedCellsAreNotRepeated | cmd/loop/improve.go:560-568 | Cells that passed run again for their key in a cycle only if the run was cut short before it wrote, or another key's state was written since. |
| Cycle.KeptExactly | cmd/loop/improve.go:446-454 | Cells that last ran and passed, in a cycle not ended since, are kept if and only if their record was written right after them and no other key's since. |
| Cycle.PassedCellsAreCreditedExactly | cmd/loop/improve.go:557-568 | After any runs and crashes, the next run of the key past the lanes credits such cells if and only if their record stands, and runs them again otherwise. |
| Cycle.OtherKeyRepeatsCells | cmd/loop/improve.go:446-454 | Runs of any key, of another and of the first again run the first's cells twice in one cycle, every phase passed. |
| Cycle.CrashRepeatsCells | cmd/loop/improve.go:560-562 | So does a crash between the cells and their record. |
| Cycle.CreditedPublicationIsFresh | cmd/loop/improve.go:569-575 | In every run of runs in which no crash falls in the window, each publication credited is newer than the last run of its cells. |
| Cycle.HazardIsExact | cmd/loop/improve.go:560-575 | A crash leaves a stale publication to be credited if and only if it falls between the two writes of a run whose cells passed again beside an old publication. |
| Cycle.HazardCreditsAStalePublication | cmd/loop/improve.go:560-575 | After every such crash the next run of the key credits a publication older than its cells. |
| Cycle.HazardIsReached | cmd/loop/improve.go:560-575 | Two runs from an empty state reach the window. |
| Cycle.WholeRunEnds | cmd/loop/improve.go:531-582 | Where a run no crash ends leaves the file and what it did, in each case. |
| Cycle.CycleFile.MeasurePhases | cmd/loop/improve.go:531-582 | The code's run is the steps' run, and for every file and answers: what it logs, what it leaves in the file, that it succeeds if and only if every phase it ran passed, and that it files if and only if the publication is in hand. |
| Render.Overwritten | cmd/evaluate/render.go:98-101 | Name by name, the setting or else the template's value, in whatever order the map gives the settings. |
| Render.RenderRequest | cmd/evaluate/render.go:97-115 | Name by name: the item's prompt; its source, if it has one; a seed that is a number, the index further; and else the setting or the template's value. |
| Render.RequestIsAsked | cmd/evaluate/render.go:97-115 | So is the request every draw is keyed by. |
| Render.SameDrawExactly | cmd/evaluate/render.go:97-115 | Two prompts share a draw if and only if their text and source are the same and no seed tells their places apart. |
| Render.StepKeepsInv | cmd/evaluate/render.go:205-254 | Every step of a render, a cut at any point among them, keeps each entry's file written before it and holding what was drawn. |
| Render.EmptyIsSound | cmd/evaluate/render.go:66-70 | An empty directory meets what the runs below start from. |
| Render.AdmittedExactly | cmd/evaluate/render.go:66-86 | A directory is gone on from if and only if it has no manifest or one of the same model, recipe, task and settings, whatever build drew it. |
| Render.EntriesAreKept | cmd/evaluate/render.go:66-86 | Over any sequence of renders into one directory no entry is lost or changed, and each names a file that holds its bytes. |
| Render.HeldIsVerified | cmd/evaluate/render.go:450-471 | An entry a render holds passes its verification, so a resumed render is not refused for it. |
| Render.InterruptionsRepeatOne | cmd/evaluate/render.go:231-251 | Executions never exceed the entries by more than the interruptions: each repeats one at the most. |
| Render.ResumedRenderCompletes | cmd/evaluate/render.go:205-254 | Over any sequence of renders of one job cut short anywhere none is refused, one that completes names every prompt, and the entries are then exactly the distinct keys. |
| Render.DistinctPromptsNamed | cmd/evaluate/render.go:215-254 | When the prompts' identities differ, each is named with its own request's key. |
| Render.LacksExactly | cmd/evaluate/render.go:231-234 | A render lacks a draw if and only if some prompt has it in no entry, asks for it first and is not given it, and so never when every draw is given. |
| Render.MediaDirectory.Draw | cmd/evaluate/render.go:231-251 | One draw is its execution, its file and its entry, in that order. |
| Render.MediaDirectory.LookUp | cmd/evaluate/render.go:220-229 | A prompt looked up passes if and only if its draw is held and its file is there as it was drawn, and changes nothing. |
| Render.MediaDirectory.RenderPrompt | cmd/evaluate/render.go:216-251 | One prompt: held and intact it passes with nothing written; held or another build's it is refused; and else it is drawn if it is given, its file, its entry and the log exactly so. |
| Render.MediaDirectory.RenderPrompts | cmd/evaluate/render.go:215-253 | The prompts all pass if every draw missing is given, and the first that does not pass was refused or is missing. |
| Render.MediaDirectory.RenderMedia | cmd/evaluate/render.go:205-254 | The code's run is a run of the steps, it returns names if and only if it finishes, what it returns is what the completed run holds, and resumed in its own directory it finishes if and only if the capability gives every draw that no entry and no earlier prompt has. |
| HashManifest.LineFields | cmd/gguf/hash.go:190-193 | A printed line is read back as its algorithm, its digest and the fields of its target, whatever the target holds. |
| HashManifest.ManifestKeyInjective | cmd/gguf/hash.go:267-269 | A key tells its algorithm and its target. |
| HashManifest.ReadManifest | cmd/gguf/hash.go:235-265 | Reads every line into entries and algorithms, and fails if and only if a line is too long to scan. |
| HashManifest.VerificationState.PrintRecord | cmd/gguf/hash.go:182-217 | The status of one digest and how it is folded into what was found and mismatched. |
| HashManifest.VerificationState.ExitCode | cmd/gguf/hash.go:219-233 | A missing entry exactly when nothing was found; a failure exactly when something was found and a tensor mismatched, or the model was found and mismatched. |
| HashManifest.Check | cmd/gguf/hash.go:128-143 | Success if and only if something was found and nothing found mismatched; failure if and only if something mismatched; a missing entry if and only if nothing was found. |
| HashManifest.Execute | cmd/gguf/hash.go:74-151 | With a manifest: 5 for an overlong line, 4 if no line speaks of an algorithm, and else the code of a check by the flags given or, with none, by sha256, sha1, xxh64 or uuid, the first that a line speaks of. |
| HashManifest.ReadMore | cmd/gguf/hash.go:250-260 | A line of three fields or more that opens with an algorithm sets the entry of its third field to its second, and any other line nothing. |
| HashManifest.AlgorithmsSpoken | cmd/gguf/hash.go:250-260 | The algorithms read are those that some line of three fields opens with. |
| HashManifest.PrintedPlainly | cmd/gguf/hash.go:105-107 | With no manifest what is printed is of the flags given, or of xxh64. |
| HashManifest.LineExactly | cmd/gguf/hash.go:196-198 | A line is the algorithm in eight columns, two spaces, the digest, two spaces and the target. |
| HashManifest.ItemsOfOne | cmd/gguf/hash.go:158-174 | The digests of one thing stand in the order xxh64, sha1, sha256, uuid, those selected that there are, and of a tensor no uuid. |
| HashManifest.TensorItemsMore | cmd/gguf/hash.go:128-136 | Tensors are listed in turn, each by the path, a colon and its name. |
| HashManifest.ItemsInOrder | cmd/gguf/hash.go:126-143 | The tensors are listed before the whole file, unless they are left out. |
| HashManifest.PrintedIsRead | cmd/gguf/hash.go:246-260 | Of any printed items, whatever their targets, each algorithm and field has the digest of the last line that opens so, and nothing else has an entry. |
| HashManifest.CheckedAgainstPrinted | cmd/gguf/hash.go:128-143 | A check of any items against any printed ones finds something, or something mismatched, if and only if the last lines that open with their whole targets say so. |
| HashManifest.PrintedIsFound | cmd/gguf/hash.go:128-143 | A file whose path is a word, checked against what was printed of it under any flags, is found if and only if an algorithm is shared, and mismatches something if and only if both sides list the tensors and a space-free name is taken by a tensor of another digest. |
| HashManifest.EntryOfFile | cmd/gguf/hash.go:246-260 | In the lines printed of a file, a tensor's space-free name has the digest of the last tensor whose name it is or opens up to white space, if tensors and algorithm were selected, and else none. |
| HashManifest.DistinctNamesHold | cmd/gguf/hash.go:128-143 | Distinct names without white space are taken by no other tensor. |
| HashManifest.ChosenWasPrinted | cmd/gguf/hash.go:88-99 | The algorithm chosen without flags is one that was printed. |
| HashManifest.PrintThenCheck | cmd/gguf/hash.go:74-151 | The code of printing and then checking one file, of any path and names, is what the printed lines say. |
| HashManifest.RoundTrip | cmd/gguf/hash.go:74-151 | For every path that is a word: a missing entry if and only if no algorithm is shared, which with the same flags or none one is; and else success if and only if a side leaves the tensors out or no space-free name is taken by another digest. |
| HashManifest.EntriesAreWords | cmd/gguf/hash.go:248-259 | No manifest has an entry of a target that holds white space. |
| HashManifest.SpacedInputIsNeverFound | cmd/gguf/hash.go:246-260 | A file whose path holds white space is found in no manifest, its own among them. |
| HashManifest.SpacedNameMismatches | cmd/gguf/hash.go:246-260 | For any words and digests, a later line of a target that goes on after a space takes the shorter target's entry, and its intact digest mismatches. |
| HashManifest.SpacedTensorFails | cmd/gguf/hash.go:128-143 | For any path and algorithm, a file of two tensors, the second's name the first's and more after a space, mismatches against its own lines. |
| Grouping.KeysAreDistinct | cmd/kernel-manifest/main.go:219-234 | Groups have distinct keys. |
| Grouping.KeysInFirstOrder | cmd/kernel-manifest/main.go:226-230 | Groups stand in the order their keys first occur. |
| Grouping.MembersAreKept | cmd/kernel-manifest/main.go:219-234 | Grouping loses, gains and doubles no member. |
| KernelLayouts.GroupArgumentLayouts | cmd/kernel-manifest/main.go:219-234 | The loop over an index map builds the functions' groups by signature, each with its first function's parameters. |
| KernelLayouts.VerifyArgumentLayouts | cmd/kernel-manifest/main.go:190-217 | The first name repeated; or else the count, when it is not the functions'; or else the first function that no layout gives the parameters parsed of it, missing, unparsed or different; accepted if and only if none. |
| KernelLayouts.DeclaredOnce | cmd/kernel-manifest/main.go:192-199 | Layouts that repeat no name give a function one parameter list. |
| KernelLayouts.GroupedIsAccepted | cmd/kernel-manifest/main.go:173-178 | What was grouped is accepted if and only if no function is listed twice, all were parsed, and a signature tells its parameters. |
| KernelLayouts.JoinInjective | cmd/kernel-manifest/main.go:224-224 | Joining by NUL tells lists of non-empty strings without a NUL apart. |
| KernelLayouts.EmptyParameterHides | cmd/kernel-manifest/main.go:224-224 | With an empty parameter it does not. |
| KernelLayouts.GroupedOfParsed | cmd/kernel-manifest/main.go:173-178 | Of parsed parameters, what was grouped is accepted if and only if no function is listed twice and every one has an entry. |
| KernelLayouts.LayoutsAreByParameters | cmd/kernel-manifest/main.go:219-234 | Of parsed parameters, the layouts are the functions grouped by the parameter lists themselves, one for each, in first-occurrence order. |
| KernelLayouts.Update | cmd/kernel-manifest/main.go:172-178 | Grouping and then checking accepts, or names a repeat or an unparsed function, and nothing else can fail. |
| KernelLayouts.AcceptedIsExact | cmd/kernel-manifest/main.go:190-217 | Layouts accepted for distinct functions name exactly those, with the parameters parsed. |
| KernelLayouts.RepeatLetsAStrangerIn | cmd/kernel-manifest/main.go:200-216 | For every list of parsed functions with a repeat, some layouts that name an unlisted function are accepted. |
| KernelLayouts.AcceptanceIsExactForDistinct | cmd/kernel-manifest/main.go:190-217 | Of parsed functions, all accepted layouts name exactly those listed if and only if none is listed twice. |
| ManifestMerge.NormalSuites | cmd/evaluate/main.go:447-453 | The suites made normal in place, refused if and only if one is absent. |
| ManifestMerge.MergeModels | cmd/evaluate/main.go:440-461 | The requests merged by path, or the first unsound one refused for its model before its suites. |
| ManifestMerge.CompileManifest | cmd/evaluate/main.go:434-464 | Refused as incomplete if and only if the repository, catalog, commit, device or models lack; or else for the first request with no model or an absent suite; and else merged, with every field trimmed and cleaned. |
| ManifestMerge.PathsInFirstOrder | cmd/evaluate/main.go:455-460 | The models' paths are distinct and in first-occurrence order. |
| ManifestMerge.SuitesAreKept | cmd/evaluate/main.go:455-460 | Every suite is asked for as often as before, and their number is conserved. |
| ManifestMerge.MergedTwice | cmd/evaluate/main.go:434-464 | Merging again changes nothing if and only if trimming and cleaning twice is the same as once for every path and suite the requests gave. |
| ManifestMerge.MergedTwiceDiffers | cmd/evaluate/main.go:442-460 | A request whose path, made normal, is not normal merges to another the second time. |
| ManifestMerge.CompiledTwice | cmd/evaluate/main.go:434-464 | When that is so of the catalog, paths and suites given, what they compile to is accepted again; compiled again, it is itself if and only if that is so. |
| Calibration.RequiredIsLeast | cmd/advisories/main.go:244-247 | The scores required are the fewest, two at the least, with one more of which a share is within the budget. |
| Calibration.PlanExactly | cmd/advisories/main.go:239-258 | A plan is of blocks of four: one for the verdict and the others for scores. |
| Calibration.QuantileExactly | cmd/advisories/main.go:287-301 | For every share, as many values as its place says reach the quantile and no more than the others exceed it, the least and the greatest at the ends. |
| Calibration.SufficientIsEnough | cmd/advisories/main.go:239-262 | For every window, a plan is sufficient if and only if there are as many observations as it requires. |
| Calibration.LimitIsUsedWhole | cmd/advisories/main.go:226-229 | A sufficient history no longer than the limit it is loaded to has exactly the scores required and no observation over. |
| Calibration.BlocksTile | cmd/advisories/main.go:264-285 | Each observation but the oldest remainder lies in exactly one block, and those in none. |
| Calibration.LatestIsLastBlock | cmd/advisories/main.go:75-96 | The latest window is the history's last block, and the prefix's blocks are those before it, as many as the plan counts. |
| Calibration.DisjointSurprises | cmd/advisories/main.go:267-285 | One score for each block of the history, in order, its surprise or nothing if it is quiet; and no score if the detector fails on one. |
| Calibration.ThresholdIsTight | cmd/advisories/main.go:287-301 | At most the budget's share of the scores exceed the quantile, and one more than that reach it. |
| Calibration.TightIsOne | cmd/advisories/main.go:287-301 | No other threshold is so. |
| Calibration.Calibrate | cmd/advisories/main.go:75-96 | Calibrating if and only if history is too short; armed if and only if it is long enough and the detector fails on no block, with a positive threshold over all the scores and a latest window apart from them. |
| Calibration.ArmedIsWithinBudget | cmd/advisories/main.go:80-92 | An armed threshold is exceeded by at most the budget's share of the scores, the least positive one among them. |
| TopLogits.CopyUp | cmd/generate/main.go:126-126 | The overlapping copy moves each element up by one place, the last over. |
| TopLogits.Position | cmd/generate/main.go:116-119 | The scan from the back stops where the next id fits. |
| TopLogits.TopLogitIndices | cmd/generate/main.go:110-130 | For every n, the array ends with n ids, or all, each of a greater logit than the next or as great and of the lower id, and so against every id left out. |
| TopLogits.TopIsPrefix | cmd/generate/main.go:109-130 | What is listed is where any stable descending ranking begins. |
| TopLogits.TopBeginsTheRanking | cmd/generate/main.go:109-130 | There is one such ranking, and the list is a prefix of it. |
| BudgetSlices.RunAllParent | cmd/evaluate/all.go:103-154 | The deadline loop reports each model as the recurrence of time left, slice and use says, and fails if and only if the budget is not positive or one is unevaluated, errored or exited badly. |
| BudgetSlices.LeftIsTheRest | cmd/evaluate/all.go:106-115 | The time left at a model's turn is the budget less all use and all pauses before it. |
| BudgetSlices.TurnExactly | cmd/evaluate/all.go:105-153 | Of the budget less all before: an equal share for each model still to come, used as far as it is wanted, and the report that follows. |
| BudgetSlices.NeverOverBudget | cmd/evaluate/all.go:111-135 | However long the pass pauses between models, the workers together take no more than the budget. |
| BudgetSlices.UnevaluatedIsElapsed | cmd/evaluate/all.go:106-110 | A model goes unevaluated if and only if the time before its turn took the budget. |
| BudgetSlices.TimeIsLeft | cmd/evaluate/all.go:106-115 | When bookkeeping takes no time there is time left for every model, for any positive budget. |
| BudgetSlices.SlicesNeverShrink | cmd/evaluate/all.go:111-115 | Slices never get smaller. |
| BudgetSlices.NoModelStarves | cmd/evaluate/all.go:111-115 | Every model is reached and has the floor of an equal share at the least. |
| BudgetSlices.NothingIsWasted | cmd/evaluate/all.go:111-115 | When the last model runs past its slice the whole budget was used. |
| BudgetSlices.PauseStarves | cmd/evaluate/all.go:106-110 | A first pause as long as the budget leaves every model unevaluated, so the bound needs its assumption. |
| Text.WordsAreRuns | cmd/loop/leftovers.go:524-524 | Every word that text is cut into is a maximal run of it. |
| Text.RunsAreWords | cmd/loop/leftovers.go:524-524 | Every maximal run of text is one of its words. |
| Text.TrimSpaceExactly | cmd/evaluate/main.go:434-437 | Trimmed text is what stands between the first and the last character that is no white space. |
| Text.SpacesExactly | cmd/evaluate/main.go:434-437 | White space is the twenty-five characters of those codes. |
| Text.CutAtNul | cmd/gguf/hash.go:267-269 | Text up to its first NUL, and what follows it, are one text's alone. |

## Left out

- Removal.TokenMeansOneList: takes the whole digest to tell its inputs apart; the code keeps only the digest's first digits.
- StopGate.AllowedIsJustified: does not cover review sessions and sessions sent away by a holder, which the hook never holds.
- WorktreeHold.OneLandedStands: takes the list of landings as records write it, and names of sessions as holding no white space; a record of any other name is not covered.
- WorktreeHold.AtMostOneHolds: takes each file operation as one step that succeeds; a failed write or removal is not modelled, nor is a session whose name is not given.
- Cycle.CreditIsEarned: does not model a failed write of the state file, nor the cells a validate run credits within its own phase.
- Render.HeldIsVerified: does not model the producing run's record and retained request that verification also reads in the store.
- Render.SameDrawExactly: takes the key as the request itself and seeds as reals; the digest and float rounding of a large seed are not modelled.
- Withdrawal.Withdraw: takes a store head to name one history, paths' containment as a relation of the machine, and the checkpoints as read; that the directory lies in the experiments folder and that a record names it are conditions met before.
- HashManifest.PrintThenCheck: takes every digest as a word and one line for each item, so a name that holds a line break is not covered.
- UndeclaredPlaces.CommandListingNests: takes git to list a wholly untracked directory once, and both walks to read the same directories.
- Calibration.ThresholdIsTight: is over reals; rounding of the budget's reciprocal and of the quantile's index is not modelled.
- TopLogits.TopLogitIndices: is over reals, so a logit that is no number is not covered, nor a negative n.
- ManifestMerge.CompiledTwice: takes the cleaning of a path as any function; the reading of relative paths against the manifest's own directory comes before it and is not modelled.
- BudgetSlices.NoModelStarves: takes a worker to end with its slice and the pass to spend no time between models; other pauses are covered by the lemmas before it.
- Citations.Cited: lower-cases only the letters A to Z, and takes git grep's lines, and the elements of the path in the form they are searched in, as given.
- BuildScrub.Scrub.Walk: takes the declaration as read and valid, RETAINED.json as a file, and does not keep the count of entries kept; the sort of the scrap and the order of directory entries do not matter to what is proved.
- The places of the leftovers table (worktrees, branches, stashes, outputs, caches, scratch) decide single entries from facts of git, Go and the process list, and are not modelled.
- The clearing after a confirmed commit repeats the removal of each place with no token.
- The messages, receipts' wording, JSON forms, flags and exit texts of all commands.
- The advisories' escalation, loading by pages and the detector itself; the parsing of PTX; the digests; the capability that draws.
- The plan's dispatch, gate processes and git state are inputs of the stop gate's steps.
