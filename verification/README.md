# DD-UI: models and proofs

Dafny models of the parts of DD-UI that compute or keep state, with proofs of what they promise.
`dafny verify dfyconfig.toml` checks all of them.

| files | component |
|---|---|
| `Git.dfy`, `Mirror.dfy`, `GitSync.dfy`, `SyncExactness.dfy`, `SyncRounds.dfy`, `SyncOutcomes.dfy` | git sync between the data directory, a working clone and a remote branch: one operation and any run of them, what goes wrong and exactly when, undisturbed rounds, how each operation ends |
| `Yaml.dfy`, `Inventory.dfy`, `Fields.dfy`, `GroupForest.dfy`, `ImplicitGroups.dfy`, `GroupTree.dfy`, `ReadBack.dfy`, `EditEffects.dfy`, `NestedGroups.dfy`, `InventoryManager.dfy` | the Ansible inventory: edits and their exact effects, group forest, host and group views, export |
| `Dotenv.dfy`, `DotenvRoundTrip.dfy` | taking comments out of `.env` files and putting them back |
| `ComposeVariables.dfy`, `ComposeTemplates.dfy`, `ComposePrecedence.dfy` | `${NAME}` and `${NAME:-default}` resolution by rescanning, and which definition decides |
| `BundleHash.dfy`, `DriftCache.dfy` | the directory hash and the two-tier drift cache |
| `SseLineWriter.dfy`, `EventStream.dfy`, `TwoStreams.dfy` | cutting output into server-sent events, and reading them back (WHATWG HTML standard, sections 9.2.5 and 9.2.6) |
| `ScanAll.dfy` | the bounded parallel scan pass |
| `ReadmeGenerator.dfy`, `ReadmeTokens.dfy`, `ReadmePasses.dfy`, `ReadmeReplaces.dfy`, `ReadmeSections.dfy` | marker-delimited README sections: one section, documents cut at their markers, and updates of several sections in a row |
| `Text.dfy`, `Options.dfy` | Go string operations, optional values |

Git sync. A world is the data directory, the clone (files, index, head, unfinished merge,
remote-tracking ref), the remote tip and an append-only list of commits. Each command takes its
outcome as a parameter, other writers may author and push commits before every contact with the
remote, and the tree of a merge commit is left open, so the theorems hold for every way the commands
can go. "The tracked files" are those below the inventory directory or the docker directory.

Inventory. Documents are decoded YAML values; edits are functions on them, and the methods of
`InventoryManager.InventoryManager` perform them step by step on the stored document.

Scan. Goroutines, channel, mutex and wait group are one state; a schedule is any sequence of single
steps, and a step of a blocked goroutine does nothing. Updating the counters is a read and a write.

Drift. The cache is a map from stack ids to rows. `sha` is an arbitrary function; where needed, the
lemmas assume results of 64 hexadecimal digits and that no two strings hashed in the runs at hand
collide.

Where the code does not do what its comments or names say, the model follows the code, a lemma gives
an input that shows it, and another says exactly when the promise holds:

- A pull is meant never to lose track of local files, but three failures on the way are only logged
  or ignored and each can lose them: of the preservation commit (`PullCanLoseWork`), of the copy of
  the local files into the clone (`FailedMirrorLosesWork`) and of staging (`FailedAddLosesWork`).  A
  fourth is reported too late: the last copy into the data directory fails after it has removed the
  old files, and these are lost if the head that was applied is not on the remote
  (`FailedCopyBackLosesWork`, `FailedCommitAndCopyLoseWork`).  `PullLosesWorkExactly` and
  `PullLosesNewWorkExactly` say exactly when work is lost, for every way a pull can end.
- A pull leaves what it overwrote as the remote's tip, so undisturbed pulls in a row exchange the two
  states again and again, and every second one brings the data directory back to where it was
  (`PullExchanges`, `PullsAlternate`, `SecondPullExactly`).
- The "clean remote state" a pull applies is the remote's exactly if the remote has the commit the
  last `git pull` started from: the clone's own head, or the remote-tracking ref if a first attempt
  failed and the reset worked (`PullTakesRemoteExactly`).
- A push reports "nothing to push" while the remote lacks the data, after an earlier push failed
  (`PushCanReportUnpushed`) or when its pull fails for a reason it does not know
  (`PushCanMissTheRemote`).  It is right exactly if the remote tip has the tracked files of the head
  the data was compared with (`NothingToPushExactly`, `SmoothPushPublishes`).
- A group created as its own parent becomes its own child and vanishes from the tree
  (`CreateGroupKeepsForestExactly`, `OwnParentVanishes`); taking a host out of "all" leaves groups
  listing a host that is gone (`RemoveHostKeeps`).
- Adding a host to "all", removing it from there or deleting "all" erases the host's address, variables
  and metadata; no other edit of something else touches them (`HostVarsKeptExactly`).
- Updating the metadata of a group never returns exactly if the group last came in by a host being
  added to it (`CallReturnsExactly`, `UpdateHangsExactly`).
- A "ragged" `.env` file, one without assignments that begins with all its comments, at least one,
  and lacks a final line break, gains one (`RoundTripMergesExactly`).
- Two different directories can have the same hash if a path contains ":" and hexadecimal digits
  (`ColonsBreakFaithfulness`, `TellsApartExactly`).
- Drift is reported once: a second check of the same changed files finds none, though they were never
  deployed (`CheckForgetsDeployment`).  "No drift" means "as deployed" exactly while the record is
  what was deployed, and so until the first alarm (`MeansAsDeployedExactly`, `UnnoticedExactly`).
- The map comparison takes an empty hash for a missing key (`AgreementIsEqualityExactly`).
- A carriage return inside a line does not survive the event stream (`LinesArriveExactly`,
  `BothStreamsArriveExactly`).
- Section contents that contain the end marker make the README grow on every pass
  (`SecondPassExactly`).
- A concurrency of zero blocks the scan for ever (`CompletesExactly`).
- A variable defined by way of itself keeps the resolver busy for ever (`SelfReferenceNeverEnds`,
  `EndsExactly`, `TemplatesEndExactly`).

## Model

| member | source | states |
|---|---|---|
| Mirror.RsyncAgreesWithFallback | api/services/git_sync.go:1344-1357 | mirroring with `rsync --delete` and removing then copying give the same destination tree |
| Mirror.CopyTrackedExact | api/services/git_sync.go:1328-1402 | a successful copy makes the tracked files equal even when one directory lies in the other; no copy, failed or not, touches any other path |
| Mirror.CopyBackIsIdentity | api/services/git_sync.go:1328-1479 | copying data to the clone and straight back leaves the data directory as it was |
| Git.ReachesTransitive | api/services/git_sync.go:751-760 | reachability in the commit graph composes, so history kept by each step is kept by all |
| Git.InterfereGrows | api/services/git_sync.go:751-760 | whatever other writers commit and push, the remote keeps every commit it had and the clone and data are untouched |
| Git.PullLandsOnRemote | api/services/git_sync.go:676-706 | a pull ends on the fetched remote commit exactly if the clone had no commit the remote lacks, and always contains the fetched one |
| GitSync.PullNeverLosesWork | api/services/git_sync.go:642-787 | if the copy into the clone, staging and the preservation commit work, and the last copy back works or the head it applies is on the remote branch, a pull never replaces tracked files the remote branch does not hold, for all other outcomes and interleaved pushes |
| GitSync.PullErrorsLeaveData | api/services/git_sync.go:644-775 | every error before the final copy leaves the data directory untouched, and no exit touches untracked files |
| GitSync.PullGrowsRemote | api/services/git_sync.go:642-787 | every commit reachable from the remote before a pull is reachable after it |
| GitSync.PushGrowsRemote | api/services/git_sync.go:796-977 | a push keeps the remote's history and never changes the data directory |
| GitSync.PushPublishesData | api/services/git_sync.go:832-966 | a push that reports success leaves the tracked data in the local head, and past its push step that head is the remote tip |
| GitSync.RunGrowsRemote | api/services/git_sync.go:642-977 | over any run of pulls, pushes, edits and foreign pushes the remote branch only grows |
| GitSync.NothingOverwrittenIsLost | api/services/git_sync.go:642-787 | over any run whose pulls each meet that condition in the state they are made in, whatever a pull overwrites at any point can be checked out from the remote branch at the end of the run |
| GitSync.GitSyncService.AtomicPull | api/services/git_sync.go:644-787 | the step-by-step pull has exactly the specified effect and the safety properties above |
| GitSync.GitSyncService.AtomicPush | api/services/git_sync.go:798-977 | the step-by-step push has exactly the specified effect, keeps history and publishes the tracked data |
| GitSync.GitSyncService.CopyFromDataToGit | api/services/git_sync.go:1328-1402 | mirrors the tracked directories into the clone and nothing else |
| GitSync.GitSyncService.CopyFromGitToData | api/services/git_sync.go:1405-1479 | mirrors the tracked directories into the data directory and nothing else |
| SyncExactness.PullDeliversHeadExactly | api/services/git_sync.go:700-775 | when exactly a completed pull, whatever failed on the way, leaves the tracked files of the saved head in the data directory |
| SyncExactness.PullTakesRemoteExactly | api/services/git_sync.go:676-706 | the saved head is the remote commit just fetched exactly if the remote had the commit the last `git pull` started from; after a failed first attempt and a working reset it always is |
| SyncExactness.PullRecordsExactly | api/services/git_sync.go:717-762 | which tracked files the remote's history holds after a pull that got as far as writing to the data directory, whether or not that copy worked: with a preservation commit those of that commit and of the head below it, else those it had |
| SyncExactness.PullLosesWorkExactly | api/services/git_sync.go:712-770 | whatever failed and however the pull ended, it loses the local files exactly if it got as far as writing to the data directory, replaced them there, and neither the preservation commit, if one was made, nor the history it built on has them |
| SyncExactness.PullLosesNewWorkExactly | api/services/git_sync.go:712-770 | however the pull ended, local files no commit has are lost exactly if they are replaced and not committed as they are; a completed pull whose staging and last reset worked loses them exactly if the commit fails or the mirror copy garbled them |
| SyncExactness.PullCanLoseWork | api/services/git_sync.go:742-748 | a concrete run in which only the commit fails and an edited file is lost |
| SyncExactness.FailedMirrorLosesWork | api/services/git_sync.go:709-711 | a concrete run in which only the copy into the clone fails and an edited file is lost |
| SyncExactness.FailedAddLosesWork | api/services/git_sync.go:722-725 | a concrete run in which only staging fails and an edited file is lost |
| SyncExactness.FailedCopyBackLosesWork | api/services/git_sync.go:768-772 | a concrete run in which everything up to the commit works, the last copy fails half-way and files whose commit was never pushed are lost |
| SyncExactness.FailedCommitAndCopyLoseWork | api/services/git_sync.go:742-772 | a concrete run in which the commit and the last copy fail and an edited file is lost |
| SyncExactness.CatchUpHead | api/services/git_sync.go:832-912 | the head each branch of catching up ends on, and when it is the remote's |
| SyncExactness.NothingToPushExactly | api/services/git_sync.go:832-953 | whatever became of the pull, on the "nothing to commit" exit the remote tip has the tracked data exactly if it has the tracked files of the head the data was compared with; always after a working fetch and reset, or a pull of a clone without a commit of its own |
| SyncExactness.PushCanReportUnpushed | api/services/git_sync.go:947-953 | a concrete run in which a repeated push reports success and the remote lacks the data |
| SyncExactness.PushCanMissTheRemote | api/services/git_sync.go:907-953 | a concrete run in which the pull fails for another reason, the push reports success and the remote has other files |
| SyncRounds.PullExchanges | api/services/git_sync.go:642-787 | a pull in which every command works and nobody else pushes swaps the tracked files of the data directory and of the remote tip |
| SyncRounds.PullsAlternate | api/services/git_sync.go:642-787 | any number of such pulls in a row alternate between the two states; after an even number the whole data directory is as it was |
| SyncRounds.SecondPullExactly | api/services/git_sync.go:717-770 | a second pull leaves the data directory alone exactly if the first had nothing to preserve |
| SyncRounds.PullsAfterPush | api/services/git_sync.go:642-977 | after a completed push, any number of such pulls leaves the data directory exactly as it was pushed |
| SyncOutcomes.CopyOkExactly | api/services/git_sync.go:1328-1479 | a copy of the two directories succeeds exactly if none that is there in the source breaks, whatever the destination holds |
| SyncOutcomes.PullEndsExactly | api/services/git_sync.go:642-787 | which of the four ways a pull ends, from the outcomes of its commands: it gives up only after two failed attempts or when the preservation commit does not reach the remote, and is done in all other cases unless the last copy breaks |
| SyncOutcomes.RetriedPullExchanges | api/services/git_sync.go:676-775 | whatever state the clone was in, a pull whose first attempt fails and whose later commands work undisturbed is done, with the remote's tracked files in the data directory and the old ones at the remote tip |
| SyncOutcomes.MergeLeftExactly | api/services/git_sync.go:832-912 | when exactly an unfinished merge is still there after a push has tried to catch up |
| SyncOutcomes.PushEndsExactly | api/services/git_sync.go:796-977 | which of the six ways a push ends, from the outcomes of its commands; no complaint of its own pull ends it |
| SyncOutcomes.SmoothPushPublishes | api/services/git_sync.go:832-966 | a push whose pull works or complains of a conflict or divergence, and whose later commands work undisturbed, reports success; the remote tip then has the data exactly if the clone was recovered, a commit was pushed, or it had the data before |
| Yaml.RemoveDDUIFields | api/services/inventory_manager.go:1037-1056 | the recursive loops compute the stripped document |
| Yaml.StripKeepsExactly | api/services/inventory_manager.go:1037-1056 | stripping removes exactly the values behind a `dd_ui_` key; every other path leads to what it led to, stripped |
| Yaml.StripIsIdempotent | api/services/inventory_manager.go:1037-1056 | stripping twice is stripping once |
| Inventory.UpdateHostIsInvisibleExactly | api/services/inventory_manager.go:654-734 | updating a host leaves the exported inventory unchanged exactly if no new address is given or the host's own name is not exported |
| Inventory.UpdateGroupMetadataIsInvisible | api/services/inventory_manager.go:340-391 | a returning metadata update of a group leaves the exported inventory unchanged |
| Fields.ParseFields | api/services/inventory_manager.go:814-965 | the loop over the variables of a host or group reads address, metadata and other variables as specified, with the default owner |
| Fields.MetadataReadsBack | api/services/inventory_manager.go:596-628 | all metadata written into variables without any is read back unchanged |
| Fields.MetadataMerges | api/services/inventory_manager.go:340-391 | metadata written over existing variables: given fields read back new, the others as they were |
| Fields.StoredUnder | api/services/inventory_manager.go:596-628 | the key under which each field is stored, if it has a value |
| ReadBack.CreatedHostReadsBack | api/services/inventory_manager.go:558-651 | a created host is listed with exactly the address and metadata it was created with |
| ReadBack.UpdatedHostReadsBack | api/services/inventory_manager.go:654-734 | an updated host is listed with exactly the new metadata, the given or old address, and its other variables as they were |
| ReadBack.UpdatedGroupReadsBack | api/services/inventory_manager.go:340-391 | an updated group is listed with the given metadata fields new, the other fields and its variables as before |
| ReadBack.HostVarsKeptExactly | api/services/inventory_manager.go:340-810 | every edit but creating, updating or deleting the host itself keeps the host's own variables exactly if it does not add or remove that host under "all" or delete "all", or there was nothing to erase |
| EditEffects.EditsExactly | api/services/inventory_manager.go:340-810 | for every saved edit, group, child and host: which groups there are afterwards, whose child each is, who is a member of what, and what vars each has |
| EditEffects.RefusedExactly | api/services/inventory_manager.go:340-810 | which edits are refused, and with which error |
| EditEffects.EditsShowInGroups | api/services/inventory_manager.go:213-251 | after a careful edit of a good inventory exactly the remaining groups are listed, with exactly the hosts and children the edit left |
| EditEffects.EditsShowInHosts | api/services/inventory_manager.go:179-210 | and exactly the remaining hosts, each with exactly the groups it is then in |
| EditEffects.CreatedGroupReadsBack | api/services/inventory_manager.go:477-555 | a created group is listed with exactly the metadata it was created with |
| GroupForest.CreateGroupKeepsForestExactly | api/services/inventory_manager.go:477-555 | creating a group keeps the hierarchy a forest exactly if it is not its own parent and is not a missing "all" put below a group |
| GroupForest.DeleteGroupKeeps | api/services/inventory_manager.go:781-810 | deleting keeps the forest, and keeps listed hosts existing exactly if it is not "all" or no group lists a host |
| GroupForest.RemoveHostKeeps | api/services/inventory_manager.go:446-474 | removing a host, which may drop the group, keeps the forest, and listed hosts existing exactly if the group is not "all" or no group lists the host |
| GroupForest.AddHostKeeps | api/services/inventory_manager.go:394-443 | adding a host to an existing or new group keeps the forest and only lists existing hosts |
| GroupForest.DeleteHostKeeps | api/services/inventory_manager.go:737-778 | deleting a host takes it out of every group, so listed hosts still exist |
| GroupForest.RunsStayGood | api/services/inventory_manager.go:340-810 | from an empty inventory every run of edits that makes no group its own parent and leaves "all" alone ends in a forest whose listed hosts exist |
| ImplicitGroups.CallReturnsExactly | api/services/inventory_manager.go:340-391 | a call that takes the lock step by step has exactly the specified effect or waits for ever for the lock it holds |
| ImplicitGroups.VarsByIntroduction | api/services/inventory_manager.go:394-555 | over any run, an entry has vars exactly if it was last introduced by creating it, and a group can only come in by that or by adding a host |
| ImplicitGroups.UpdateHangsExactly | api/services/inventory_manager.go:340-443 | after any run from an empty inventory, updating a group's metadata never returns exactly if the group is there and last came in by a host being added to it |
| GroupTree.NoCycles | api/services/inventory_manager.go:535-546 | in a forest no chain of child references comes back to its start |
| GroupTree.ExactlyOneRootPath | api/handlers/groups.go:140-173 | every group is reached from exactly one root along exactly one path |
| GroupTree.GetGroupTree | api/handlers/groups.go:150-169 | the nested loops return the groups that no listed group has as a child, in order |
| GroupTree.TreeRootsExactly | api/handlers/groups.go:140-173 | in a forest the returned groups are exactly its roots |
| GroupTree.TreeCoversEveryGroupOnce | api/handlers/groups.go:130-173 | the returned roots are the roots of the forest, and each listed group is below exactly one of them |
| GroupTree.OwnParentVanishes | api/handlers/groups.go:148-169 | a group created as its own parent is listed but returned as no root |
| GroupTree.GetGroups | api/services/inventory_manager.go:213-251 | lists every top-level group once with exactly its hosts, children, vars and metadata, then the direct children of "all" |
| GroupTree.ProcessChildGroups | api/services/inventory_manager.go:982-994 | a host gains exactly the groups that list it at any depth below the given children |
| GroupTree.ProcessGroups | api/services/inventory_manager.go:966-980 | every host gets exactly the groups that list it, without duplicates when "all" has no children |
| GroupTree.GetHosts | api/services/inventory_manager.go:179-210 | lists every host of "all" once with exactly the groups that list it and its address, vars and metadata |
| GroupTree.ViewsAgree | api/services/inventory_manager.go:179-251 | in a good inventory a host names a group exactly if the group names the host, both are listed, and nothing is listed twice |
| NestedGroups.HostGroupsExactly | api/services/inventory_manager.go:966-994 | a host is listed with exactly the top-level groups that list it and those that do along a path of child names from "all" |
| NestedGroups.GroupNamesExactly | api/services/inventory_manager.go:213-251 | the groups listed are exactly those at the top and those directly below "all" |
| InventoryManager.InventoryManager.CreateGroup | api/services/inventory_manager.go:477-555 | stores exactly the specified edit or refuses and stores nothing, and keeps the inventory good |
| InventoryManager.InventoryManager.DeleteGroup | api/services/inventory_manager.go:781-810 | removes the group and every reference to it, and keeps the inventory good |
| InventoryManager.InventoryManager.AddHostToGroup | api/services/inventory_manager.go:394-443 | stores exactly the specified edit or refuses, and keeps the inventory good |
| InventoryManager.InventoryManager.RemoveHostFromGroup | api/services/inventory_manager.go:446-474 | stores exactly the specified edit, and keeps the inventory good |
| InventoryManager.InventoryManager.UpdateGroupMetadata | api/services/inventory_manager.go:340-391 | stores the edit, refuses, or blocks; the exported inventory never changes |
| InventoryManager.InventoryManager.CreateHost | api/services/inventory_manager.go:558-651 | stores exactly the specified edit or refuses, and keeps the inventory good |
| InventoryManager.InventoryManager.UpdateHost | api/services/inventory_manager.go:654-734 | stores exactly the specified edit or refuses; without an address the exported inventory never changes |
| InventoryManager.InventoryManager.DeleteHost | api/services/inventory_manager.go:737-778 | removes the host everywhere or refuses, and keeps the inventory good |
| InventoryManager.InventoryManager.GroupTreeOfGood | api/handlers/groups.go:130-173 | on a stored good inventory, listing and filtering the groups returns exactly the roots of the forest |
| Dotenv.ParseDotenvWithComments | api/services/deploy_sops.go:262-312 | the loop separates the lines as specified: assignments joined, comments with their line numbers |
| Dotenv.ReconstructDotenvWithComments | api/services/deploy_sops.go:315-374 | the two-cursor loops weave clean lines and comments as specified |
| Dotenv.KindExactly | api/services/deploy_sops.go:274-299 | a line is an assignment exactly if it has a "=" and does not begin, after white space, with "#"; blank exactly if white space; else a comment |
| Dotenv.CommentMapExactly | api/services/deploy_sops.go:332-335 | of several comments with one line number the last counts |
| Text.NormalizeSteps | api/services/deploy_sops.go:266-268 | each line ending of any of the three kinds becomes one line feed, and nothing else changes |
| DotenvRoundTrip.CommentsExactly | api/services/deploy_sops.go:262-312 | the comments taken out are exactly those lines, each under its own number |
| DotenvRoundTrip.AssignmentsExactly | api/services/deploy_sops.go:262-312 | the lines kept are exactly the assignments |
| DotenvRoundTrip.ReconstructInterleaves | api/services/deploy_sops.go:315-374 | put into any text, all comments by number and all its lines that are not empty come out, each in order, with at most one empty line behind them |
| DotenvRoundTrip.RoundTripMergesExactly | api/services/deploy_sops.go:262-374 | out and back, a file is an order-preserving interleaving of exactly its assignments and comments with its own final line break, for exactly the files that are not ragged |
| DotenvRoundTrip.RoundTripRestoresExactly | api/services/deploy_sops.go:262-374 | the normalised text comes back character for character exactly if it has no blank line before its end and is not ragged, or has no line |
| DotenvRoundTrip.CleanedTextIsStable | api/services/deploy_sops.go:262-312 | parsing the result again gives the same cleaned text for exactly the files that are not ragged |
| DotenvRoundTrip.SecondRoundTripExactly | api/services/deploy_sops.go:262-374 | a second round trip changes nothing exactly if the file is ragged, ends in a line break, has an assignment or has no comment |
| ComposeVariables.RewriteUsesUp | api/services/compose_render_hash.go:348-414 | whichever of "$", "{" and "}" no value contains gets rarer with every turn of the loop, also when defaults or seams create new placeholders |
| ComposeVariables.StopsExactly | api/services/compose_render_hash.go:349-357 | the loop stops exactly on texts in which no "${" is followed by a "}" |
| ComposeVariables.LookupVariable | api/services/compose_render_hash.go:371-397 | the level-by-level lookup is: non-empty root value, else non-empty service value, else the first file defining the name |
| ComposePrecedence.TurnExactly | api/services/compose_render_hash.go:348-414 | for every environment and text, one turn replaces exactly the first placeholder, by the value of the least level that decides its name, or by its default if that is empty |
| ComposePrecedence.ReferenceResolves | api/services/compose_render_hash.go:371-397 | a reference resolves to the value of the least level that decides it: a non-empty one in the root or the service, any in the files |
| ComposePrecedence.LowerLevelsDoNotMatter | api/services/compose_render_hash.go:371-397 | for every text, what is defined below the level that settles a name changes neither whether the loop ends nor its result |
| ComposeVariables.ResolveVariables | api/services/compose_render_hash.go:343-418 | wherever the rescanning loop ends it ends with this text, in which no placeholder is left |
| ComposeVariables.EndsExactly | api/services/compose_render_hash.go:348-414 | with values over a given set of characters, the loop ends for every environment and input exactly if the set lacks "$", "{" or "}" |
| ComposeTemplates.ResolveRefinesOnePass | api/services/compose_render_hash.go:343-418 | with values free of "$", for any template of literals and placeholders the rescanning result is each piece looked up once and joined |
| ComposeTemplates.ResolveRefinesMeaning | api/services/compose_render_hash.go:343-418 | with values that are templates without circular references, the rescanning result is the template with every value expanded in turn |
| ComposeTemplates.TemplatesEndExactly | api/services/compose_render_hash.go:348-414 | with values that are templates, the loop ends on every template exactly if no variable refers to itself, directly or through others |
| ComposeVariables.SelfReferenceNeverEnds | api/services/compose_render_hash.go:348-414 | with a variable defined as a reference to itself the loop does not end |
| BundleHash.HashDirectoryContents | api/utils/hash.go:51-99 | the walk, sort and final loop hash the sorted, joined entries |
| BundleHash.WalkOrderIrrelevant | api/utils/hash.go:51-99 | the hash does not depend on the order in which files are visited |
| BundleHash.DigestOfOrderedLines | api/utils/hash.go:76-98 | the digest is the hash of the ordered lines path, colon, hash of path and content, run together |
| BundleHash.AtMostExactly | api/utils/hash.go:89-90 | the order is that of bytes: a beginning first, else the first difference decides |
| BundleHash.JoinedDecodes | api/utils/hash.go:92-98 | entries can be told apart although nothing separates them, if only their own ":" is followed by 64 hexadecimal digits |
| BundleHash.DigestIsFaithful | api/utils/hash.go:51-99 | if no path has a ":" followed by 64 hexadecimal digits and no strings hashed collide, the hashes are equal exactly if the directories are |
| BundleHash.ColonsBreakFaithfulness | api/utils/hash.go:80-98 | for every hash function, path and contents, two different directories with ":" in a path that hash the same text |
| BundleHash.TellsApartExactly | api/utils/hash.go:51-99 | equal hashes mean equal directories, for all hash functions without collision and all directories with paths over a set of characters, exactly if the set lacks ":" or has no hexadecimal digit |
| DriftCache.GetActualDockerConfigHashes | api/utils/hash.go:102-135 | the loop collects exactly the hashes the labels report; no stored hash is empty |
| DriftCache.ActualHashesExactly | api/utils/hash.go:117-135 | a service's hash is the one of the last container in the listing that carries the service's label and a hash |
| DriftCache.AnswersExactly | api/utils/hash.go:236-295 | which of the five answers a detection gives, from the stored row, the hash of the files and the labels in the listing |
| DriftCache.ContainerDriftExactly | api/utils/hash.go:268-295 | after a deployment, a check that finds the same files reports changed containers exactly if their labels say something else |
| DriftCache.HashMapsEqual | api/utils/hash.go:221-233 | on a map without empty hashes the loop decides equality of maps |
| DriftCache.AgreementIsEqualityExactly | api/utils/hash.go:221-233 | the comparison is equality exactly for maps that store no empty hash |
| DriftCache.StackDriftCache.DetectDriftViaHashes | api/utils/hash.go:236-295 | updates only its own row and answers "no drift" exactly if both stored hashes equal the current ones |
| DriftCache.StackDriftCache.OnSuccessfulDeployment | api/utils/hash.go:298-335 | stores both current hashes, or nothing if one can not be had |
| DriftCache.AlarmsAreBounded | api/utils/hash.go:236-295 | over any run and any starting cache, alarms are at most two plus two per outside change |
| DriftCache.QuietAlarmsExactly | api/utils/hash.go:236-295 | with nothing changing, exactly the pending alarms are raised, one per check, and no later one |
| DriftCache.NoDriftExactly | api/utils/hash.go:236-315 | after a deployment and any events, "no drift" is answered exactly while the stack is as the last deployment or check that looked at it recorded it |
| DriftCache.MeansAsDeployedExactly | api/utils/hash.go:236-315 | the answer means "as deployed", for every present state, exactly while the record is what was deployed |
| DriftCache.UnnoticedExactly | api/utils/hash.go:236-315 | without another deployment, no check came while the stack differed from the record exactly if no alarm was raised |
| DriftCache.CheckIsExactSinceDeployment | api/utils/hash.go:236-315 | until the first alarm after a deployment, "no drift" is answered exactly while files and container configurations are those deployed |
| DriftCache.CheckForgetsDeployment | api/utils/hash.go:244-266 | two checks of changed files: the first reports drift, the second none, though the files were never deployed |
| SseLineWriter.SSELineWriter.Write | api/utils/sse.go:32-56 | after any writes, the bytes sent frame the complete lines of all input and the buffer is what follows its last line feed |
| SseLineWriter.ChunkingIrrelevant | api/utils/sse.go:32-56 | however the input is cut into writes, the same bytes are sent |
| SseLineWriter.CopyOutput | api/utils/sse.go:32-56 | a run of writes sends what the chunk-by-chunk specification says |
| EventStream.LinesArriveExactly | api/utils/sse.go:48-54 | a standard event-stream parser gets back exactly the lines written if and only if none contains a carriage return |
| TwoStreams.CopyBoth | api/handlers/docker.go:176-195 | writes that alternate between two writers on one response send the frames of both in order |
| TwoStreams.StreamsDoNotMix | api/handlers/docker.go:176-195 | however the writes alternate, the lines sent for each stream are the complete lines of what was written to it |
| TwoStreams.BothStreamsArriveExactly | api/handlers/docker.go:176-195 | a standard event-stream parser gets for each type exactly that stream's complete lines, in order, if and only if none has a carriage return |
| ScanAll.ConcurrencyIsBounded | api/main.go:214-229 | under every schedule at most `conc` goroutines hold a slot, at most `conc` scans run, and the mutex is exclusive |
| ScanAll.PassEndsComplete | api/main.go:218-251 | when the wait returns, channel and mutex are free, each counter is the number of hosts whose scan ended that way, they add up to the hosts, and the total is that of the successful scans |
| ScanAll.SomeoneCanMove | api/main.go:220-249 | in every state of an unfinished pass with a slot some goroutine can move |
| ScanAll.EveryScheduleIsFinite | api/main.go:220-249 | no schedule makes more effective steps than the pass has left |
| ScanAll.NeverStuck | api/main.go:220-249 | however far a pass has got, it can still be completed |
| ScanAll.CompletesExactly | api/main.go:214-249 | a pass can complete exactly if there is a slot or no host |
| ReadmeGenerator.ReplaceKeepsMarkers | api/services/readme_generator.go:177-197 | after replacing, the start marker is found where it was and the end marker right behind the new content, or at the first one inside it |
| ReadmeGenerator.SecondPassExactly | api/services/readme_generator.go:177-197 | with both markers in order, the text around them is kept and a second pass changes nothing exactly if the new content lacks the end marker; else every pass grows the document |
| ReadmeGenerator.AppendedSectionIsOrdered | api/services/readme_generator.go:184-189 | a document without the section gets it appended with its markers in order |
| ReadmeGenerator.AppendedLines | api/services/readme_generator.go:184-189 | it is appended behind a blank line, marker, content and marker on lines of their own, and the document before stays |
| ReadmeGenerator.ThirdPassExactly | api/services/readme_generator.go:177-197 | for every document the third pass repeats the second exactly if the new content lacks the end marker or the markers are incomplete or out of order |
| ReadmeGenerator.NamedSectionsQualify | api/services/readme_generator.go:115-173 | the generator's own marker pairs satisfy the condition the other lemmas place on markers |
| ReadmeTokens.ReplaceRefines | api/services/readme_generator.go:177-197 | replacing a section in the text is replacing it in the list of pieces between markers, for every document |
| ReadmeReplaces.ReplacesCommute | api/services/readme_generator.go:177-197 | a section that is there can be updated before or after another one, if neither has the other's first marker between its own |
| ReadmeSections.ReplaceKeepsOther | api/services/readme_generator.go:177-197 | replacing or appending a section leaves what a disjoint one holds as it was |
| ReadmeSections.UpdateDelivers | api/services/readme_generator.go:42-51 | after the sections are updated one after the other, each one that was in order or absent holds its own new text, if they were disjoint, and they still are |
| ReadmeSections.SecondUpdateExactly | api/services/readme_generator.go:42-51 | with disjoint sections, a second update with the same texts changes nothing exactly if no section was absent |
| ReadmeSections.OneUpdateSettles | api/services/readme_generator.go:42-51 | with disjoint sections, after one update each further one leaves no trace of the one before it, whatever the texts |
| ReadmeSections.EveryReadmeSettles | api/services/readme_generator.go:42-51 | from every document, also with sections nested, interleaved, repeated or cut short, some number of updates with any texts leads to where each further one leaves no trace of the one before it |
| ReadmeSections.NamedSectionsFit | api/services/readme_generator.go:115-173 | sections whose names begin with different characters meet the condition the other lemmas place on markers |
| ReadmeSections.GeneratorSectionsFit | api/services/readme_generator.go:42-51 | the three sections an update goes through do |

## Left out

- ResolveVariables: requires that the loop of the source ends on the input; `EndsExactly` and `TemplatesEndExactly` say when it does, but for values that are neither free of one of "$", "{" and "}" nor renderings of templates that is not characterised.
- DigestIsFaithful: limited to paths in which no ":" is followed by 64 hexadecimal digits; by `TellsApartExactly` no weaker demand on the characters will do, but which single directories with such paths are still told apart is not characterised.
- GetGroups: entries that are not mappings are skipped; in the source a scalar there makes the typed decoding fail with an error. `ParentGroups` is never filled in the source and left out.
- GetHosts: variables of a host that are no mapping read as none; in the source a scalar there makes the typed decoding fail.
- AtomicPull: an unreadable head counts as a failed final reset, since resetting to an empty name fails.
- Edits of the data directory while a sync operation runs: the service's mutex does not exclude them; the model lets them happen between operations.
- A docker directory configured as the top of the data directory, which would mirror into the clone's own repository metadata.
- git itself: transport, ignore rules, backup branches, the rule by which files are merged; cloning and initialising the working directory; recording the last synced commit.
- rsync's comparison by size and time: a file counts as sent if its content differs. Empty directories and file modes.
- YAML and JSON text, and writing the inventory file and its backup: documents are values, an empty mapping differs from a missing one, and an unset document is written as an empty mapping.
- `UpdateHostMetadata` and `SetRawYAML`, which wait for their own lock as `UpdateGroupMetadata` does.
- SQL errors in the drift cache and read errors while walking a directory.
- Errors from the response writer of server-sent events, flushing, and the keep-alive writes, which write nothing.
- A negative scan concurrency, which makes the source panic when it creates the channel; host listing errors; time limits of single scans.
- The README's contents (deployment table, badges, timestamp) beyond their section markers; updates in which a database error skips a section.
- EveryReadmeSettles: limited, as are the other lemmas on several sections, to texts that contain no section's marker; `SecondPassExactly` and `ThirdPassExactly` treat texts with the section's own end marker.
- HTTP routing, authentication, deployment, docker access, log handling and the user interface.
