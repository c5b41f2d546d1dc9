# RustSync, verified in Dafny

RustSync keeps a directory in step across several devices. Each device scans its working tree into a
manifest, compares base, local and remote manifests, builds one combined manifest with line merges and
conflict copies, applies it to its tree, and publishes it by compare-and-set on one server head. This
project models that pipeline from the planner down to the wire formats and proves what it promises: no
edit is lost, devices converge, applying is atomic, access changes are safe, everything published can be
fetched again, and encodings are unambiguous.

`dafny verify dfyconfig.toml` checks the project.

## Layout

| files | part of the system |
|---|---|
| `Paths`, `Manifests` | relative paths and their order, manifests, content equality, the diff |
| `Reconciliation`, `TextMerge` | the three-way planner and the line merge |
| `ConflictNames`, `Combination`, `CombineLoop`, `CombineMethod` | the combine loop: copy names, conflicts, the loop's invariant |
| `CombinationTheorems`, `CombinationExistence`, `RecordedCopies`, `CombinationApplies` | what a combination guarantees, also towards copies recorded earlier, and that it can be applied |
| `Runs`, `Protocol`, `ProtocolSafety`, `LostRaces`, `Convergence`, `Progress` | many devices and one head as a state machine: safety, attempts in sequence, convergence, completion |
| `Histories`, `FailingHistories` | explicit executions of it, and two in which a device ends up worse off |
| `FileTree`, `Scanning`, `ApplyTree`, `LocalEngine`, `ApplyTheorems` | the working tree, scanning it, applying a manifest, staging |
| `ConflictResolution`, `ResolutionTheorems` | `resolve`, and a conflict together with its resolution |
| `AccessEvents`, `Access`, `AccessInvariant`, `AccessRuns`, `AccessDecisions`, `AccessMachine` | the access state machine: events, invariant, runs, which events are accepted |
| `Transfer`, `TransferClient` | chunked upload and download |
| `ObjectStore`, `HeadRegister` | the indexed object store and the two head backends |
| `Rsob`, `Signing` | the RSOB frame and the signing payloads |

## Conventions

- A manifest is compared by content: absent, directory, or file of some size and hash. A manifest is
  closed if it lists every directory above its entries; scanning produces closed manifests.
- Loops and objects that change state are methods and classes; each is proved against a specification
  function or relation, and the theorems are lemmas about that specification.
- SHA-256, UTF-8 validation, the authenticated cipher (section 2.8 of RFC 8439 for the 16-byte tag),
  device-record checks, ignore rules, JSON and nonces are function parameters. The hash is assumed
  collision-free (invertible on its range) only where a property needs it.
- A combination exists for all closed inputs with valid paths: `CombineMethod.Combine` computes it,
  `CombinationExistence.CombinationExists` proves it for the theorems, and
  `CombinationTheorems.CombinationIsDetermined` shows that it is the only one.
- In the protocol model an absent saved base is the empty manifest at revision 0, the single retry is a
  new attempt, and heads carry their provenance so that statements about lost versions can name it.
- Where the code falls short of what it is for, the model keeps the code and gives the input and the
  exact condition. There are five such places.
  - New conflict copies do not always keep clear of a copy recorded earlier, of which only the root path
    is reserved. After a directory above it has vanished everywhere, a later conflict can take that
    directory's name for its copy, which then lies above the recorded one. And when a file inside a
    recorded copy conflicts itself, its copy lies inside the recorded one, and resolving the first
    conflict loses the second. `RecordedCopies.ShadowingHappens` and `RecordedCopies.NestingHappens`
    give histories that do this, `ResolutionTheorems.NestedFilesAreLost` the loss, and
    `RecordedCopies.RecordedCopyStaysClear` the condition.
  - A crash between applying and saving the base leaves the applied head to be taken for a local edit,
    so a device that nobody edited can publish or raise a conflict. `FailingHistories.InterruptedDevicePublishes`
    is an execution, `Convergence.InterruptionPublishesExactly` the condition on three heads.
  - After a merge and a lost race the base just saved is not in the blob cache, and the retry, like every
    later attempt, fails on loading it. `FailingHistories.MergeThenLostRaceBlocks` is an execution,
    `Progress.RemoteIsCachedExactly` and `Progress.StagesExactlyIfBaseAtHand` are the conditions.
  - A head that drops a pattern from the ignore file reveals the private files the pattern kept out; the
    next synchronization deletes them: `ApplyTheorems.IgnoredFileIsLost`. The documentation promises that
    ignored files survive.
  - An empty directory is not listed on a device that holds an ignored file in it, so that device downloads
    it at every synchronization, or publishes its removal: `ApplyTheorems.EmptyDirectoryIsForgotten`. For
    this and the one before, `ApplyTheorems.RescanYieldsManifest` is the condition.

## Model

| member | source | states |
|---|---|---|
| Manifests.EntriesEqual | crates/rustsync-core/src/reconciliation.rs:192-201 | The planner's comparison is exactly equality of content (absent, directory, or size and hash), hence an equivalence that ignores timestamps and remote references |
| Manifests.EqualUpToReferences | crates/rustsync-core/src/reconciliation.rs:192-201 | Two entries compare equal exactly if they are the same apart from the timestamp and the remote references |
| Manifests.DiffManifests | crates/rustsync-core/src/manifest/diff.rs:25-49 | The change list holds exactly the paths of one manifest only, as added or deleted, and the paths of both with different content, as modified; it is empty if and only if the planner's comparison sees two equal manifests |
| Paths.ValidExactly | crates/rustsync-protocol/src/manifest.rs:76-102 | The paths an insertion accepts are exactly the non-empty lists of names joined by separators, where a name is not empty, `.` or `..` and contains no separator or backslash |
| Paths.LessAtFirstDifference | crates/rustsync-core/src/reconciliation.rs:122-130 | The order of the path-keyed trees: the first differing character decides, and a proper prefix comes first |
| Reconciliation.PlanReconciliation | crates/rustsync-core/src/reconciliation.rs:110-160 | The loop returns a plan in ascending order that holds exactly the listed paths below no clash, a clash being a directory on one side only with changes at or below it on both; Unchanged means equal content, Download and Upload that the local or the remote side is as in the base, in its whole subtree where a directory meets a file, Merge that two files differ from each other and from the base, Conflict the rest; it fails exactly on differing workspace ids |
| Reconciliation.SkipsExactlyCovered | crates/rustsync-core/src/reconciliation.rs:122-146 | Skipping below the clash roots met so far skips exactly the paths below any clash, because a directory sorts before its contents |
| Reconciliation.SubtreeContent | crates/rustsync-core/src/reconciliation.rs:162-169 | Two subtrees compare equal exactly when they hold equal content at every path, listed or not |
| Reconciliation.PlanCoversEachPathOnce | crates/rustsync-core/src/reconciliation.rs:122-160 | Every path of base, local or remote is either planned exactly once or strictly below exactly one clash root, never both |
| Reconciliation.RootIsUnique | crates/rustsync-core/src/reconciliation.rs:122-146 | Clash roots never nest: a path lies below at most one |
| Reconciliation.SwappingSidesMirrorsThePlan | crates/rustsync-core/src/reconciliation.rs:110-201 | Exchanging local and remote exchanges uploads with downloads and fixes every other action of the whole plan |
| Reconciliation.ActionIsDecided | crates/rustsync-core/src/reconciliation.rs:122-190 | The action is a function of the three contents and of the two subtree comparisons alone |
| Reconciliation.PlanDependsOnContentOnly | crates/rustsync-core/src/reconciliation.rs:110-201 | Manifests of equal content have the same plan, so timestamps and remote references never influence it |
| Reconciliation.FastForward | crates/rustsync-core/src/reconciliation.rs:171-190 | With local equal to base every path is Unchanged or Download and nothing clashes |
| Reconciliation.LocalAhead | crates/rustsync-core/src/reconciliation.rs:171-190 | With remote equal to base every path is Unchanged or Upload and nothing clashes |
| Reconciliation.EqualSides | crates/rustsync-core/src/reconciliation.rs:171-190 | With equal sides every path is Unchanged, whatever the base; so replanning against the combination itself finds nothing to do |
| TextMerge.MergeTextThreeWay | crates/rustsync-core/src/reconciliation.rs:206-230 | Defined exactly if base, local and remote are all text, have equally many lines and at no line all three differ; then splitting the result gives, line by line, the local change, else the remote change, else the base line |
| TextMerge.MergeKeepsBothSides | crates/rustsync-core/src/reconciliation.rs:216-230 | Splitting the result again gives, line by line, the local change, else the remote change, else the base line |
| TextMerge.MergeIsSymmetric | crates/rustsync-core/src/reconciliation.rs:206-230 | Exchanging local and remote changes neither the result nor whether there is one |
| TextMerge.RemergeIsStable | crates/rustsync-core/src/reconciliation.rs:206-230 | Merging the result once more with either side returns the result |
| TextMerge.MergeIsText | crates/rustsync-core/src/reconciliation.rs:206-230 | The merge of three texts is a text again, when validity is decided line by line |
| TextMerge.SplitThenConcat | crates/rustsync-core/src/reconciliation.rs:210-215 | Splitting after newlines loses nothing; every line is non-empty, ends in its only newline, byte 10, and only the last line may lack it |
| TextMerge.ConcatThenSplit | crates/rustsync-core/src/reconciliation.rs:210-230 | Joining lines of that shape and splitting again returns the lines |
| ConflictNames.FreshCopyPath | crates/rustsync-cli/src/sync_workflow.rs:663-669 | The search returns the path with the marker and the revision, or that name with the first free number from 1 on, after at most as many attempts as there are reserved paths; all earlier names were reserved |
| ConflictNames.CandidatesAreDistinct | crates/rustsync-cli/src/sync_workflow.rs:663-669 | Candidates never repeat, which is why the search over a finite set ends |
| ConflictNames.CandidatesOfDifferentPaths | crates/rustsync-cli/src/sync_workflow.rs:663-669 | Candidates of different paths at one revision differ |
| ConflictNames.FirstFreeIsUnique | crates/rustsync-cli/src/sync_workflow.rs:663-669 | The name is determined by path, revision and reserved paths |
| ConflictNames.CandidateKeepsValid | crates/rustsync-cli/src/sync_workflow.rs:670-676 | Renaming a subtree to a candidate keeps every path in it valid |
| Combination.AddConflict | crates/rustsync-cli/src/sync_workflow.rs:646-685 | One conflict: the local subtree stays, the remote subtree is inserted under the first free copy root, its targets become reserved, and a record is kept; refused exactly on an invalid path |
| Combination.KeepLocal | crates/rustsync-cli/src/sync_workflow.rs:657-662 | Exactly the local entries at and below the path are inserted, and it fails exactly if one of them is invalid |
| Combination.CopyRemote | crates/rustsync-cli/src/sync_workflow.rs:670-676 | Exactly the remote entries at and below the path appear at the corresponding places below the copy root, and exactly those places are reserved |
| CombineMethod.Combine | crates/rustsync-cli/src/sync_workflow.rs:312-418 | The loop over the plan yields a combination: paths without conflict hold what the plan chose, conflicts keep the local subtree in place and the remote subtree in its copy, and there is nothing else; path by path it follows the plan; it never fails on valid paths |
| CombineMethod.CombinationFollows | crates/rustsync-cli/src/sync_workflow.rs:312-418 | A planned path takes the local entry on Unchanged and Upload and the remote one on Download; on Merge, exactly if base, local and remote texts are at hand and mergeable, it gets their line merge with the local timestamp and no references, and otherwise, as on Conflict, it gets a copy name |
| CombineMethod.ConflictStep | crates/rustsync-cli/src/sync_workflow.rs:330-416 | The branch for a conflict keeps the loop's state: no insertion overwrites another |
| CombineMethod.EntryStep | crates/rustsync-cli/src/sync_workflow.rs:320-392 | The branches that insert one entry or none keep the loop's state |
| CombineMethod.ReservedFromTheStart | crates/rustsync-cli/src/sync_workflow.rs:290-302 | A candidate that is reserved during the loop was reserved before it, so copies of other conflicts never take a name |
| CombinationTheorems.LocalEditSurvives | crates/rustsync-cli/src/sync_workflow.rs:312-418 | No local edit is lost: wherever the local side differs from the base, by a file, a directory or a deletion, the combination has the local side or a merge |
| CombinationTheorems.RemoteVersionSurvives | crates/rustsync-cli/src/sync_workflow.rs:312-418 | No remote version is lost: whatever the remote side has at a listed path, a deletion included, is in place, merged, or under a conflict copy, unless the base already held it and the local side had replaced it |
| CombinationTheorems.NothingInvented | crates/rustsync-cli/src/sync_workflow.rs:312-418 | Every entry of the combination is a local or remote version in place, a copied remote entry, or a merge |
| CombinationTheorems.CopiesCollideWithNothing | crates/rustsync-cli/src/sync_workflow.rs:663-676 | A copy root and its whole subtree lie outside base, local, remote, all conflicts and all other copies |
| RecordedCopies.RecordedCopyStaysClear | crates/rustsync-cli/src/sync_workflow.rs:290-302 | Of a copy recorded earlier and the new ones none lies at, above or below another exactly when no path in conflict lies below the recorded copy and no directory above it has left all manifests and is the next unreserved candidate of a path in conflict |
| RecordedCopies.ClearWhileParentsExist | crates/rustsync-cli/src/sync_workflow.rs:290-302 | In particular none does when the recorded copy has left all manifests while the directories above it have not |
| RecordedCopies.ShadowingHappens | crates/rustsync-cli/src/sync_workflow.rs:663-669 | The first way it fails, on two synchronizations, at revisions 2 and 5, that read heads of one explicit history: a copy published inside a directory that later vanished ends up below the copy of another conflict, which takes the name of that directory |
| RecordedCopies.NestingHappens | crates/rustsync-cli/src/sync_workflow.rs:297-302 | The second way, at revisions 1 and 3 of one explicit history: a file inside a published copy conflicts itself, and its copy is placed inside the recorded one |
| CombinationTheorems.CombinationIsDetermined | crates/rustsync-cli/src/sync_workflow.rs:312-418 | Inputs and recorded copies determine the combined manifest and all copy names |
| CombinationExistence.CombinationExists | crates/rustsync-cli/src/sync_workflow.rs:312-418 | Every three closed manifests have a combination, so that no step of the protocol is impossible for want of one |
| CombinationTheorems.CombinationIsClosed | crates/rustsync-cli/src/sync_workflow.rs:312-418 | Combining manifests that list their directories gives one that does: every parent is a directory and no file has children |
| CombinationTheorems.CombinationIsValid | crates/rustsync-cli/src/sync_workflow.rs:312-418 | Combining manifests with valid paths gives valid paths, conflict copies included |
| CombinationTheorems.FastForwardTakesRemote | crates/rustsync-core/src/reconciliation.rs:171-190 | Without local changes the combination is the remote manifest and has no conflict copy |
| CombinationTheorems.OnlyUploadsGiveLocal | crates/rustsync-cli/src/sync_workflow.rs:320-324 | When every action is Unchanged or Upload the combination is the local manifest |
| CombinationTheorems.ResumingIsStable | crates/rustsync-cli/src/sync_workflow.rs:437-452 | Once the combination is applied and the base moved to the remote, replanning against the same head only uploads and combines to the same manifest with no new copy |
| CombinationTheorems.LocalIsCombination | crates/rustsync-cli/src/sync_workflow.rs:320-324 | When the remote side is the base, the local manifest is a combination without copies |
| CombinationApplies.PlannedContentsAreAtHand | crates/rustsync-cli/src/sync_workflow.rs:423-436 | The contents of every file of the combination are among the merged, local, remote and base blobs, so no planned blob is ever missing |
| CombinationApplies.EntryOrigin | crates/rustsync-cli/src/sync_workflow.rs:312-418 | Every entry of the combination is literally a local or a remote entry, or a new entry for a merged text |
| CombinationApplies.CombinationIsSafe | crates/rustsync-core/src/workspace/local_engine.rs:468-511 | The combination passes the path checks of the local engine, conflict copies included |
| CombinationApplies.CombinationIsAdmitted | crates/rustsync-core/src/workspace/local_engine.rs:215-292 | The application of a combination is refused exactly when it would touch an ignored path |
| CombinationApplies.ApplyAndRestage | crates/rustsync-cli/src/sync_workflow.rs:423-447 | Applying a combination is refused exactly for the sake of ignored paths or of an unreadable ignore file, and then changes nothing; staging again fails exactly if the new ignore file is unreadable; otherwise the restaged manifest is the combination exactly if none of its directories is left with ignored contents only and the new rules reveal nothing, and then its files are cached and no others |
| CombinationApplies.CombineAndApply | crates/rustsync-cli/src/sync_workflow.rs:312-447 | Combining, applying and restaging together are the protocol's step of saving the records and, unless refused, exactly under those conditions its step of applying the combination |
| ProtocolSafety.InvariantHolds | crates/rustsync-cli/src/sync_workflow.rs:233-493 | Over every interleaving of edits, syncs, races, lost replies, crashes, pulls and resolutions by any number of devices the protocol invariant holds |
| ProtocolSafety.NextKeepsInv | crates/rustsync-cli/src/sync_workflow.rs:233-493 | Every single step of every device keeps the invariant |
| ProtocolSafety.SavedBaseIsAHead | crates/rustsync-cli/src/sync_workflow.rs:447-491 | In every reachable state a device's saved base has the content of the head at its saved revision, and unless an attempt stopped between applying and publishing, every file of it is in the blob cache |
| ProtocolSafety.HistoryOnlyGrows | crates/rustsync-cli/src/sync_workflow.rs:459-463 | Heads are only ever appended |
| ProtocolSafety.NoVersionIsDroppedUnseen | crates/rustsync-cli/src/sync_workflow.rs:243-492 | An entry of head n is in head n+1 at its path, or merged, or under a conflict copy, or the publisher's base already held it there and the publisher replaced it |
| LostRaces.AttemptsDropNothing | crates/rustsync-cli/src/sync_workflow.rs:423-472 | However many attempts of the publisher were lost or interrupted before, with no edit in between, every version of the head before is in the new head, or one attempt merged or copied it and that is not forgotten, or the publisher had replaced it before them all; an interruption between applying and saving adds the one case that it was taken for an older version |
| LostRaces.NothingIsForgotten | crates/rustsync-cli/src/sync_workflow.rs:448-472 | What one attempt left at a path is, after all the following ones, in the last combination, merged on the way, or was found published |
| LostRaces.NextAttemptFollows | crates/rustsync-cli/src/sync_workflow.rs:437-472 | The attempt after one that was lost or interrupted finds the applied tree, with the saved base or still the old one |
| ProtocolSafety.DisappearanceHasACause | crates/rustsync-cli/src/sync_workflow.rs:243-492 | When a version has left its path between any two heads, one publication in between removed it and accounts for it |
| ProtocolSafety.PublishedEditsAreKept | crates/rustsync-cli/src/sync_workflow.rs:243-492 | Whatever the publisher changed since its base, by files, directories or deletions, is in the head it published, in place or merged |
| ProtocolSafety.PublishKeeps | crates/rustsync-cli/src/sync_workflow.rs:453-463 | A successful compare-and-set, with or without its reply, keeps the invariant of the history and of all devices |
| ProtocolSafety.RecordConflictsKeeps | crates/rustsync-cli/src/sync_workflow.rs:420-422 | Saving the conflict records before anything is applied keeps the device's part of the invariant, also when the attempt ends there |
| ProtocolSafety.ApplyKeeps | crates/rustsync-cli/src/sync_workflow.rs:423-447 | Applying and restaging keeps the device's part of the invariant, and the applied tree has valid paths because the combination has |
| Convergence.TwoRoundsConverge | crates/rustsync-cli/src/sync_workflow.rs:233-493 | Without edits, once every device has completed one sync in any order nothing more is published, and once each has completed another every working tree is the head; crashes come at any point, after the first round between applying and saving only where the device is left with nothing to say against the head |
| Convergence.PassiveExactly | crates/rustsync-cli/src/sync_workflow.rs:438-452 | An attempt publishes nothing exactly if at every path the local side agrees with the remote side or is as in the base, in its whole subtree where a directory meets a file |
| Convergence.InterruptionPublishesExactly | crates/rustsync-cli/src/sync_workflow.rs:423-452 | After a crash between applying and saving, a device that had nothing to publish publishes in its next attempt exactly if the head it had applied says something against the last head, with its saved base as base |
| FailingHistories.InterruptedDevicePublishes | crates/rustsync-cli/src/sync_workflow.rs:423-452 | An execution in which it does: a device that is never edited synchronizes, applies the next head, crashes before saving, and then publishes the applied version against a third one |
| Progress.AttemptCompletes | crates/rustsync-cli/src/sync_workflow.rs:243-492 | From every state in which a device is at rest, and its files and those of its base and of the head are at hand, an undisturbed attempt completes: tree and base are then the last head, and a head was added exactly if the device had something to say |
| Progress.StagesExactlyIfBaseAtHand | crates/rustsync-cli/src/sync_workflow.rs:282-312 | With changes planned an attempt gets past loading its base exactly if every file of the base is cached or in the tree |
| Progress.RemoteIsCachedExactly | crates/rustsync-cli/src/sync_workflow.rs:423-450 | After applying, the manifest about to be saved as base has all its files cached exactly if the remote versions of the merged paths are cached |
| Progress.StuckStaysStuck | crates/rustsync-cli/src/sync_workflow.rs:282-312 | A device without a file of its base stays so through all its own steps, until its tree is by chance the head |
| Progress.EditsHappenAnytime | crates/rustsync-cli/src/sync_workflow.rs:233-493 | Whatever a device is doing, its files can become any others with valid paths |
| Progress.CrashesHappenAnytime | crates/rustsync-cli/src/sync_workflow.rs:233-493 | Whatever a device is doing, it can crash |
| Progress.RepliesGetLost | crates/rustsync-cli/src/sync_workflow.rs:453-463 | Every compare-and-set that succeeds can lose its reply |
| Progress.ResolutionsHappen | crates/rustsync-cli/src/commands/sync.rs:163-224 | At rest every recorded conflict can be resolved, with any outcome for the files |
| FailingHistories.MergeThenLostRaceBlocks | crates/rustsync-cli/src/sync_workflow.rs:423-472 | An execution in which that happens: a merge is applied, the race for publication is lost, and the retry and every later attempt cannot load the base |
| Convergence.FinishedWorldsPublishNothing | crates/rustsync-cli/src/sync_workflow.rs:438-452 | When every device has completed a sync, no further step of any device publishes |
| Convergence.FinishedDevicesStaySettled | crates/rustsync-cli/src/sync_workflow.rs:439-491 | A device that completed a sync has nothing left to publish, until an attempt of it is interrupted between applying and saving |
| Convergence.StaysAtHead | crates/rustsync-cli/src/sync_workflow.rs:233-493 | A tree that has reached the last head stays there |
| ApplyTree.ValidateManifestPaths | crates/rustsync-core/src/workspace/local_engine.rs:468-511 | Accepts exactly the manifests whose paths are valid, free of NUL and neither the private directory nor below it, and in which no file lies above another entry |
| ApplyTree.EmptyExactlyIfUnneeded | crates/rustsync-core/src/workspace/local_engine.rs:390-418 | When the deepest remaining path is visited, a directory is empty exactly if nothing below it has to stay |
| ApplyTree.RemovalClears | crates/rustsync-core/src/workspace/local_engine.rs:390-418 | A completed removal leaves no file above a new entry and nothing below a file entry |
| ApplyTree.TurnIsClear | crates/rustsync-core/src/workspace/local_engine.rs:299-320 | At its turn in path order an entry finds no file above it, and a file entry finds nothing below it |
| FileTree.CreateDirAll | crates/rustsync-core/src/workspace/local_engine.rs:547-559 | Fails exactly if the path or something above it is a file; otherwise the path and everything above it become directories and nothing else changes |
| FileTree.HiddenIsProtected | crates/rustsync-core/src/workspace/local_engine.rs:513-545 | What the walk does not list lies at or below a protected path |
| LocalEngine.FindUnchanged | crates/rustsync-core/src/workspace/local_engine.rs:251-260 | Finds exactly the files in place that already have the recorded size and hash, and verified contents for exactly their hashes |
| LocalEngine.FetchMissing | crates/rustsync-core/src/workspace/local_engine.rs:261-277 | Succeeds exactly if every file entry is provided by an unchanged file or by the source with the right hash; a failed fetch and a wrong hash are reported only for a file no unchanged file provides |
| LocalEngine.Preflight | crates/rustsync-core/src/workspace/local_engine.rs:224-292 | The checks before anything is touched, in order, each error exactly when its condition holds, an unreadable ignore file included, a failed fetch, a wrong hash and a wrong size only when there is one; they pass exactly on admitted manifests whose sizes fit, for a collision-free hash |
| LocalEngine.Workspace.RemoveEntriesMissingFromRemote | crates/rustsync-core/src/workspace/local_engine.rs:390-418 | The deepest-first removal leaves exactly the manifest's entries, the hidden paths and the directories above them, as they were |
| LocalEngine.Workspace.PrepareDirectory | crates/rustsync-core/src/workspace/local_engine.rs:547-559 | Fails exactly below a file, replaces a file at the path, and changes nothing else |
| LocalEngine.Workspace.ReplaceFile | crates/rustsync-core/src/workspace/local_engine.rs:561-594 | Fails exactly below a file; otherwise puts the bytes at the path in place of whatever was there |
| LocalEngine.Workspace.WriteEntries | crates/rustsync-core/src/workspace/local_engine.rs:299-320 | The rewrite in path order cannot fail after a removal, writes exactly the entries and caches their contents |
| LocalEngine.Workspace.Replace | crates/rustsync-core/src/workspace/local_engine.rs:294-320 | From the first removal on nothing fails, and the resulting tree is exactly the entries, the directories above them and what had to stay |
| LocalEngine.Workspace.ApplyPulledManifest | crates/rustsync-core/src/workspace/local_engine.rs:215-324 | Any refusal leaves tree, cache and staged manifest unchanged, and each comes exactly on its condition: unsafe paths, an ignore file that is a directory or does not parse, entries that meet a path the parsed rules hide; without an ignore file nothing is hidden. No I/O conflict follows a passed preflight. On success every entry is in place with the recorded kind, size and hash, unchanged files keep their bytes, hidden paths are as before, and nothing else is left but what lies above an entry or a hidden path |
| LocalEngine.ClashByRules | crates/rustsync-core/src/workspace/local_engine.rs:234-249 | The comparison with the protected paths finds exactly the entries that would overwrite a path hidden by a rule, enter it, or put a file where a directory holds it; tracked paths and the directories above them are never hidden |
| LocalEngine.KeptByRules | crates/rustsync-core/src/workspace/local_engine.rs:237-320 | Paths hidden by a rule and all below them are untouched, and whatever else is left is an entry or lies above an entry or a hidden path |
| LocalEngine.Workspace.CacheManifestBlobs | crates/rustsync-core/src/workspace/local_engine.rs:370-388 | Exactly the blobs of the scanned files are added, intact ones are kept |
| Scanning.BuildManifest | crates/rustsync-core/src/manifest/builder.rs:14-96 | Lists exactly the visible paths that have a visible file or an empty directory at or below them, each with its content |
| Scanning.ListedByRules | crates/rustsync-core/src/workspace/ignore.rs:20-54 | A scan lists exactly the paths with a file or an empty directory at or below them that no rule hides, itself or from above |
| Scanning.ListedExactlyIfKept | crates/rustsync-core/src/manifest/builder.rs:69-94 | Visited deepest first, a directory has an entry left below it or is empty exactly if it is to be listed |
| Scanning.ScanIsClosed | crates/rustsync-core/src/manifest/builder.rs:14-96 | A scan lists every directory above what it lists |
| Scanning.RescanIsStable | crates/rustsync-core/src/workspace/ignore.rs:36-54 | Once a scan is staged its paths are tracked, and scanning the same tree again lists the same |
| LocalEngine.Workspace.StageAll | crates/rustsync-core/src/workspace/local_engine.rs:133-150 | Without an ignore file staging succeeds and lists every path; with a directory in its place or a file that does not parse it fails and changes nothing; otherwise the parsed rules decide what is listed. Every entry records what the tree holds. The staged manifest is what a scan lists, also under the rules that hold once it is staged; it lists its directories, has valid paths, and all its files are cached intact |
| ApplyTree.EntryAboveAnchored | crates/rustsync-core/src/workspace/local_engine.rs:237-249 | An entry above something that had to stay is a directory |
| LocalEngine.IgnoredPathsSurvive | crates/rustsync-core/src/workspace/local_engine.rs:227-249 | Ignored paths and everything below them are untouched by a successful application |
| ApplyTheorems.OnlyEntriesRemain | crates/rustsync-core/src/workspace/local_engine.rs:294-320 | With nothing ignored, only the entries and the directories above them are left |
| ApplyTheorems.RescanYieldsManifest | crates/rustsync-core/src/manifest/builder.rs:14-96 | Scanning an applied manifest, under rules the manifest itself may have brought, gives it back exactly when it lists its directories, no directory without entries lies above an ignored path, and nothing ignored before is visible now |
| ApplyTheorems.SameRulesRevealNothing | crates/rustsync-core/src/workspace/ignore.rs:46-53 | With unchanged rules the last condition always holds |
| ApplyTheorems.IgnoredFileIsLost | crates/rustsync-core/src/workspace/ignore.rs:20-53 | Where it does not: a head drops a pattern from the ignore file; the private file it kept out is then listed, the next plan removes it, and applying that deletes it |
| ApplyTheorems.LastEntryIsLeaf | crates/rustsync-core/src/manifest/builder.rs:69-94 | An entry without entries below it is a file or empty directory of the tree exactly if it is a file or no ignored path lies below it |
| ApplyTheorems.EmptyDirectoryIsForgotten | crates/rustsync-core/src/manifest/builder.rs:69-94 | Where the second condition fails: an empty directory that holds an ignored file on this device is not listed after it was applied. With the scan as base, as after a completed synchronization, every later plan downloads it again; with the manifest as base the plan publishes its removal |
| ApplyTheorems.ReapplyingChangesNothing | crates/rustsync-core/src/workspace/local_engine.rs:215-324 | Applying the same manifest a second time leaves the tree as it is |
| ConflictResolution.Repository.Resolve | crates/rustsync-cli/src/commands/sync.rs:163-224 | Each error exactly on its condition, for an I/O error that is a file above the side to be removed, or a missing copy or parent when the copy is moved; on success the tree is the settled one and exactly this record is gone; every other result keeps the records, and all but an I/O error keep the tree |
| ConflictResolution.RemoveConflictPath | crates/rustsync-cli/src/commands/sync.rs:333-340 | Fails exactly below a file; otherwise the whole subtree is gone and nothing else |
| ConflictResolution.Rename | crates/rustsync-cli/src/commands/sync.rs:211-213 | Moves the whole subtree and nothing else, exactly if the source exists and the target has a parent |
| ConflictResolution.SettlingKeepsRooted | crates/rustsync-cli/src/commands/sync.rs:197-220 | Settling a conflict leaves a proper tree |
| ResolutionTheorems.RecordIsAccepted | crates/rustsync-cli/src/commands/sync.rs:180-213 | A record made by a synchronization is never rejected, and settling an intact conflict meets no file-system error |
| ResolutionTheorems.ExactlyOneSideRemains | crates/rustsync-cli/src/commands/sync.rs:197-220 | Keeping the remote side leaves exactly the remote subtree at the path (nothing if it was deleted), keeping the local side exactly the local one; the copy is gone and nothing else changes |
| ResolutionTheorems.OthersStayIntact | crates/rustsync-cli/src/commands/sync.rs:197-220 | Resolving a recorded conflict leaves intact every conflict, of the same or any other run, whose path and copy share no subtree with its own |
| ResolutionTheorems.OneRunIsApart | crates/rustsync-cli/src/sync_workflow.rs:646-685 | Conflicts of one synchronization never share a subtree, so they can be resolved in any order |
| ResolutionTheorems.KeepingLocalSpares | crates/rustsync-cli/src/commands/sync.rs:214-218 | Keeping the local side, which removes the recorded copy, spares both places of another conflict exactly when the copy's subtree meets neither |
| ResolutionTheorems.KeepingRemoteSpares | crates/rustsync-cli/src/commands/sync.rs:207-213 | Keeping the remote side spares them exactly when the copy meets neither and holds the same wherever one of them meets the path; if the remote side was deleted, exactly when the path meets neither |
| ResolutionTheorems.NestedConflictIsBroken | crates/rustsync-cli/src/commands/sync.rs:204-218 | A conflict below a recorded copy is never intact after the recorded one is resolved, whichever side is kept, and one below the recorded path never after a remote side that is no directory was kept |
| ResolutionTheorems.NestedFilesAreLost | crates/rustsync-cli/src/commands/sync.rs:204-218 | On the nested synchronizations both files of the second conflict are gone from their places once the first is resolved, whichever side is kept |
| ResolutionTheorems.IntactAfterApply | crates/rustsync-cli/src/sync_workflow.rs:423-447 | Once the restaged manifest is the combination, a conflict is intact exactly if nothing ignored lies at or below its two sides |
| AccessMachine.AccessState.ApplyVerifiedEvent | crates/rustsync-protocol/src/access/state.rs:233-399 | A refused event changes nothing; an accepted one has its effect. On reachable states the closing validation never fails, so the call is atomic, and the answer is acceptance exactly under the event's own conditions, and otherwise the reason |
| AccessMachine.AccessState.Guard | crates/rustsync-protocol/src/access/state.rs:233-256 | The checks before the event is looked at: the event is well formed, of this workspace and revision, and, the creation apart, sent by an active owner; a refusal names the first check that fails |
| AccessMachine.AccessState.Validate | crates/rustsync-protocol/src/access/state.rs:409-532 | The loops accept exactly a state with an active owner in which every record, membership and grant is stored under its own key, is proper, and carries past revisions, a record being active exactly with its membership |
| AccessMachine.AccessState.Mutate | crates/rustsync-protocol/src/access/state.rs:257-394 | The part that depends on the kind of event: refused exactly by its own guards, otherwise every record is left as the event says |
| AccessDecisions.RefusalAnswers | crates/rustsync-protocol/src/access/state.rs:233-394 | On a reachable state an event is refused for being malformed, for another workspace or revision, for a sender that is no active member or no owner, and otherwise by its kind: a device that was ever a member cannot join, an inactive one cannot be changed, removed or granted a key, the last active owner cannot be removed or demoted, and only a device without an active grant can be granted a key version, only one with it can lose it |
| AccessDecisions.EffectHappens | crates/rustsync-protocol/src/access/state.rs:257-399 | What an accepted event leaves, in full: the new membership and record, the changed role, the removal with all grants of the device ended, the new grant, or the ended one; nothing else changes |
| AccessDecisions.OkIsConsistent | crates/rustsync-protocol/src/access/state.rs:409-532 | The closing check demands exactly these conditions, spelled out on the records |
| AccessDecisions.AcceptedExactly | crates/rustsync-protocol/src/access/state.rs:233-399 | Over any run, a well-formed event of this workspace and revision signed by an active owner is accepted exactly if the log of applied events allows it: the device never joined; or it is an active member without the key version, also after a revocation; or it holds it; or it is active and another active owner remains |
| AccessMachine.AccessState.RevokeAllForDevice | crates/rustsync-protocol/src/access/state.rs:587-608 | The loop ends every active grant of the device and no other, and reports exactly the affected key versions |
| AccessInvariant.EffectKeepsInv | crates/rustsync-protocol/src/access/state.rs:257-399 | Every accepted event keeps the strong invariant: joins before removals, grants before revocations, active grants only for active members, a tree of joins, an active owner |
| AccessInvariant.InvImpliesOk | crates/rustsync-protocol/src/access/state.rs:409-532 | The invariant implies every condition the state's own validation makes |
| AccessInvariant.EffectIsOk | crates/rustsync-protocol/src/access/state.rs:397-399 | On reachable states the validation after an accepted event succeeds |
| AccessInvariant.CheckAdmitsMore | crates/rustsync-protocol/src/access/state.rs:410-421 | The validation alone admits a state no run reaches: key grants at revision 0 |
| AccessInvariant.AnotherOwner | crates/rustsync-protocol/src/access/state.rs:322-345 | When the last-owner guard passes, another active owner is left |
| AccessInvariant.LastOwner | crates/rustsync-protocol/src/access/state.rs:160-164 | The count of active owners is one exactly if no device beside this one is an active owner |
| AccessInvariant.RemovalKeepsInv | crates/rustsync-protocol/src/access/state.rs:338-364 | A removal ends all grants of the device at the same revision and leaves an active owner |
| AccessInvariant.GrantKeepsInv | crates/rustsync-protocol/src/access/state.rs:365-379 | A new grant, also one that replaces a revoked grant, keeps the invariant |
| AccessRuns.RunsKeepInv | crates/rustsync-protocol/src/access/state.rs:59-399 | Every run from the empty state satisfies the invariant |
| AccessRuns.RevisionCountsEvents | crates/rustsync-protocol/src/access/state.rs:251-255 | The revision is the number of applied events and never exceeds 64 bits |
| AccessRuns.EachRevisionIsUsedOnce | crates/rustsync-protocol/src/access/state.rs:244-250 | Of two applied events the later one expected a higher revision: no event is applied twice, and of those signed for one revision at most one |
| AccessRuns.GrantsFollowTheLog | crates/rustsync-protocol/src/access/state.rs:338-394 | Over any run a device holds an active grant of a key version exactly if some applied event granted it and no later applied event revoked it or removed the device |
| AccessRuns.RolesFollowTheLog | crates/rustsync-protocol/src/access/state.rs:257-364 | Over any run a device is an active member with a role exactly if some applied event gave it that role and no later applied event changed or ended its membership |
| AccessDecisions.MembersFollowTheLog | crates/rustsync-protocol/src/access/state.rs:257-315 | Over any run a device id is known exactly if some applied event made it join, whatever happened since |
| AccessRuns.RunPersists | crates/rustsync-protocol/src/access/state.rs:284-364 | Over any run members stay, with their identity, their joining and their keys, and a removal is never undone or altered |
| AccessRuns.RemovedStaysOut | crates/rustsync-protocol/src/access/state.rs:338-364 | A removed device stays removed, never acts again and never again holds a key |
| AccessRuns.KeysNeverChange | crates/rustsync-protocol/src/access/state.rs:284-315 | The public keys of a device id never change |
| AccessRuns.JoinedThroughTheCreator | crates/rustsync-protocol/src/access/state.rs:295-312 | Every member is connected to the creator by a chain of joins, each made by a device that had joined strictly earlier and was not yet removed |
| AccessRuns.OneCreator | crates/rustsync-protocol/src/access/state.rs:258-282 | There is exactly one creator |
| Transfer.ChunkFits | crates/rustsync-cli/src/sync_workflow/transfer.rs:24-32 | A frame fits into one mebibyte exactly if its chunk is no longer than the chunk size |
| Transfer.ChunkSize | crates/rustsync-cli/src/sync_workflow/transfer.rs:26-32 | The chunk size is always positive and below the frame limit |
| Transfer.UniqueFileRemoteBlobIds | crates/rustsync-cli/src/sync_workflow/transfer.rs:185-218 | Succeeds exactly on consistent references, and then indexes exactly the referenced files |
| Transfer.ReferencedExactly | crates/rustsync-cli/src/sync_workflow/transfer.rs:185-218 | The references of a manifest are consistent exactly if every file has either one blob or a list of chunks, not both and not neither, and files of equal hash have equal sizes and the same blobs |
| Transfer.DownloadableStays | crates/rustsync-cli/src/sync_workflow/transfer.rs:126-176 | What can be fetched stays fetchable as blobs are added |
| Transfer.ReadingExists | crates/rustsync-cli/src/sync_workflow/transfer.rs:155-160 | Reading frames back is well defined, because a frame determines its object |
| TransferClient.ChunksJoin | crates/rustsync-cli/src/sync_workflow/transfer.rs:42-46 | Chunking loses nothing, yields at least one chunk, even for an empty file, and cuts every chunk but the last to exactly the size |
| TransferClient.StagedBlobs | crates/rustsync-core/src/workspace/local_engine.rs:182-208 | Succeeds exactly if every file of the manifest is cached intact, and then returns verified contents for all of them and for nothing else |
| TransferClient.SyncClient.UploadChunk | crates/rustsync-cli/src/sync_workflow/transfer.rs:48-60 | The encrypted frame always fits, and fetching it back gives the chunk |
| TransferClient.SyncClient.UploadFile | crates/rustsync-cli/src/sync_workflow/transfer.rs:42-62 | Fetching the returned references gives back the file, and there is at least one |
| TransferClient.SyncClient.UploadFiles | crates/rustsync-cli/src/sync_workflow/transfer.rs:33-63 | Afterwards every staged hash has references to its contents, reused or new, and reused ones are unchanged |
| TransferClient.SyncClient.UploadContents | crates/rustsync-cli/src/sync_workflow/transfer.rs:33-77 | The rewritten manifest differs from the staged one in references only, one reference stored as the blob and several as chunks, and can be downloaded in full |
| TransferClient.SyncClient.UploadManifest | crates/rustsync-cli/src/sync_workflow/transfer.rs:79-92 | Stored exactly if its frame fits; loading it back gives the manifest |
| TransferClient.SyncClient.Push | crates/rustsync-cli/src/sync_workflow/transfer.rs:9-117 | Publishes exactly if every file is cached intact, the rewritten manifest fits into one frame and the head is current, and otherwise names the first of these that fails; the rewritten manifest differs in references only and can be downloaded in full. Whatever the outcome, every manifest published so far stays fully downloadable, and reused references are never inconsistent |
| TransferClient.PreviousRefs | crates/rustsync-cli/src/sync_workflow/transfer.rs:21-25 | References taken over from the previous manifest stand for contents of their hash |
| TransferClient.RewrittenIsDownloadable | crates/rustsync-cli/src/sync_workflow/transfer.rs:65-77 | Rewriting touches nothing but the references and makes the manifest downloadable |
| TransferClient.SyncClient.DownloadChunk | crates/rustsync-cli/src/sync_workflow.rs:696-699 | A chunk is read exactly if its blob exists under its id, decodes and decrypts; nothing is read from a blob with another hash or from bytes that are no frame |
| TransferClient.SyncClient.DownloadFile | crates/rustsync-cli/src/sync_workflow/transfer.rs:145-173 | Succeeds exactly if the references stand for contents of the recorded size and hash, and returns them |
| TransferClient.SyncClient.DownloadManifestBlobs | crates/rustsync-cli/src/sync_workflow/transfer.rs:126-175 | Succeeds exactly if references are consistent and every needed file can be fetched, and then returns exactly their contents |
| ObjectStore.IndexedStore.InsertObjectIfAbsent | crates/rustsync-server/src/storage/sqlite.rs:193-222 | Inserts exactly if no row carries the id text under either kind, accepts exactly a row that describes the object, and reports anything else as corruption. For a file of a consistent store it is never refused and leaves the row and a consistent store |
| ObjectStore.IndexedStore.PutObject | crates/rustsync-server/src/storage/indexed_fs.rs:167-205 | Bytes of another id, and an existing file with other bytes, are refused without any change; otherwise the file is stored once and the answer is Created without a row, AlreadyExists with the exact row, and corruption with any other. In a consistent store corruption is never reported |
| ObjectStore.IndexedStore.PutInterrupted | crates/rustsync-server/src/storage/indexed_fs.rs:174-189 | A crash between publishing the file and inserting its row leaves a consistent store |
| ObjectStore.IndexedStore.LoseRows | crates/rustsync-server/src/storage/indexed_fs.rs:242-266 | Losing any rows leaves a consistent store |
| ObjectStore.IndexedStore.GetObject | crates/rustsync-server/src/storage/indexed_fs.rs:206-224 | Without the file, not found without a row and corruption with one; with the file, its bytes if they hash to the id and no row of the id contradicts them, and else corruption. In a consistent store the answer is that of the files alone and the row is there afterwards |
| ObjectStore.IndexedStore.ObjectExists | crates/rustsync-server/src/storage/indexed_fs.rs:225-241 | Absent without file and row, present with a sound file that no row contradicts, and corruption in every other store. In a consistent store the answer is that of the files alone |
| ObjectStore.IndexedStore.VerifyBackfill | crates/rustsync-server/src/storage/indexed_fs.rs:242-266 | Passes exactly for bytes of the id that no row contradicts, and leaves the exact row; bytes of another id are corruption and insert nothing. The file of a consistent store always passes |
| ObjectStore.IndexedStore.ReportMissingCatalogRow | crates/rustsync-server/src/storage/indexed_fs.rs:267-288 | A missing file is corruption exactly if a row for its id text exists under either kind |
| ObjectStore.TextDeterminesId | crates/rustsync-server/src/storage/paths.rs:15-27 | The text of an id determines its kind and hash, so no row is found under the wrong kind although blobs and manifests of one hash share a file |
| ObjectStore.RunsStayConsistent | crates/rustsync-server/src/storage/indexed_fs.rs:167-288 | Every sequence of puts, interrupted puts, reads and lost rows leaves a consistent store |
| ObjectStore.ConsistentAnswers | crates/rustsync-server/src/storage/indexed_fs.rs:206-266 | In every consistent store the answers computed from rows and files are those of the files alone, and never corruption |
| ObjectStore.VisibleExactlyWhenRowsMisfit | crates/rustsync-server/src/storage/indexed_fs.rs:242-288 | For sound files an answer shows the catalog exactly when a row is left without its file, differs from it, or stands under the wrong kind without a right one |
| ObjectStore.RowsAreInvisible | crates/rustsync-server/src/storage/indexed_fs.rs:206-288 | Two consistent stores with the same files, whatever rows either has lost, give the same answers now and after any further calls, crashes and losses |
| ObjectStore.StoredForGood | crates/rustsync-server/src/storage/indexed_fs.rs:167-241 | Contents once stored are returned for good, under a blob id and under a manifest id, whatever is interrupted or lost |
| HeadRegister.SqliteHead.UpdateRow | crates/rustsync-server/src/storage/sqlite.rs:322-372 | For in-range revisions the answer is Updated exactly if the revision before was the expected one, an absent row counting as 0; then the head is the new manifest at the next revision with its updater, else it is unchanged; the answer always carries the current head. The two range errors come before the comparison and change nothing |
| HeadRegister.SqliteHead.UpdateHead | crates/rustsync-server/src/storage/indexed_fs.rs:379-395 | A head is only moved to a stored manifest; for in-range revisions the answer is Updated exactly if the revision before was the expected one, and then the head is the new manifest at the next revision with its updater; else it is Conflict, the head is unchanged and is the one returned |
| HeadRegister.SqliteHead.GetHead | crates/rustsync-server/src/storage/indexed_fs.rs:366-378 | The manifest named by the head is always there |
| HeadRegister.FileHead.UpdateHead | crates/rustsync-server/src/storage/fs.rs:148-183 | The file-based register gives the same answers and moves the head in the same way, except at the largest revision |
| HeadRegister.OutcomesAreTrue | crates/rustsync-server/src/storage/sqlite.rs:344-371 | Over any calls each caller is told the head its call left, and Updated exactly if it knew the revision |
| HeadRegister.RevisionCountsUpdates | crates/rustsync-server/src/storage/sqlite.rs:322-372 | Over any calls the revision is the number of callers that were told Updated |
| HeadRegister.OneWinnerPerRevision | crates/rustsync-server/src/storage/sqlite.rs:344-371 | Of all callers that expect one revision at most one is told Updated |
| HeadRegister.HeadIsLastPublished | crates/rustsync-server/src/storage/sqlite.rs:315-372 | The head is that of the last caller who was told Updated, with the next revision and the updater |
| Rsob.Encode | crates/rustsync-protocol/src/object/binary.rs:24-57 | Fails with the named error for an empty ciphertext, else for a nonce that is not 24 bytes, else for a ciphertext below 16 bytes, else for a frame above one mebibyte; otherwise the result is the frame |
| Rsob.Decode | crates/rustsync-protocol/src/object/binary.rs:59-99 | Succeeds exactly on the frames of valid, fitting objects, and then encoding the result gives back the bytes; header errors name what was met, the frame of an invalid object is refused for what makes it invalid, and everything else is malformed |
| Rsob.RoundTrip | crates/rustsync-protocol/src/object/binary.rs:24-99 | Decoding an encoded object returns it |
| Rsob.FrameIsInjective | crates/rustsync-protocol/src/object/binary.rs:16-23 | Distinct objects have distinct frames |
| Rsob.ReadHeader | crates/rustsync-protocol/src/object/binary.rs:67-84 | Succeeds exactly on a complete version-1 header and reports the two lengths |
| Rsob.ReadBody | crates/rustsync-protocol/src/object/binary.rs:85-98 | Either the bytes are the frame of the returned object, or they are no frame at all |
| Rsob.Cursor.Take | crates/rustsync-protocol/src/object/binary.rs:111-116 | Returns the next bytes exactly if there are enough, and otherwise stays where it is |
| Signing.PayloadIsInjective | crates/rustsync-protocol/src/access/event.rs:284-287 | A length-prefixed payload determines its list of fields |
| Signing.BigEndianRoundTrip | crates/rustsync-protocol/src/access/event.rs:276-278 | A number is recovered from its big-endian bytes |
| Signing.BigEndianDigits | crates/rustsync-protocol/src/access/event.rs:276-278 | The bytes of a number are its base-256 digits, the most significant first |
| Signing.PayloadBuffer.PushBytes | crates/rustsync-protocol/src/access/event.rs:284-287 | Appending to the buffer appends one field to the list it encodes |
| Signing.PayloadBuffer.PushAccessEvent | crates/rustsync-protocol/src/access/event.rs:195-244 | Appends exactly the fields of the event |
| Signing.PayloadBuffer.PushDeviceRecord | crates/rustsync-protocol/src/access/event.rs:246-260 | Appends exactly the six fields of a device record |
| Signing.PayloadBuffer.PushContext | crates/rustsync-protocol/src/object/envelope.rs:47-61 | Appends exactly the nine context fields of an envelope |
| Signing.AccessEventPayload | crates/rustsync-protocol/src/access/event.rs:133-145 | The payload is that of the domain, the five header fields and the fields of the event in their order, spelled out for each kind |
| Signing.FieldsSpelled | crates/rustsync-protocol/src/access/event.rs:195-275 | The fields of an event in their order, with the bytes of its tags |
| Signing.JoinRequestPayload | crates/rustsync-protocol/src/device/join.rs:40-50 | The payload is that of the domain, the request and workspace ids, the six fields of the device and the time, in this order |
| Signing.EnvelopePayload | crates/rustsync-protocol/src/object/envelope.rs:63-71 | The payload is that of the nine context fields, then the ephemeral key, the nonce and the encrypted key |
| Signing.AccessPayloadIsInjective | crates/rustsync-protocol/src/access/event.rs:133-145 | Equal payloads of access events are payloads of the same event |
| Signing.EventFieldsAreInjective | crates/rustsync-protocol/src/access/event.rs:195-260 | The fields of an event determine its kind and all its parts |
| Signing.JoinPayloadIsInjective | crates/rustsync-protocol/src/device/join.rs:40-50 | Equal payloads of join requests are payloads of the same request |
| Signing.EnvelopePayloadIsInjective | crates/rustsync-protocol/src/object/envelope.rs:47-71 | Equal payloads of envelopes are payloads of the same envelope |
| Signing.KindsNeverCoincide | crates/rustsync-protocol/src/device/record.rs:88-97 | Payloads of different kinds - events, join requests, envelopes, envelope contexts and the wrapper that is signed - never coincide |

## Left out

- HTTP client and server routes, command line, output, progress counters and report fields: plumbing.
- Cryptography itself, key files and identities: abstract functions with the laws stated above.
- Gitignore matching: reading the ignore file gives an arbitrary predicate or fails, and tracked paths overrule it. In the protocol model a device's tree is what a scan lists, and an application neither meets ignored paths nor leaves a directory with ignored contents only nor reveals ignored files; `CombinationApplies.CombineAndApply` gives these conditions.
- Symbolic links, permissions, temporary files, file names containing a backslash, partial writes and power loss during the replacement of one file.
- A crash or an edit inside lines 423-447 of `crates/rustsync-cli/src/sync_workflow.rs`: applying and restaging are one step of the protocol, because the code makes no check after line 420; saving the conflict records before it is a step of its own.
- Convergence.TwoRoundsConverge: after the first round excludes crashes between applying and saving that leave a device with something to say, which then publishes, as `Convergence.InterruptionPublishesExactly` shows.
- The dry run, and the standalone push and pull, which skip reconciliation and are no commands of the tool; the forced pull is part of the protocol as `PullApply`.
- The counter of the copy-name search is unbounded here and a 32-bit integer in the code.
- TransferClient.SyncClient.Push: uploads are not interrupted half-way and the server does not fail, because every prefix of a push only adds blobs.
- Errors of the closing validation of the access state are one error here; the code words them differently.
- AccessMachine.AccessState.ApplyVerifiedEvent: the signature itself is checked before this call, in code that is not part of this model.
- SQLite schema creation, JSON formats, join-request queues, key-envelope storage, the replay cache and concurrent callers of one store, which the code serializes by locks or transactions.
- HeadRegister.FileHead.UpdateHead: timestamps are left out, and the object files behind the manifests are a set.
- Signing.AccessPayloadIsInjective: assumes fields shorter than 2^64 bytes and 64-bit numbers, which the code's types guarantee; the same holds for the other payloads.
- TextMerge.RemergeIsStable: assumes that text validity can be decided line by line, as for UTF-8, where a newline byte never occurs inside a longer encoding; the same holds for `TextMerge.MergeIsText`.
