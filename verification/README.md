# Verification of SandKing's crash-safe core

A Dafny model of the parts of SandKing whose correctness hides behind I/O, and
proofs about them. `dafny verify dfyconfig.toml` checks everything.

- **Crash-recoverable file replacement** (`ExclusionText`, `FileWorld`, `HostCalls`,
  `PreparationFile`, `GitExclusion`, `ExclusionRules`, `ProviderPreparation`,
  `PreparationRuns`, `ReleaseLimits`). The Host takes a public file into a private directory by
  rename, publishes a candidate by hard link, and gives the old file up only when
  nobody can write it any more. The file system is names, inodes, texts and open
  descriptors. Before every system call other processes take any number of steps:
  they write through descriptors, create, link, rename and unlink public names, but
  never use the Host's private names. Every call may fail when `faults` is set, and
  the Host may be lost at any call (`Crash`). Every operation is proved to keep
  `Host.Valid` in all three outcomes, so the invariant holds at every crash point,
  and recovery is proved from any state with that invariant. A history of events
  records what was taken, or found missing, published, read, probed and given up; the
  guarantees are about it, and the system calls alone write it. Beside these safety
  claims, each operation tells what it does when it is left undisturbed: a Host made
  `calm` has no other process beside it, no failing call and no loss, and there the answer
  and the resulting file system are determined (`Ready`, `Mergeable`, `Interrupted`,
  `CandidateShown`, `MidRollback`, `Editable` name the states).
- **Process trees** (`ProcessTree`, `WindowsTracker`, `PosixTracker`,
  `SubreaperSystem`, `ExactSignal`). Each tracker is proved against a system with PID
  reuse: Windows with retained creator PIDs, Linux with reparenting to subreapers,
  and a kernel in which PIDs change hands between any two calls of the signal helper.
- **Terminal streams** (`TerminalSession`): replay ring, staged attachment, live
  fan-out, one writer.
- **Revisioned mutation logs** (`Credentials`, `RuntimeLifecycle`).
- **Lock graphs** (`DependencyLock`, `SkillBundles`) and **framed codecs** (`Framing`).

Code that changes state is modelled by classes and methods with the loops of the
source; each such method is tied to a specification, and what is promised is proved
about that specification and about whole runs.

## Hypotheses

- The descriptor probe is sound: when it reports no foreign descriptor there is none.
- An inode identity (birth time, device, inode) is never reused.
- Windows: a PID is reused strictly later than everything its earlier holder created;
  the PID of a creator that was never sampled is not held by another readable process,
  and its child does not hold the root's PID. `RootPidReuseIsMissed` shows that the
  last part is needed.
- Linux: inventories are atomic, start times have one clock, the supervisor helper has
  no children, and group members and the adapter row stem from the wrapper.
- Private-state locks serialize the credential and lifecycle operations.

## Where the code differs from its own description

- `src/project-git-exclusion.mjs:91-98` promises to preserve each observed generation.
  A missing generation that ends in a newline can be lost by the merged text unless some
  line after its own is empty: `ConcatenateKeeps`, `MergeKeepsMissing`. Retrying helps
  only when a missing generation has an empty line inside, which the first merge
  then brings in: `RetryKeepsAllIff` has the whole condition, and two attempts are
  enough. `Merge` still reports success only after seeing every generation.
- `src/project-git-exclusion.mjs:430-437` takes an absent old generation for a changed
  one, so replacing a missing file never commits: `Committed` needs a generation. Rules
  for an exclude file that does not exist are therefore never added: `AppendRules`.
- `src/project-git-exclusion.mjs:770-784` accepts rules that hold a newline. What is then
  appended is never removed again: with a marker the removal is a collision
  (`AppendedRuleOfSeveralLinesCollides`), without one it finds no such line.
- `src/project-git-exclusion.mjs:284-287` promises a recovery. Where another file is
  public it fails every time if the interrupted generation is not preserved in it, ends in
  a newline, and neither of the two has an empty line: `NeverRecovers`, `MergeSucceedsIff`.
- `src/project-preparation-file.mjs:240-249` says a file created after the capture is
  never overwritten. When `link` fails for another reason than an existing name, the
  fallback rename can overwrite one, from every state in which its check finds the name
  free: `FallbackCanClobber`. It happens only in a restore whose link, or removal after
  it, failed so (`RestoreCaptured`), and without faults in no run: `PreparationRuns.Live`.
- `src/project-git-exclusion.mjs:188-201` compares a removal with the text of the last
  refused removal but merges the text read after it. The two can differ only if the file
  still has a public name at the recorded probe (`Refusals`, `ReleaseCapture`); a text
  that was there for the removals and not for the read between them is then given up
  unmerged, and need not be public anywhere: `ReleaseCanLoseText`. Otherwise it is:
  `GivenUpIsCovered`.
- `src/project-git-exclusion.mjs:170-173` lets a file go only after every descriptor
  write has ceased or been merged. With two links allowed that holds only if the
  captured file has no public name at the probe: through such a name, and only then, it
  can still be rewritten after it, and unlinked before its last private name goes:
  `LateWriteCanBeLost`. `Justified` keeps the two cases apart by the recorded probe; with
  one link allowed only the sealed one occurs.
- `src/project-git-exclusion.mjs:134` opens the public file for append, which creates an
  empty one if it vanished: the event `Made`.
- `src/windows-process-tree.mjs:1113-1121` exempts the root's PID from the check for
  absent creators: `RootPidReuseIsMissed`.
- `src/github-credentials.mjs:216-224` checks the project before the outcome window, so a
  repeated request is refused, not replayed, once its project is no longer a production
  project: `Credentials.Manager.Replay`.

## Model

| member | source | states |
|---|---|---|
| ExclusionText.SourceIsPreserved | src/project-git-exclusion.mjs:74-84 | the greedy line scan answers true exactly when some increasing choice of candidate lines spells the whole source, duplicates included; an empty source always survives |
| ExclusionText.ConcatenateKeeps | src/project-git-exclusion.mjs:87-89 | a generation is a line subsequence of the concatenation when it has no final newline, or when some later line is empty: after the final newline of the whole, or inside any later generation |
| ExclusionText.MergeEndsWithCurrent | src/project-git-exclusion.mjs:148-152 | the merged text ends, line for line, with the newest generation, whatever was missing |
| ExclusionText.MergeKeepsDecision | src/project-git-exclusion.mjs:91-98 | under git's last-match rule a path decided by the newest generation keeps its decision in the merged text |
| ExclusionText.MergeKeepsMissing | src/project-git-exclusion.mjs:148-152 | exact condition: one missing generation survives the merge if and only if it has no final newline or the current text has an empty line |
| ExclusionText.MergeKeepsEach | src/project-git-exclusion.mjs:148-152 | of any list of missing generations, each one without a final newline survives the merge, and all of them do when a nonempty current text has an empty line |
| ExclusionText.RetryKeepsAllIff | src/project-git-exclusion.mjs:115-168 | left alone, the merge loop ever completes if and only if no missing generation ends in a newline, or one has an empty line inside, or the current text has one (if it is empty: the last missing generation ends in a newline); and then at the second attempt at the latest |
| ExclusionText.RetryKeepsOneIff | src/project-git-exclusion.mjs:115-168 | the same for one missing generation: no final newline, or an empty line in the current text, or one of its own inside |
| ExclusionText.RetryNeverKeeps | src/project-git-exclusion.mjs:115-168 | without the condition of RetryKeepsAllIff, after any number of committed attempts some required generation is still missing: the loop can only end in a collision |
| ExclusionText.TwoRoundsFinish | src/project-git-exclusion.mjs:104-168 | under that condition two undisturbed attempts hold every generation required by then, those read in between included |
| ExclusionText.SplitJoin | src/project-git-exclusion.mjs:712-731 | splitting undoes joining for lines without a newline |
| ExclusionText.JoinSplit | src/project-git-exclusion.mjs:712-731 | joining undoes splitting for every text |
| ExclusionText.RemoveGivesSurroundings | src/project-git-exclusion.mjs:713-731 | removing a marked block gives exactly the lines before it followed by the lines after it, for any edits around it, even where nothing at all is left before or after |
| ExclusionText.AppendRemoveRoundTrip | src/project-git-exclusion.mjs:801-805 | with no edits between, append and remove restore the original when it was empty or newline-terminated, and otherwise the original plus one newline |
| ExclusionText.RemoveBlockIff | src/project-git-exclusion.mjs:712-724 | exact conditions for every file: nothing happens exactly when no line is the marker; the block goes exactly when the rules follow the marker unedited and no other line is the marker, and then the lines around it are left; everything else is the collision |
| ExclusionText.AppendedRuleOfSeveralLinesCollides | src/project-git-exclusion.mjs:801-805 | a rule that holds a newline is accepted by append, and its block is a collision for remove ever after |
| ExclusionRules.AddedAreNew | src/project-git-exclusion.mjs:796-797 | the rules appended are exactly the wanted ones the file lacks |
| ExclusionRules.EachGone | src/project-git-exclusion.mjs:725-730 | without a marker each owned rule loses one occurrence at most and every other line keeps its count |
| ExclusionRules.AppendKeepsText | src/project-git-exclusion.mjs:801-805 | with a marker or without, and whatever the old text ends in: the old text is a prefix of the new one, whose lines are the old body lines, the marker, the lines of the added rules, and the final empty line; only one text is like that |
| ExclusionRules.FirstIsRemoved | src/project-git-exclusion.mjs:725-730 | the first line that is the rule goes, and every other line stays where it was |
| ExclusionRules.UnmarkedRemovalIff | src/project-git-exclusion.mjs:725-731 | without a marker the text stays exactly if it is empty or no owned rule is a line of it, and there is no collision |
| ExclusionRules.UnmarkedRoundTrip | src/project-git-exclusion.mjs:801-805 | without a marker too, append and remove restore the original, or the original and a newline if it was unterminated, when the added one-line rules were not in it |
| FileWorld.EnvRelies | src/project-preparation-file.mjs:240-249 | every possible step of another process keeps private names, keeps hidden files hidden, and cannot change a file it can neither reach nor has open |
| FileWorld.HeldIsAccountedFor | src/project-preparation-file.mjs:240-249 | in any history with justified releases, what a capture held at any point was later public again, was probed, read a last time and given up from that capture (with that text and sealed, unless it was public at the probe), or is still answered for in it |
| FileWorld.TakenIsAccountedFor | src/project-preparation-file.mjs:240-249 | the same of every file a capture took from the public name |
| HostCalls.TakeKeepsValid | src/project-preparation-file.mjs:302 | capturing by rename keeps the custody of every file answered for and adds the captured one |
| HostCalls.GiveKeepsValid | src/project-preparation-file.mjs:352-356 | renaming a captured file back keeps custody of all others, even when it clobbers |
| HostCalls.CommitKeepsValid | src/project-preparation-file.mjs:432-436 | renaming the directory to its released form keeps custody when the probe and the last reading precede it in the history |
| HostCalls.CreateKeepsValid | src/project-git-exclusion.mjs:571-582 | a new private file is sealed: nobody else can reach or write it |
| HostCalls.OneLinkIsSole | src/project-preparation-file.mjs:45-56 | a captured file that reports one link has no public name and no temporary name |
| HostCalls.Host.ReadFile | src/project-preparation-file.mjs:35-82 | the identity and text returned belong together at one instant, the name still leads to that file at the end, and with one link allowed the file has no other name |
| HostCalls.Host.AwaitRelease | src/project-preparation-ownership.mjs:125-142 | success means that at that instant no other process has the file open, and is recorded with whether the file had a public name then |
| HostCalls.Host.CommitDir | src/project-preparation-file.mjs:432-436 | the point of no return is passed only directly after a recorded probe and a recorded reading of the same file that repeats an earlier one, and only if the file was public at the probe or is sealed with the text read; the event tells its text and whether it was sealed |
| HostCalls.Host.Look | src/project-preparation-file.mjs:405-407 | a reading of a captured file is recorded, exactly when it succeeds, with the identity and text it had at one instant |
| HostCalls.Host.Publish | src/project-git-exclusion.mjs:427 | a candidate gets the public name only while that name is free |
| HostCalls.Host.OpenAppend | src/project-git-exclusion.mjs:133-139 | an empty public file is made, and recorded as made, exactly when the public name is free at that instant; otherwise the file there is opened |
| HostCalls.LinksAre | src/project-preparation-file.mjs:45-56 | the names that a link count counts are those outside one capture and those in its slots |
| PreparationFile.TakenLinks | src/project-preparation-file.mjs:302 | a file keeps the number of its names when it is captured |
| PreparationFile.FinishReleased | src/project-preparation-file.mjs:139-172 | an interrupted release is finished or left resumable; nothing else private changes |
| PreparationFile.RestoreCaptured | src/project-preparation-file.mjs:325-359 | success means the captured file got, or was seen to have, its base name, and the directory is gone; failure leaves the file in its slot or restored; no other process's file loses the public name unless the link, or the removal after it, failed for another reason than a taken name |
| PreparationFile.RestoreRelease | src/project-preparation-file.mjs:378-402 | a half-finished release is moved back between the two slots of its own directory and never lost |
| PreparationFile.Remove | src/project-preparation-file.mjs:408-450 | the file is given up exactly as one probe, one reading with the text last acknowledged, and the drop, which is sealed with that text unless the file was public at the probe; a different text is acknowledged instead and the file kept; an unaltered file that nobody can write is never refused; an error leaves it in a slot, and other captures' files as they were; undisturbed, a file with no name too many that nobody has open goes exactly if its text is the acknowledged one |
| PreparationFile.Restore | src/project-preparation-file.mjs:451-455 | an active capture's file is public again on success; an inactive capture does nothing |
| PreparationFile.Refresh | src/project-preparation-file.mjs:405-407 | the text and identity reported are those of the file in the slot at one instant |
| PreparationFile.OpenCaptureDirectory | src/project-preparation-file.mjs:199-238 | a stable ID creates, resumes, or finishes its directory, and no other directory changes |
| PreparationFile.CaptureFile | src/project-preparation-file.mjs:252-376 | a resumed directory keeps the very file it held; otherwise the public file leaves its name before it is read; what is read is recorded; with one link the captured file has no other name; that there was no file is recorded too; undisturbed, the file at the base name is captured and read, an interrupted capture resumed, and an emptied directory removed, with nothing else changed |
| GitExclusion.RemoveTemporaryFile | src/project-git-exclusion.mjs:626-650 | only the temporary file of this ID, and only the expected one, is given up; nothing is taken from the public name; undisturbed, it goes, or nothing happens if there is none |
| GitExclusion.MissingFrom | src/project-git-exclusion.mjs:127-129 | the list is exactly the required generations the text does not preserve, and empty exactly when it preserves all |
| GitExclusion.PublishMerged | src/project-git-exclusion.mjs:148-161 | a committed merge swaps exactly the generation that was read for itself, the missing ones and itself again |
| GitExclusion.MergeAttempt | src/project-git-exclusion.mjs:115-166 | an attempt reports completion only after the public file was seen to hold every required generation line for line; undisturbed, it makes exactly the step of the specification and finishes exactly if the new text holds everything required |
| GitExclusion.Merge | src/project-git-exclusion.mjs:104-168 | it returns only after, at some moment since it began, the public file held every observed generation line for line; undisturbed, it completes exactly under the condition of RetryKeepsAllIff, with all of them in the public file and no other name changed, and otherwise ends in the collision |
| GitExclusion.MergeSucceedsIff | src/project-git-exclusion.mjs:104-168 | that condition for the public text and one other generation: the other is preserved already, or does not end in a newline, or one of the two has an empty line |
| GitExclusion.ReleaseCapture | src/project-git-exclusion.mjs:180-203 | the turns returned are all the refused removals in the history, each a recorded probe and reading of another text than the one acknowledged; the file goes with the captured text or the one of the last refusal; each text read after a refusal was merged, and it is the refused one unless the recorded probe found the file public; an unaltered file goes at once, sealed; undisturbed, an altered one goes after one refusal and with both texts public, exactly when the merge can complete |
| GitExclusion.GivenUpIsCovered | src/project-git-exclusion.mjs:171-172 | the text given up was itself public, line for line, if it is one of the texts observed or merged, and so whenever the recorded probe of the last refused removal found no public name |
| ReleaseLimits.ReleaseCanLoseText | src/project-git-exclusion.mjs:188-201 | that condition is needed: a run with a foreign hard link, its states and its history, in which the given-up text was never public |
| ReleaseLimits.LateWriteCanBeLost | src/project-preparation-file.mjs:408-436 | exact condition, in every state and for every offered file that nobody has open: other processes can make it go with a text nobody acknowledged if and only if it has a public name at the probe |
| GitExclusion.RestoreReplaced | src/project-git-exclusion.mjs:245-261 | during rollback recovery the replaced generation stays in its capture or gets its public name |
| GitExclusion.RecoverRollback | src/project-git-exclusion.mjs:214-281 | after it returns the candidate's capture is gone and the replaced generation is still captured or public again; undisturbed, it does return, with the replaced generation public and the candidate given up |
| GitExclusion.Settle | src/project-git-exclusion.mjs:324-378 | the old generation ends public, released under a candidate recognised by its temporary name, or released after both texts were public together; the last only when a file that is neither the candidate nor the captured one was seen public; a recognised candidate with no refusal publishes nothing; the second never when the candidate is seen by nobody at the start, and for a file that was shut at the start only at once, sealed, with the text it had then; undisturbed, each of the three ends is reached from its state, and which one is determined |
| GitExclusion.RecoverReplacement | src/project-git-exclusion.mjs:293-378 | from any state a crash can leave, it returns only with both captures gone and the captured generation in one of those three ends; under the candidate only if that had a public name or was in a capture of the public file at the start; beside another file only if one that is not the candidate was seen public; a captured file that nobody could write then and only this capture could show is given up under the candidate with exactly its text; a recognised candidate is not published again, nor anything else; otherwise it fails and every generation is still accounted for; undisturbed, it completes, with the resulting file system told, from the states with a file captured and nothing, the candidate, or another file public, from an emptied directory, from none, and from the middle of a rollback; with another file public it ends in the collision instead exactly when the merge of both generations never completes |
| GitExclusion.Prepare | src/project-git-exclusion.mjs:401-422 | a mismatch ends with the captured generation public again and nothing given up, and was recorded: another generation was read in the capture, or there was no file; a match holds the expected file with no other name; undisturbed, the expected generation is always found to match and any other is put back, leaving every name as it was |
| GitExclusion.TakeCurrent | src/project-git-exclusion.mjs:401-406 | the public file is captured with no other name left, and undisturbed it is the one that was public |
| GitExclusion.RollBack | src/project-git-exclusion.mjs:446-476 | the old generation returns to its public name, nothing of it is given up, and only the Host's own candidate is; undisturbed, it succeeds whenever the candidate is public under no further name and nobody has it open |
| GitExclusion.Conclude | src/project-git-exclusion.mjs:430-527 | success gives up exactly the captured file, read twice more with exactly the captured text and probed when nobody could reach it; a refusal puts it back, after another text was read; undisturbed, an unaltered file concludes the exchange, and an altered one, or none, undoes it |
| GitExclusion.ReplaceSteps | src/project-git-exclusion.mjs:400-527 | committed means the exact history: expected file taken and read, new file with the wanted text published, expected file read, probed, read and given up sealed with the expected text; not committed means that another generation, or none, was recorded; in every outcome a publication follows the expected generation directly |
| GitExclusion.HandleFailure | src/project-git-exclusion.mjs:528-564 | the error handler gives up nothing of the replaced capture except what a recovery supersedes, and stays within the private names of this ID |
| GitExclusion.Replace | src/project-git-exclusion.mjs:390-565 | compare-and-swap on the public file: true only with that exact history; false only with the old generation public again and undamaged, and for an existing expected file only if this call read another generation in the capture or found no file, or the directory of a finished replacement with this ID was left; undisturbed, the generation that is public is always committed and any other never, with the resulting file system told; in every outcome, errors and crashes included, what was published is a new file with the wanted text directly after the expected file, and no other, was taken or found in the capture and read with the expected text, and each file the capture gave up ended a committed exchange or was superseded by a recovery, after a merge unless the candidate had been published; a missing generation never commits, and undisturbed is always refused |
| GitExclusion.DropsAreAccounted | src/project-git-exclusion.mjs:528-564 | a committed exchange followed by the error handler gives up nothing else than what a recovery supersedes |
| GitExclusion.ReplaceThenRecover | src/project-git-exclusion.mjs:284-287 | a replacement lost at any call, other processes at work, then a completed recovery with the same ID: what was published replaced the expected generation; every file the capture ever held is public again, was given up by the committed exchange, under the published candidate, or after both generations were public together (if the candidate was not published before the loss, only the first and the last); what the capture held after the publication is the expected file or was taken later; and the file held at the loss, if nobody could write it and no other capture showed it, is public again or was given up with its text at the loss |
| ExclusionRules.Resume | src/project-git-exclusion.mjs:702-708 | a durable caller starts its edit with no open capture of its ID left; undisturbed, a replacement interrupted after its publication is carried out to its end |
| ExclusionRules.RemoveRules | src/project-git-exclusion.mjs:700-744 | true means the generation read, and no other, was swapped for its text without the owned rules; false means the text last read had nothing to remove; undisturbed, the answer and the new file are those of the text that is public, in all three cases |
| ExclusionRules.AppendRules | src/project-git-exclusion.mjs:769-819 | true means the generation read was swapped for a text that keeps it as a prefix and adds exactly the lines of the rules it lacked, and that the file existed; undisturbed, an existing file gets exactly the rules it lacks, and for a missing one every call ends in the collision with all names as they were |
| ProviderPreparation.Inspected | src/production-provider-preparation.mjs:77-111 | a selector passes only as the recorded file with the exact manifest text, untracked |
| ProviderPreparation.RemoveStaleManifest | src/production-provider-preparation.mjs:63-126 | in every outcome the only selector ever given up is the recorded file, probed and read once more with exactly the manifest text; without a public name at the probe it went sealed with that text; false puts it back; undisturbed, the public file goes exactly if it is the recorded untracked one with that text, and otherwise everything is as it was |
| ProviderPreparation.CreateFile | src/project-git-exclusion.mjs:568-619 | success publishes one new file with the given text over a free name; an error has published nothing; undisturbed, it succeeds exactly when the name is free |
| ProviderPreparation.Finalize | src/project-git-exclusion.mjs:588-609 | only the temporary name of the published file goes, never a public one; undisturbed, it does go |
| ProviderPreparation.CleanupManifest | src/production-provider-preparation.mjs:140-184 | without a recorded identity the only selector that can go is the file the Host's own temporary name leads to, under the same conditions; undisturbed, a manifest published by a lost Host goes with both its names |
| PreparationRuns.CustodyAccounts | src/project-preparation-file.mjs:240-249 | every file ever taken is publicly named, given up after a probe and a repeated reading, or still in the capture that took it |
| PreparationRuns.Live | src/project-git-exclusion.mjs:206-209 | over any operations by any number of crashing Hosts: every taken file is accounted for; every release directly follows a probe and a reading that repeats an earlier one, and is sealed with that text unless the probe found a public name; without file-system faults no other process's file loses the public name |
| ReleaseLimits.RunsRelies | src/project-preparation-file.mjs:240-249 | any number of steps of other processes together keep what each of them keeps |
| ReleaseLimits.FallbackCanClobber | src/project-preparation-file.mjs:345-356 | exact condition, in every state and for every captured file: once the link was refused, other processes can make the fallback rename take the public name from a new file of theirs, which is left without any name, if and only if its check finds the name free |
| ProcessTree.AliveIsOrdered | src/windows-process-tree.mjs:1193-1194 | filtering the tracked identities keeps parents before children |
| ProcessTree.LinkedIsOrdered | src/windows-process-tree.mjs:1130-1150 | links recorded at discovery cannot form a cycle |
| ProcessTree.LastIsLeaf | src/windows-process-tree.mjs:1237-1244 | a nonempty live set has a leaf, so the branch for finding none is never taken |
| ProcessTree.ChooseLeaf | src/windows-process-tree.mjs:1237-1240 | the choice is a leaf, and no leaf has a greater PID |
| WindowsTracker.Pass | src/windows-process-tree.mjs:1131-1149 | one pass adds only identities that every closed set must hold, and adds none only when nothing is missing |
| WindowsTracker.Discover | src/windows-process-tree.mjs:1128-1150 | the tracked keys become the least set that holds the old ones and is closed under creation-time-checked parenthood |
| WindowsTracker.PossiblySupervisedPids | src/windows-process-tree.mjs:1151-1166 | a PID is suspected exactly when every parent-closed PID set around the tracked PIDs holds it |
| WindowsTracker.FindsAmbiguous | src/windows-process-tree.mjs:1171-1192 | the verdict does not depend on which tracked identity is found first |
| WindowsTracker.ApplyInventory | src/windows-process-tree.mjs:1087-1197 | tracked, live, reliable and established follow the specification of one inventory exactly |
| WindowsTracker.StepCatches | src/windows-process-tree.mjs:1106-1192 | while reliable, every readable descendant of the root in the inventory is tracked, through exited creators and reused PIDs |
| WindowsTracker.StepSuspects | src/windows-process-tree.mjs:1151-1170 | an unreadable descendant destroys reliability unless a creator above it vanished unsampled |
| WindowsTracker.StepTracksDescendants | src/windows-process-tree.mjs:1128-1150 | nothing but true descendants is added by an inventory |
| WindowsTracker.RunCatches | src/windows-process-tree.mjs:1086-1199 | by induction over inventories: a reliable tracker has tracked every descendant that was ever sampled |
| WindowsTracker.TerminatedMeansGone | src/windows-process-tree.mjs:1226-1229 | reliable and empty means no readable process of that instant descends from the root |
| WindowsTracker.TracksOnlyDescendants | src/windows-process-tree.mjs:1230-1249 | over any run only true descendants are tracked, so only they are asked to terminate |
| WindowsTracker.NeverReliableAgain | src/windows-process-tree.mjs:1075-1127 | reliability never returns and no identity is forgotten |
| WindowsTracker.StepStaysReliable | src/windows-process-tree.mjs:1106-1192 | an inventory keeps reliability when all live processes are readable and every live untracked one has a live creator, or is older than the root under another PID |
| WindowsTracker.RunStaysReliable | src/windows-process-tree.mjs:1075-1199 | so does a run of such inventories that begins with the live root |
| WindowsTracker.RootPidReuseIsMissed | src/windows-process-tree.mjs:1113-1121 | a descendant that got the root's own PID escapes the absent-creator check: a run in which a live tree is reported gone |
| WindowsTracker.Tracker.ApplyRows | src/windows-process-tree.mjs:1087-1197 | an inventory extends the recorded run by one step of the specification |
| WindowsTracker.Tracker.ProcessTreeAlive | src/windows-process-tree.mjs:1226-1229 | false exactly when tracking is reliable on a usable last listing and nothing tracked is alive |
| WindowsTracker.Tracker.Terminate | src/windows-process-tree.mjs:1245-1248 | a request is recorded with the step of the run, the live identities of that step and the answer |
| WindowsTracker.Tracker.ForceTerminate | src/windows-process-tree.mjs:1230-1260 | every recorded request is for the leaf with the greatest PID among exactly the tracked identities that the listing just before it showed alive, one request a listing; trust kept means nothing is alive and no refused target stayed alive; trust is lost only after a listing of this call that was unusable or made tracking unreliable, a refused target that stayed alive, or 4096 requests; true exactly when trust is kept and some request was accepted |
| SubreaperSystem.ExitKeepsChain | src/posix-process-tree.mjs:569-572 | when a process exits, everything that hung below it still hangs below the wrapper |
| SubreaperSystem.NextKeeps | src/posix-process-tree.mjs:569-572 | forks, exits, reaping and new subreapers never detach a running member of the family from the wrapper |
| SubreaperSystem.AlwaysKept | src/posix-process-tree.mjs:569-572 | the same over any history |
| SubreaperSystem.NoChildrenNoFamily | src/posix-process-tree-helper.c:353-368 | when the helper has no child left, nothing the wrapper ever caused is running |
| SubreaperSystem.ChildKeepsPid | src/posix-process-tree-helper.c:276-282 | until the helper reaps, a listed child keeps its PID to itself, so a numeric signal reaches no replacement |
| PosixTracker.ChainIsTracked | src/posix-process-tree.mjs:569-620 | every running member below the wrapper is seeded or discovered, link by link |
| PosixTracker.EmptyMeansGone | src/posix-process-tree.mjs:834-838 | after an atomic inventory with the live wrapper, an empty live set means no running member of the family but the holder of the supervisor's PID |
| PosixTracker.StepTracksFamily | src/posix-process-tree.mjs:527-620 | an inventory adds nothing from outside the family |
| PosixTracker.RunTracksFamily | src/posix-process-tree.mjs:505-651 | over any run everything tracked, hence everything signalled, came from the wrapper |
| PosixTracker.NeverReliableAgain | src/posix-process-tree.mjs:511-525 | reliability never returns and no identity is forgotten |
| PosixTracker.StepStaysReliable | src/posix-process-tree.mjs:527-651 | an inventory keeps reliability when every dead member that is not yet reaped is tracked and no process from outside the family names a tracked PID as its parent |
| PosixTracker.OrderIsIrrelevant | src/posix-process-tree.mjs:527-651 | what one inventory makes tracked, alive, established and reliable does not depend on the order of its rows, although the ambiguity check takes the first identity that fits |
| PosixTracker.SeedAdapter | src/posix-process-tree.mjs:527-542 | the adapter is entered exactly when it is listed and no parentless identity has its PID |
| PosixTracker.SeedRows | src/posix-process-tree.mjs:544-594 | exactly the live group members, or live wrapper children, other than the helpers are entered |
| PosixTracker.Discover | src/posix-process-tree.mjs:596-620 | the tracked keys become the least closed set around the seeds, with the group each row showed |
| PosixTracker.ApplyInventory | src/posix-process-tree.mjs:506-651 | tracked, live, reliable and established follow the specification of one inventory exactly |
| PosixTracker.Tracker.Refresh | src/posix-process-tree.mjs:653-671 | a refresh is trusted only on an acceptable inventory with tracking reliable and established |
| PosixTracker.Tracker.ProcessTreeAlive | src/posix-process-tree.mjs:834-838 | false exactly on a usable, trusted inventory of this call with nothing tracked alive |
| PosixTracker.Tracker.SignalExact | src/posix-process-tree.mjs:841-857 | a signal is recorded as sent exactly when, on Linux, the fresh inventory is usable and trusted and still shows the identity alive, and with the answer it got; no answer means an untrusted inventory, a request that failed, or a system without exact signals |
| PosixTracker.Tracker.ForceDetached | src/posix-process-tree.mjs:895-919 | every recorded signal is for the leaf with the greatest PID of what the inventory before showed alive outside the group, and left after a trusted repetition of that inventory; with trust kept no refused target stayed alive; it ends only with nothing detached alive, after an inventory that ended the trust or a refused target that stayed alive, or after 2 * 4096 inventories |
| ExactSignal.Kernel.PidfdSend | src/posix-process-tree-helper.c:217 | success reaches the process the descriptor was opened on, which still held its PID |
| ExactSignal.ExactSignalWithPtrace | src/posix-process-tree-helper.c:111-183 | whatever the outcome, nobody but the process with the requested PID and start time is signalled; OK and SIGNAL_DELIVERED mean it was; IDENTITY_ABSENT means a call of the kernel answered that the PID's holder is gone or another one, and uncertainty that a call failed |
| ExactSignal.SendExactly | src/posix-process-tree-helper.c:185-233 | the same over the pidfd path, its fallback, and malformed requests, which signal nobody |
| TerminalSession.ChunksKeepBytes | src/controller-sessions.mjs:954-961 | cutting output into frames loses nothing, and every frame but the last has exactly 16384 bytes and none is empty |
| TerminalSession.SnapshotIs | src/controller-sessions.mjs:1210-1218 | the staged replay is the output from the acknowledged cursor to the next sequence, which starts at the ring's head when the request is older |
| TerminalSession.HandoverIsStream | src/controller-sessions.mjs:1229-1246 | replay and ring never overlap: one acknowledgement, then strictly increasing frames of the output, whatever happened since the snapshot |
| TerminalSession.HandoverIsWhole | src/controller-sessions.mjs:1239-1246 | gap-free from the acknowledged cursor exactly when the ring's head has not passed the snapshot's next sequence |
| TerminalSession.FanoutKeeps | src/controller-sessions.mjs:967-974 | a live frame continues every fed stream without duplicate or gap |
| TerminalSession.Session.Deliver | src/controller-sessions.mjs:967-974 | exactly the attachments with live handlers on open sockets get the frame, once each |
| TerminalSession.Session.Data | src/controller-sessions.mjs:953-976 | the output is logged in frames and every fed attachment gets all of them in order; the ring keeps the last 256 frames of the log, or all if there are fewer |
| TerminalSession.Session.Exit | src/controller-sessions.mjs:1003-1018 | one empty final frame is numbered, kept beyond the bound of 256, and delivered |
| TerminalSession.Session.Accept | src/controller-sessions.mjs:1151-1193 | write access is granted exactly when nobody else holds it, and a socket is never writer and reader at once; nothing is sent to it until it is activated again, and every other socket's attachment stays fed |
| TerminalSession.Session.Stage | src/controller-sessions.mjs:1210-1219 | the snapshot resynchronises exactly when the requested cursor is older than the last 256 frames of the whole output, the final one not counted |
| TerminalSession.Session.Activate | src/controller-sessions.mjs:1229-1258 | only a staged attachment whose socket kept its role is activated; it is gap-free exactly when its cursor is not in the future and the ring has not passed it; a throwing callback installs nothing |
| TerminalSession.Session.Write | src/controller-sessions.mjs:1264-1286 | input reaches the PTY exactly as the writer's next sequence number while it runs |
| TerminalSession.Session.Resize | src/controller-sessions.mjs:1289-1346 | only the writer's next resize within 20-500 by 5-200 counts; a refused one uses up no number |
| TerminalSession.Session.Detach | src/controller-sessions.mjs:1349-1358 | a detached socket has no role and is fed no more; every other one is fed as before |
| TerminalSession.Interleave | src/controller-sessions.mjs:953-1358 | in any interleaving every attachment has received one acknowledgement and then increasing frames, and a gap-free one stays complete up to the newest frame while it is fed |
| Credentials.StatusRevealsNoToken | src/github-credentials.mjs:136-156 | the public status depends on which projects have a token and on nothing in a token |
| Credentials.LastActionDecides | src/github-credentials.mjs:281-291 | the last accepted action on a project decides about its token, whatever else happened |
| Credentials.LastHostActionDecides | src/github-credentials.mjs:281-291 | reuse of the host session is on exactly if the last accepted action on the host enabled it |
| Credentials.EffectiveMode | src/github-credentials.mjs:136-156 | over any accepted requests the public status of a project tells its own token exactly if the last action on it set one, otherwise the host session exactly if the last host action enabled it, and that it is configured exactly in one of these cases |
| Credentials.ObjectionsAre | src/github-credentials.mjs:187-214 | a request is objected to exactly for a malformed action, an unacknowledged risk when host reuse is enabled, or a project that is none in production, in this order |
| Credentials.Accepting | src/github-credentials.mjs:281-310 | an acceptance keeps state, revision count, and the window of the last 256 outcomes in agreement |
| Credentials.Manager.Configure | src/github-credentials.mjs:172-326 | a request is accepted exactly without objection, with a key outside the window and the current revision; a known key replays or conflicts; a lost Host leaves all or nothing |
| Credentials.Manager.Replay | src/github-credentials.mjs:224-242 | an outcome in the window is replayed as it was, exactly while its project is still a production project |
| Credentials.Live | src/github-credentials.mjs:172-326 | over any requests and lost Hosts the stored tokens are what the accepted requests did in order, every reported result is the outcome of one acceptance, told as new once at most and in order, and two results about one revision have the same key, content, status and audit entry |
| RuntimeLifecycle.Runtime.Launch | src/runtime.mjs:776-1067 | a start happens exactly for a key outside the window at the current revision with nothing running under the recorded PID, and never while the earlier runtime runs; after it the started process is the one recorded, under the new revision, and running; another process with that PID makes the launch refused; every other answer is determined, and every recorded answer is replayed |
| RuntimeLifecycle.Runtime.Stop | src/runtime.mjs:1082-1275 | a stop happens exactly for a key outside the window at the current revision with the recorded runtime running and answering; after it the lifecycle is recorded as stopped; another process with its PID is left alone; every other answer is determined |
| RuntimeLifecycle.Live | src/runtime.mjs:756-1276 | over any launches, stops, deaths, reused PIDs and damage the revision never decreases and counts the effects, no two effects share a revision or an expected revision, each stop ends the runtime of the start just before it, and every launch or stop outcome is found under its key until 128 later ones were recorded |
| RuntimeLifecycle.StaysInWindow | src/runtime.mjs:335-365 | in a window that follows the history of outcomes, an outcome is found under its key until 128 later ones were recorded |
| DependencyLock.NoLaterMark | src/production-harness-seed.mjs:468 | a package name without the marker adds no marker after its own |
| DependencyLock.NearestEnclosing | src/production-harness-seed.mjs:463-473 | resolution gives the nearest enclosing installation, and fails exactly when there is none, at string level |
| DependencyLock.ResolveLockedDependency | src/production-harness-seed.mjs:463-473 | the ancestor loop computes that resolution for every path |
| DependencyLock.Worklist | src/production-harness-seed.mjs:533-541 | the worklist holds exactly the packages some chain of dependencies from the root leads to |
| DependencyLock.ValidateDependencyLock | src/production-harness-seed.mjs:476-544 | a lock passes exactly when everything required resolves and nothing in it is unreachable |
| SkillBundles.ExpandBundle | src/production-harness-seed.mjs:394-405 | the recursive expansion with its accumulating set, for every visiting set |
| SkillBundles.AllExpandIff | src/production-harness-seed.mjs:396-398 | every bundle expands exactly when the include graph is closed and acyclic |
| SkillBundles.ExpansionIsUnion | src/production-harness-seed.mjs:400-404 | an expansion is the union of the skills of all bundles reachable by includes |
| SkillBundles.ExpandsCleanly | src/production-harness-preparation.mjs:201-217 | a successful expansion has no include walk that leaves the lock or returns to a bundle |
| SkillBundles.ValidateBundles | src/production-harness-preparation.mjs:219 | the bundles pass exactly when the graph is closed and acyclic and every skill is known |
| Framing.EncodesValid | src/protocol.mjs:1052-1075 | exactly the valid bulk frames are written, and the frame limit is never the reason for refusal |
| Framing.BulkRoundTrip | src/protocol.mjs:1112-1131 | decoding an encoded bulk frame gives it back |
| Framing.BulkIsCanonical | src/protocol.mjs:1112-1131 | whatever is accepted is the encoding of the valid frame it decodes to |
| Framing.BrowserRoundTrip | src/browser-protocol.mjs:469-505 | exactly the valid frames are encoded, and decoding gives them back |
| Framing.BrowserIsCanonical | src/browser-protocol.mjs:487-505 | accepted browser bytes are the encoding of the frame they decode to |
| Framing.WireComesFirst | src/protocol.mjs:1023-1032 | a written channel and body are taken off the stream together, whatever they hold and whatever follows; written exactly below the limit of 65536 bytes |
| Framing.ControlRoundTrip | src/protocol.mjs:1039-1045 | a written control frame reads back as its message, or as the error of its parse, and nothing after it is touched |
| Framing.OtherChannelIsRefused | src/protocol.mjs:1098-1134 | a frame on any other channel is refused after it was taken |
| Framing.Reader.Fill | src/protocol.mjs:1002-1016 | filling reorders and loses nothing, and fails exactly when too few bytes will ever come |
| Framing.Reader.ReadFrame | src/harness-adapter-protocol.mjs:517-526 | the result and what remains depend on the bytes alone, not on the chunks |
| Framing.ReadMany | src/protocol.mjs:1084-1135 | any cutting of the same bytes gives the same frames and the same errors, read after read |
| Framing.FramesReadBack | src/protocol.mjs:1023-1032 | control and bulk frames written one after another in any order are read back in order, whatever follows them |
| Framing.ReceivedIsWritten | src/protocol.mjs:1084-1131 | a bulk frame read off the wire took exactly its own encoding |
| Framing.AdapterRoundTrip | src/harness-adapter-protocol.mjs:541-553 | a written adapter frame is read back, unless its body is empty |

## Left out

- Merge: termination against an unbounded writer; the recursion carries a `fuel`, and running out of it is a lost Host, so every claim covers every finite prefix.
- Settle: edits made to a published candidate before its rollback, or to the captured file between publication and a restart, are not conserved by the code, and nothing is claimed of them; without such edits the old generation is (`EndsWithText`).
- RecoverReplacement: what it does undisturbed is told for the states listed in its row, not for a capture directory that was made and is still empty, nor for further hard links.
- EmptyMeansGone: PIDs reused before the first inventory and trees whose wrapper is gone.
- TerminatedMeansGone: processes whose creator was gone before it was ever sampled, beyond the hypothesis above.
- Launch: a Host lost between the runtime's start and the write of the lifecycle file; after it two starts can share a revision.
- GivenUpIsCovered: a text that is in the public file only because its lines happen to be there in other texts; the condition is sufficient, and `ReleaseCanLoseText` shows a run without it.
- RestoreCaptured: a rename onto another link of the same file, which does nothing, is reported as a failure at once.
- Symbolic links, file types, parent-directory checks, `mkdtemp` captures without a stable ID, and modes of files.
- Callbacks that re-enter the session while an attachment is being activated.
- Real system calls, git, Docker, PowerShell, `lsof`, PTY and sockets: steps of the environment or arbitrary answers.
- JSON text, schemas and digests: arbitrary functions or injective keys; UTF-8 beyond ASCII identifiers.
- Timeouts and deadlines: failures that may happen at any time.
- Creation-time strings: FILETIME numbers and clock ticks, as their normalizers give them.
- The Windows job-object variant, the macOS coalition code and the group signal over the leader's channel.
- Skill providers, plugins, integrity hashes and the fixed contracts of the seed beyond its graphs.
- Audit records and the text of error codes other than collision and failure.
- `src/private-state-lock.mjs`, `src/harness-runs/`, `src/daemon/`, `src/project-registration/` and `src/common/` are not part of this model.
