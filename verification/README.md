# whitehouse-rke2 services, modelled and proved

A Dafny model of the services of the homelab that contain real algorithms, and
proofs of what they promise. `dafny verify dfyconfig.toml` checks everything.

| file | what it models |
|---|---|
| Common.dfy | code-point order of strings, sorting, filtering, lists of lists, decimal text |
| Arithmetic.dfy | products, quotients and remainders |
| TreeHash.dfy, TreeBytes.dfy, Doubles.dfy | the checksum of a vulnerability report (sha256-tree-v1): byte stream, decoder, numbers |
| Partition.dfy, Equality.dfy, Reassembly.dfy, Counting.dfy, Pruning.dfy, Aborts.dfy | putting split reports together again, with Python's exceptions and its `==` |
| Coverage.dfy | the low-memory coverage map against the plain one |
| Reconciler.dfy, Commits.dfy | diff of a directory, operations, size-bounded commits, pushing, dying half way |
| Messages.dfy, MessageSync.dfy, MessageFacts.dfy, MessageRuns.dfy, MessageReturns.dfy, MessageLimits.dfy, MessagePush.dfy | the incremental sync of message threads over whole histories of runs |
| Riffado.dfy, RiffadoPush.dfy, Gmail.dfy, GmailNotes.dfy, PathAssignment.dfy | the recording cache, the mail index under a call budget, stable note paths |
| Ingest.dfy, IngestLimits.dfy, Chunks.dfy, ChunkFacts.dfy | notes becoming episodes of a knowledge graph, with retries |
| Nms.dfy, Pixels.dfy | non-maximum suppression of face boxes |
| Alerts.dfy, AlertClocks.dfy, AlertFacts.dfy | alert routing with cooldown and pruned history |
| SplitPoints.dfy | cutting long audio at quiet points |

Code that loops is a method here, proved against a function that says what it
computes; the theorems are about that function. What the code keeps between
calls (the repository, the mail cache, the ingest worker's state) is a class.

Conventions. Bytes are characters: a text is its UTF-8 bytes where the checksum
is concerned, and UTF-8 order is code-point order. A hash function is a
parameter, and where two digests are equal the theorem offers the same content
or an explicit collision. An outcome of Python code is a value, an exception
that the enclosing `try` catches, or one that it does not. Month arithmetic is a
calendar with `t >= start(k)` exactly if `month(t) >= k`. Rendering and remote
calls are functions of their inputs or given outcomes.

Assumptions stated as preconditions: reports, recordings, items and listed
threads have unique names or ids; repeated copies of a message fall in the same
month; messages before the cursor's month do not change (new ones are dated in
or after it); JSON values hold no NaN. Distinct note paths are assumed where
they are used and follow from path assignment when no two items clash.

Where the code differs from what one might expect of it, with the exact
condition and an instance of each:

- A severity that is not a string, or a report field that is not a dict, raises
  AttributeError, which the reassembly does not catch (archiver.py:245), and no
  report is returned (`Aborts.AbortsIff`, `Aborts.NullSeverityAborts`).
- The ingest README (apps/ai/graph/README.md:76-77) says that bumping
  RENDER_VERSION re-ingests everything. The early exit does not look at the
  version, so nothing is tried until the branch head moves
  (`IngestLimits.CycleAfterBump`, `IngestLimits.BumpIsSkipped`).
- A note that becomes empty is never pending, so its old entry and episodes
  stay (`Ingest.Worker.Settle`, `IngestLimits.EmptiedNoteStays`).
- A thread that a run leaves alone is exact only if the messages to show have
  not changed. One that arrives late but is dated no later than `last` is not
  noticed, and a thread that is due but gets no budget also ends its run without
  `pending` (`MessageLimits.IdleIsExactIff`, `MessageLimits.LateMessageIsMissed`,
  `MessageLimits.StarvedIsStale`).
- A signature that comes back after a run under another one died keeps what
  that run wrote, for good if the months lie before the committed cursor
  (`MessageReturns.SignatureComesBack`, `MessageReturns.BackfillAfterReturn`,
  `MessageLimits.OtherSignatureStays`,
  `MessageLimits.OtherSignatureOutlivesBackfill`).
- The Riffado index is in the first commit of a push. A push that dies before
  the update of a note leaves that note stale until the next full cycle
  (`RiffadoPush.DeadPush`, `RiffadoPush.StaleNote`).
- A clock that jumps far ahead and back lets an alert be repeated within its
  cooldown (`AlertClocks.CooldownIff`, `AlertClocks.ClockBackRepeats`).
- A cooldown key joins names with a bar, so names that hold one can share a
  cooldown (`AlertFacts.KeyIff`, `AlertFacts.BarsCollide`).
- Of two boxes whose union is 0, as two equal ones without width or two of
  opposite areas, suppression drops one although they overlap nothing
  (`Nms.DropsAreOverlapsIff`, `Nms.EmptyBoxesDrop`, `Nms.OppositeAreasDrop`).
- Two suffixed items of a group whose keys agree but for case in their first
  eight characters, and two items one of whose names is but for case the
  suffixed name of the other, get paths that differ at most in case
  (`PathAssignment.InjectiveIff`, `PathAssignment.SharedPrefix`,
  `PathAssignment.PlainIsSuffixed`).

## Model

| member | source | states |
|---|---|---|
| `TreeHash.RoundTrip` | security/trivy-archive/archiver.py:157-184 | The byte stream of any value followed by any bytes decodes to the value's normal form and exactly those bytes: prefix-free and decodable |
| `TreeHash.RoundTripList` | security/trivy-archive/archiver.py:171-175 | The same for the elements of a list up to the closing bracket |
| `TreeHash.RoundTripKeys` | security/trivy-archive/archiver.py:176-181 | The same for the live fields of a dict: decoding gives the map from key to normal value |
| `TreeHash.TextRoundTrip` | security/trivy-archive/archiver.py:168-170 | A length-prefixed text followed by any bytes is read back with those bytes left over |
| `TreeHash.NumberRoundTrip` | security/trivy-archive/archiver.py:166-167 | A tagged 8-byte double followed by any bytes is read back bit for bit |
| `TreeHash.KeysAreItems` | security/trivy-archive/archiver.py:178 | Reading the sorted live keys gives the same map as the dict without its null fields: insertion order is forgotten |
| `TreeHash.SameStream` | security/trivy-archive/archiver.py:157-184 | Values with the same normal form are written as the same bytes |
| `TreeHash.StreamEqualIffNormalEqual` | security/trivy-archive/archiver.py:157-184 | Two values have the same bytes if and only if their normal forms are equal |
| `TreeHash.PrefixFree` | security/trivy-archive/archiver.py:157-184 | No value's bytes are a proper prefix of another's |
| `TreeHash.ReportStreamEqualIffSameContent` | security/trivy-archive/archiver.py:183 | Two reports feed the hash the same bytes if and only if they agree on every field, read as normal forms, other than updateTimestamp |
| `TreeHash.EqualDigests` | security/trivy-archive/archiver.py:157-184 | Equal digests mean the same content, or an explicit pair of different streams that collide under the hash |
| `TreeHash.Visit` | security/trivy-archive/archiver.py:160-182 | Feeding a value to the hash object appends exactly its byte stream; it fails if and only if some integer does not convert to a double |
| `TreeHash.VisitElements` | security/trivy-archive/archiver.py:171-175 | The loop over a list appends the elements' streams in order and fails exactly on an unencodable element |
| `TreeHash.VisitFields` | security/trivy-archive/archiver.py:176-181 | The loop over the sorted live keys of a dict appends keys and values in that order |
| `TreeHash.ReportHash` | security/trivy-archive/archiver.py:157-184 | The method returns the hash of the report's stream, or the overflow error exactly when the report is not encodable |
| `TreeBytes.KeysInOrder` | security/trivy-archive/archiver.py:178 | The keys written for a dict are exactly those whose value is not null, each once, strictly ascending by code points |
| `TreeBytes.ByteAt` | security/trivy-archive/archiver.py:167 | Byte j of the eight is the one with 7 - j bytes after it: most significant first |
| `TreeBytes.Tags` | security/trivy-archive/archiver.py:161-177 | The tags and brackets of each kind of value, and the nine bytes of the integer 0 |
| `Doubles.SmallIntegerIsExact` | security/trivy-archive/archiver.py:166-167 | An integer of at most 53 bits becomes the double of the same value, with the sign bit set exactly if it is negative; 0 is the positive zero |
| `Doubles.SmallIntegersDiffer` | security/trivy-archive/archiver.py:166-167 | Integers of at most 53 bits have the same bytes if and only if they are equal |
| `Doubles.LargeIntegerIsRounded` | security/trivy-archive/archiver.py:166-167 | A larger integer becomes the nearest multiple of the spacing of doubles, and OverflowError is raised exactly when that is 2^1024 or more |
| `Doubles.NearestIs` | security/trivy-archive/archiver.py:166-167 | The rounding is to nearest, ties to even |
| `Partition.PyEqReflexive` | security/trivy-archive/archiver.py:238 | Python's `==` holds between a NaN-free value and itself |
| `Partition.Summarize` | security/trivy-archive/archiver.py:198-204 | The counting loop returns the severity counts, or the first exception in order and of its kind |
| `Partition.GatherParts` | security/trivy-archive/archiver.py:228-240 | The loop over the part names returns the findings of all parts in order, or the first failure |
| `Partition.TryManifest` | security/trivy-archive/archiver.py:216-243 | The body of the `try` block: merged report, caught exception or escaping exception |
| `Partition.IndexReports` | security/trivy-archive/archiver.py:207 | The index by namespace and name is the last report of each key |
| `Partition.FindOrphans` | security/trivy-archive/archiver.py:208-211 | The orphan roots are the roots named by parts and absent from the index |
| `Partition.ScanLoop` | security/trivy-archive/archiver.py:213-247 | The loop over the reports returns the tally of the verdicts on top of the orphans already counted; None exactly when an exception escapes |
| `Partition.CollectReports` | security/trivy-archive/archiver.py:187-248 | The whole of `complete_reports`: the complete reports in order and orphans plus rejected manifests, None exactly when an exception escapes |
| `Equality.IntEqIff` | security/trivy-archive/archiver.py:238 | An integer equals a double if and only if it is the value of the double, exactly |
| `Equality.NaNIff` | security/trivy-archive/archiver.py:238 | Not a number is the largest exponent with a fraction that is not 0; infinities are numbers |
| `Equality.NumEqIff` | security/trivy-archive/archiver.py:238 | Numbers without NaN are equal if and only if they have the same value, whatever their types |
| `Equality.DictEqIff` | security/trivy-archive/archiver.py:205-206 | Two dicts are equal if and only if they have the same keys with equal values, in any order |
| `Equality.PyEqIff` | security/trivy-archive/archiver.py:238 | Python's `==` on JSON values without NaN is equality of canonical forms: exact numbers, dicts as maps |
| `Equality.FalsyIff` | security/trivy-archive/archiver.py:226 | What `not v` is true of: null, a zero, an empty text, list or dict |
| `Equality.SameHeaderIff` | security/trivy-archive/archiver.py:205-206 | Two bodies have equal headers if and only if they agree on every field but vulnerabilities, summary and updateTimestamp |
| `Counting.SummaryCounts` | security/trivy-archive/archiver.py:198-204 | Each of the four severities is counted under its own name, whatever its case, and every other finding as unknown |
| `Counting.SummaryFields` | security/trivy-archive/archiver.py:199 | The summary is a dict of six fields, each holding its own count, noneCount always 0 |
| `Counting.ByNameIs` | security/trivy-archive/archiver.py:207 | The index holds exactly the keys listed, each with the last report that has it |
| `Counting.OrphansAre` | security/trivy-archive/archiver.py:208-211 | An orphan root is a key that some part names as its root and no listed report has |
| `Counting.PartNamesIff` | security/trivy-archive/archiver.py:219-221 | The parts annotation is taken if and only if it is a non-empty list of different strings, and as those |
| `Counting.EveryReportCounted` | security/trivy-archive/archiver.py:187-248 | Without an exception the ordinary reports are returned in their order; of manifests and reports of unknown mode each is returned or counted, counted if and only if it is not accepted; the rest of the count is one per orphan root |
| `Aborts.SummaryEscapesIff` | security/trivy-archive/archiver.py:198-204 | Counting raises AttributeError if and only if the first finding that cannot be counted is a dict whose severity is not a string |
| `Aborts.CheckPartEscapesIff` | security/trivy-archive/archiver.py:228-240 | A part raises it if and only if its annotations refer to the manifest and its report field is not a dict, or its header fits and its findings start that way |
| `Aborts.JudgeAbortsIff` | security/trivy-archive/archiver.py:216-247 | A manifest ends the scan if and only if its annotations pass the checks and its report field is there but not a dict, or it has no findings of its own and the first of its parts that does not pass raises it |
| `Aborts.AbortsIff` | security/trivy-archive/archiver.py:187-248 | `complete_reports` ends in an exception if and only if some manifest of the list ends the scan, through a severity that is not a string or a report field that is not a dict |
| `Aborts.NullSeverityAborts` | security/trivy-archive/archiver.py:201-202 | An instance: a manifest and its one part, whose finding has severity null |
| `Reassembly.Accepted` | security/trivy-archive/archiver.py:216-244 | An accepted manifest names distinct parts of its own namespace, each with its root, generation, position, header and correct own summary; its findings are theirs in order; its summary is the per-severity sum of theirs; its digest is the recorded generation |
| `Reassembly.AcceptedIff` | security/trivy-archive/archiver.py:216-244 | A manifest is accepted if and only if every check on it, on each of its parts and on the merged whole passes |
| `Reassembly.SummaryFlatten` | security/trivy-archive/archiver.py:198-204 | The summary of concatenated findings is the per-severity sum of the pieces' summaries |
| `Reassembly.AcceptedIsTheRecordedReport` | security/trivy-archive/archiver.py:220-244 | What is accepted has the same content as any report whose digest is the recorded generation, or a collision of the hash is at hand |
| `Reassembly.PartsDisjoint` | security/trivy-archive/archiver.py:228-237 | A report that is part of two accepted manifests makes them the same manifest, and it is a part, not a manifest |
| `Reassembly.OnlyWholeReports` | security/trivy-archive/archiver.py:213-247 | A report is returned if and only if it is the verdict on some listed report; it is then an ordinary report as listed or a manifest with another body, and never a part |
| `Reassembly.OrderIrrelevant` | security/trivy-archive/archiver.py:187-248 | With unique names, permuting the input changes neither the multiset of complete reports nor the incomplete count nor whether an exception escapes |
| `Reassembly.SplitReassembles` | security/trivy-archive/archiver.py:220-244 | A report cut into one or more slices and written as manifest and parts, among any other reports, is reassembled to exactly the original |
| `Reassembly.SplitIsReported` | security/trivy-archive/archiver.py:187-248 | That original is among the complete reports returned |
| `Reassembly.WriteThenRead` | security/trivy-archive/archiver.py:187-248 | Any report, cut any way and written as manifest and parts, read back as a list gives exactly that report and no incomplete set |
| `Reassembly.WrittenIsSplit` | security/trivy-archive/archiver.py:228-243 | What the writer stores is a split in the sense of the checks |
| `Pruning.PruneKeepsStream` | security/trivy-archive/test_archiver.py:111-117 | Dropping null fields at every level does not change the bytes that are hashed |
| `Pruning.PruneKeepsEqual` | security/trivy-archive/archiver.py:238 | Values that Python calls equal stay equal when null fields are dropped from both |
| `Pruning.PruneCheckPart` | security/trivy-archive/archiver.py:228-240 | A part that passes its checks passes them after pruning, with pruned findings |
| `Pruning.PruningIsInvisible` | security/trivy-archive/test_archiver.py:111-117 | A manifest accepted before null fields are dropped from it and from every report is accepted afterwards, with the same content |
| `Coverage.LowMemoryCoverage` | security/trivy-archive/archiver.py:251-270 | The low-memory form gives the same digest-to-newest-time map as reassembling everything first; its incomplete count is never lower, and equal if and only if no part names an ordinary report as its root |
| `Coverage.CoverStream` | security/trivy-archive/archiver.py:251-270 | The method, streaming ordinary reports and keeping only partitioned ones, computes that form |
| `Coverage.MoreOrphans` | security/trivy-archive/archiver.py:208-212 | Leaving ordinary reports out of the index adds orphan roots exactly when a part names an ordinary report as its root |
| `Coverage.JudgeSame` | security/trivy-archive/archiver.py:216-247 | The verdict on a report does not depend on the ordinary reports in the index |
| `Coverage.RememberCommutes` | security/trivy-archive/archiver.py:256-259 | Remembering two reports in either order leaves the same map, or an exception either way |
| `Coverage.KnownIsNewest` | security/trivy-archive/archiver.py:256-270 | A digest is in the map if and only if some ordinary or complete report has it, at the newest time of those reports, and never below 0 |
| `Coverage.RaisesIff` | security/trivy-archive/archiver.py:251-270 | There is no coverage if and only if the scan ends in an exception, or an ordinary or complete report has a body or an artifact that is not a dict, or a digest that has no hash |
| `Reconciler.DiffReachesTarget` | apps/ai/brain/sync/brain_sync.py:1972-1988 | The operations, applied in order to the tree they were computed from, all meet their preconditions and give exactly the target |
| `Reconciler.WritesApply` | apps/ai/brain/sync/brain_sync.py:1974-1983 | The create and update operations bring every wanted path to its wanted content and touch no other |
| `Reconciler.DeletesApply` | apps/ai/brain/sync/brain_sync.py:1984-1986 | The deletions remove exactly the dropped paths |
| `Reconciler.PartialPush` | apps/ai/brain/sync/brain_sync.py:1972-2015 | After any number of the operations every precondition was met and each path is as it was or as wanted |
| `Reconciler.ResumeUnkept` | apps/ai/brain/sync/brain_sync.py:1972-2015 | brain-sync: computing again from any such half-way tree aims at the same target |
| `Reconciler.ResumeDoomed` | apps/ai/brain/messages/messages_sync.py:422-469 | brain-messages: the same, with an explicit list of deletions |
| `Reconciler.QuietIffAtTarget` | apps/ai/brain/sync/brain_sync.py:1987-1988 | No operation is issued if and only if the tree already is the target |
| `Reconciler.RerunIsQuiet` | apps/ai/brain/sync/brain_sync.py:1987-1988 | Running again after a complete push issues nothing |
| `Reconciler.ConcurrentEdits` | apps/ai/brain/sync/brain_sync.py:1972-2015 | Operations computed from one listing are all accepted by a tree that has moved on if and only if it has not moved at any path they are about |
| `Commits.BatchesLossless` | apps/ai/brain/sync/brain_sync.py:1994-2002 | The batches concatenate to the operations in order; each is non-empty and is one operation or fits the byte limit |
| `Commits.BatchesOptimal` | apps/ai/brain/sync/brain_sync.py:1994-2002 | No other in-order split whose pieces obey the same rule has fewer pieces |
| `Commits.StaysAhead` | apps/ai/brain/sync/brain_sync.py:1994-2002 | The greedy packing stays ahead of any other split from any point on |
| `Commits.LargerCostsOne` | apps/ai/brain/sync/brain_sync.py:1994-2002 | A larger open batch costs at most one more commit |
| `Commits.LargerCostsMore` | apps/ai/brain/sync/brain_sync.py:1994-2002 | A larger open batch never saves a commit |
| `Commits.SizeIs` | apps/ai/brain/sync/brain_sync.py:1994-1998 | A content counts four bytes for every three begun, a deletion none |
| `Commits.PackLoop` | apps/ai/brain/imports/brain_imports.py:193-201 | The packing loop computes the greedy batches |
| `Commits.WriteLoop` | apps/ai/brain/sync/brain_sync.py:1974-1983 | The loop over the wanted files yields the create and update operations |
| `Commits.DeleteLoop` | apps/ai/brain/sync/brain_sync.py:1984-1986 | The loop over the existing files yields the deletions |
| `Commits.Forgejo.Post` | apps/ai/brain/sync/brain_sync.py:2003-2011 | A commit applies all its operations or none, and is accepted exactly if all preconditions hold in order |
| `Commits.Push` | apps/ai/brain/sync/brain_sync.py:2003-2012 | Pushing in order, and dying after any number of commits, leaves the tree with exactly the pushed batches applied |
| `Commits.ApplyChanges` | apps/ai/brain/sync/brain_sync.py:1972-2015 | Each path is as before or as wanted; the commits made are the first of the batches, as many as there is budget for; all of them give the target; at the target there is no commit |
| `Commits.SyncDirectory` | apps/ai/brain/sync/brain_sync.py:1972-2015 | brain-sync: afterwards the tree is exactly the wanted files and the kept ones that were there |
| `Commits.SyncMessages` | apps/ai/brain/messages/messages_sync.py:422-469 | brain-messages: afterwards the wanted files are there, the listed deletions are gone unless wanted, and the others are as they were |
| `Commits.CommitImport` | apps/ai/brain/imports/brain_imports.py:209-238 | An import is committed if and only if the directory is as it was fetched, and then holds exactly the imported files; otherwise nothing changes |
| `Messages.FetchChatMessages` | apps/ai/brain/messages/messages_sync.py:507-524 | The paging loop returns the messages and cutoff of the fetch function |
| `Messages.FetchPrefix` | apps/ai/brain/messages/messages_sync.py:507-524 | A fetch holds the dated messages among the first k the server has; all of them if there is no cutoff; a cutoff is the start of the last message's month and is only made in a second month and with the budget used up |
| `Messages.CutoffFacts` | apps/ai/brain/messages/messages_sync.py:507-524 | A cutoff is the start of a month later than where the fetch began and not beyond the newest message |
| `Messages.FetchComplete` | apps/ai/brain/messages/messages_sync.py:507-524 | Below the cutoff, or everywhere without one, a fetch misses no message |
| `Messages.FilterSort` | apps/ai/brain/messages/messages_sync.py:704 | Sorting by date and row and then filtering is filtering and then sorting, because the sort is stable |
| `Messages.FilterDedupe` | apps/ai/brain/messages/messages_sync.py:703-710 | Dropping repeated guids commutes with keeping a month, if repeats fall in the same month |
| `Messages.KeepLoop` | apps/ai/brain/messages/messages_sync.py:703-710 | The loop keeps the first message of each guid inside the window |
| `Messages.SliceOfKept` | apps/ai/brain/messages/messages_sync.py:703-713 | One month of the messages kept depends only on that month's messages |
| `Messages.FullSlice` | apps/ai/brain/messages/messages_sync.py:703-713 | The same for a full render of the whole history |
| `MessageSync.FetchLoop` | apps/ai/brain/messages/messages_sync.py:695-701 | The loop over the chats fetches each with what is left of the budget, at least 1 |
| `MessageSync.SyncThreadLoop` | apps/ai/brain/messages/messages_sync.py:692-738 | `sync_thread` computes the files, deletions, new state and count of the sync function |
| `MessageSync.CommonCutoff` | apps/ai/brain/messages/messages_sync.py:702 | The minimum of the cutoffs is the start of a month later than the cursor's and not beyond the newest message |
| `MessageSync.WindowComplete` | apps/ai/brain/messages/messages_sync.py:695-710 | Below every chat's cutoff nothing of any chat is missing |
| `MessageSync.WindowPage` | apps/ai/brain/messages/messages_sync.py:692-724 | Inside its window the incremental sync renders the same page as a full render |
| `MessageSync.PagesInside` | apps/ai/brain/messages/messages_sync.py:711-721 | Nothing outside the window is rendered |
| `MessageSync.SyncEffect` | apps/ai/brain/messages/messages_sync.py:692-738 | One sync: in the months of its window notes and counts become those of a full render, in all other months they stay as they were |
| `MessageFacts.ShownMessages` | apps/ai/brain/messages/messages_sync.py:704-710 | A full render shows exactly the messages with a date since `since`, each guid once as its earliest copy, by date and then by row |
| `MessageFacts.TiesInChatOrder` | apps/ai/brain/messages/messages_sync.py:704 | Messages of one date and row stay in the order of the chats |
| `MessageFacts.FetchStopsRight` | apps/ai/brain/messages/messages_sync.py:513-524 | A fetch ends after the first full number of pages with the budget used up and a second month reached, cut off at the start of the last month; if there is none it has everything |
| `MessageFacts.BudgetOfChat` | apps/ai/brain/messages/messages_sync.py:696-697 | Each chat is fetched with what the chats before it left of the budget, and at least 1 |
| `MessageFacts.FetchedAll` | apps/ai/brain/messages/messages_sync.py:695-702 | Without a cutoff exactly the messages with a date from the cursor on are fetched |
| `MessageFacts.SyncRemembers` | apps/ai/brain/messages/messages_sync.py:726-738 | Without a cutoff `last` is the newest date fetched or what it was, the cursor starts the month of the newest message shown, or stays if there is none, and the number fetched is right; with one only months, cursor and pending change |
| `MessageFacts.FromScratch` | apps/ai/brain/messages/messages_sync.py:692-738 | From the beginning, without `since` and without a cutoff, one sync leaves a full render whatever the folder and the counts were, and deletes nothing it writes |
| `MessageRuns.FinishedSync` | apps/ai/brain/messages/messages_sync.py:692-738 | A finished sync keeps the invariant, and without a cutoff leaves exactly one full render |
| `MessageRuns.DiedSync` | apps/ai/brain/messages/messages_sync.py:909-912 | A run that dies before the index commit keeps every month before the committed cursor |
| `MessageRuns.OneRun` | apps/ai/brain/messages/messages_sync.py:866-912 | One run, finished, idle or dead: what it keeps and when it leaves the thread exact |
| `MessageRuns.NewThread` | apps/ai/brain/messages/messages_sync.py:871-875 | A thread seen for the first time satisfies everything an execution starts from |
| `MessageRuns.EveryRunIsExact` | apps/ai/brain/messages/messages_sync.py:831-912 | Over every execution from a state such as a new thread's, through any finished, idle and dead runs with changes only in or after the month of the cursor: a run that does not die leaves every month before the cursor's right; a finished run without a cutoff leaves notes and counts equal to one full render; so does a run that ends with nothing to sync, idle or not, if what changed was newer than `last` and the newest message stayed |
| `MessageRuns.EndsSettled` | apps/ai/brain/messages/messages_sync.py:880-881 | A run that ends with nothing to sync leaves the thread exact, if it was exact whenever it had nothing to sync |
| `MessageRuns.NothingChanged` | apps/ai/brain/messages/messages_sync.py:880-881 | Histories with nothing newer than `last` that agree up to `last` are equal |
| `MessageRuns.SyncCommitted` | apps/ai/brain/messages/messages_sync.py:885-899 | The real loop performs the finished step of the run model |
| `MessageRuns.ResumeAfterDeath` | apps/ai/brain/messages/messages_sync.py:909-912 | The run repeated after dying between any two commits reaches the same state and folder as the uninterrupted one |
| `MessageRuns.PendingAdvances` | apps/ai/brain/messages/messages_sync.py:728-730 | A sync that was cut off moves the cursor to the start of a strictly later month, never past the newest message |
| `MessageRuns.BackfillEnds` | apps/ai/brain/messages/messages_sync.py:692-738 | With a finite history, after at most one sync per remaining month the thread is no longer pending and is exact, whatever the budgets |
| `MessageLimits.MonthsDetermine` | apps/ai/brain/messages/messages_sync.py:711-713 | Messages in order are determined by their months |
| `MessageLimits.IdleIsExactIff` | apps/ai/brain/messages/messages_sync.py:880-890 | A run that leaves the thread alone, not due or without budget, leaves an exact folder exact if the messages to show are the same as before; if other messages would look different, only then |
| `MessageLimits.LateMessageIsMissed` | apps/ai/brain/messages/messages_sync.py:880-881 | An instance: a message dated no later than `last` arrives late, the thread is not due, and it is not exact any more |
| `MessageLimits.StarvedIsStale` | apps/ai/brain/messages/messages_sync.py:890 | An instance: a thread that is due but gets no budget ends its run without `pending`, and is not exact |
| `MessageReturns.EndsExactIff` | apps/ai/brain/messages/messages_sync.py:831-912 | From any folder whatever, through any runs under the committed signature that finish, idle or die, with changes only in or after the month of the cursor: a finished run without a cutoff leaves exactly one full render if and only if every month before the first cursor's was right |
| `MessageReturns.PartialIsPushed` | apps/ai/brain/messages/messages_sync.py:909 | Every half-pushed folder comes from pushing the notes of some months |
| `MessageReturns.SignatureComesBack` | apps/ai/brain/messages/messages_sync.py:871-881 | A run under another signature died after pushing the notes of some months, and the committed signature comes back to an exact thread that is not due: the idle thread is exact if and only if every pushed month that the dead run rendered has the same text under both signatures |
| `MessageReturns.BackfillAfterReturn` | apps/ai/brain/messages/messages_sync.py:866-912 | The same for a thread in the middle of its backfill, or with anything else left to sync: through any later runs under the committed signature, when one finishes without a cutoff the thread is exact if and only if every month before the committed cursor that the dead run pushed and rendered has the same text under both |
| `MessageLimits.OtherSignatureStays` | apps/ai/brain/messages/messages_sync.py:871-881 | An instance: the note of the dead run stays, and the thread is not exact |
| `MessageLimits.OtherSignatureOutlivesBackfill` | apps/ai/brain/messages/messages_sync.py:866-912 | An instance in the middle of a backfill: the next run ends the backfill, and the note of the dead run is still there |
| `MessagePush.PushTarget` | apps/ai/brain/messages/messages_sync.py:422-469 | Pushing a sync's files and deletions aims at exactly the folder the sync describes |
| `MessagePush.BetweenIsPartial` | apps/ai/brain/messages/messages_sync.py:422-469 | A half-pushed tree is a folder each of whose notes is old or new |
| `MessagePush.PushThread` | apps/ai/brain/messages/messages_sync.py:909 | The batched content push, dying anywhere, leaves a folder the run model accepts |
| `Riffado.RenderLoop` | apps/ai/brain/sync/brain_sync.py:597-608 | The loop over the recordings computes files, kept paths and index |
| `Riffado.EachHandled` | apps/ai/brain/sync/brain_sync.py:597-608 | Every recording is kept with its entry if its note is there and recorded at its path with its signature and the cycle is not full, left out if it has no details, rendered and indexed otherwise, whatever the other recordings do |
| `Riffado.CycleIsFullRender` | apps/ai/brain/sync/brain_sync.py:585-619 | A cycle from a truthful index leaves a full render and a truthful index |
| `Riffado.CachedEqualsFull` | apps/ai/brain/sync/brain_sync.py:2031-2041 | After any sequence of incremental and full cycles the notes are those of a full render of the last listing |
| `Riffado.FullRenderUnique` | apps/ai/brain/sync/brain_sync.py:585-619 | A listing has only one full render |
| `Riffado.DeathAfterIndex` | apps/ai/brain/sync/brain_sync.py:2031-2041 | From a folder with the new index and notes each old or new, the next cycle over the same listing gives a full render if and only if no note's update is missing |
| `RiffadoPush.GoalIs` | apps/ai/brain/sync/brain_sync.py:2031-2041 | A complete push leaves exactly the notes and the index of the cycle |
| `RiffadoPush.IndexInFirstBatch` | apps/ai/brain/sync/brain_sync.py:1974-2002 | A changed index file is the first operation of the first commit |
| `RiffadoPush.PushedSoFar` | apps/ai/brain/sync/brain_sync.py:2003-2012 | After k commits a path is as before if its operation is still to come, and as wanted otherwise |
| `RiffadoPush.DeadTree` | apps/ai/brain/sync/brain_sync.py:2003-2012 | After k commits of the push the tree holds the notes that are old where an operation is still to come and new elsewhere, and the new index if k > 0 |
| `RiffadoPush.DeadPush` | apps/ai/brain/sync/brain_sync.py:2031-2041 | After a push that died after k commits, the next cycle over the same listing gives a full render if and only if k is 0 or no later commit updates a note |
| `RiffadoPush.StaleNeedsLaterCommit` | apps/ai/brain/sync/brain_sync.py:1994-2012 | If it does not, at least one commit was pushed and a later one holds the update of a note |
| `RiffadoPush.StaleNote` | apps/ai/brain/sync/brain_sync.py:1994-2012 | An instance for any commit limit: the new note does not fit the commit of the index, and the old note stays |
| `RiffadoPush.PushFolder` | apps/ai/brain/sync/brain_sync.py:1972-2015 | The push, dying after any number of commits, leaves the tree with exactly the pushed batches applied |
| `Riffado.AssignedListing` | apps/ai/brain/sync/brain_sync.py:596 | Recordings with the paths of path assignment are a listing with distinct paths, unless two of them clash |
| `Riffado.FullCycleRepairs` | apps/ai/brain/sync/brain_sync.py:2034-2038 | A full cycle gives a full render from any folder and any index |
| `Gmail.GmailSync.MatchThreads` | apps/ai/brain/sync/brain_sync.py:1795-1835 | The two matching loops compute the matched threads, their order, the calls and the metadata cache |
| `Gmail.MatchingSound` | apps/ai/brain/sync/brain_sync.py:1795-1829 | Matching spends at most two thirds of the calls and lists each matched thread once |
| `Gmail.LookAllJustified` | apps/ai/brain/sync/brain_sync.py:1805-1829 | A listed thread is matched by the rules, or carried over from the index untouched |
| `Gmail.NotLostToBudget` | apps/ai/brain/sync/brain_sync.py:1812-1819 | A listed thread of the index is matched unless the rules, applied to what is known or fetched, turn it down: never lost to lack of budget |
| `Gmail.RenderLoop` | apps/ai/brain/sync/brain_sync.py:1838-1862 | The rendering loop handles the threads in order |
| `Gmail.GmailSync.RenderGmail` | apps/ai/brain/sync/brain_sync.py:1780-1868 | One run of `render_gmail`: its result and cache, within the budget, index in agreement with the notes |
| `Gmail.WithinBudget` | apps/ai/brain/sync/brain_sync.py:1839-1857 | Calls and remaining budget add up, and the budget never goes below 0 |
| `Gmail.Agreement` | apps/ai/brain/sync/brain_sync.py:1838-1868 | The indexed paths are exactly the notes left, with deferred, stale and path-stealing threads included |
| `Gmail.RunIsSound` | apps/ai/brain/sync/brain_sync.py:1780-1868 | For a whole run: at most GMAIL_MAX_FETCH calls, and index and notes agree |
| `Gmail.Ownership` | apps/ai/brain/sync/brain_sync.py:1836-1868 | If the old index and the new paths give every thread its own path, so does the new index |
| `Gmail.DeferredKeepsNote` | apps/ai/brain/sync/brain_sync.py:1850-1868 | A matched thread whose note exists stays indexed, or its path was taken by another thread, or it has no messages left |
| `Gmail.AssignedPaths` | apps/ai/brain/sync/brain_sync.py:1836 | The paths of path assignment are distinct, unless two threads clash |
| `GmailNotes.CallsForUnknown` | apps/ai/brain/sync/brain_sync.py:1801-1827 | Matching makes one call for each listed thread that neither cache nor index has at its history id, as long as there is budget, and no other |
| `GmailNotes.MatchedIsCurrent` | apps/ai/brain/sync/brain_sync.py:1801-1829 | A matched listed thread is taken at its listed history id from the cache or the index; if neither has it, as the server answers, or stale from the index |
| `GmailNotes.AgedIff` | apps/ai/brain/sync/brain_sync.py:1830-1835 | An indexed thread that is not listed is matched, stale, if and only if it is older than the window and its people still match |
| `GmailNotes.MatchedInOrder` | apps/ai/brain/sync/brain_sync.py:1801-1829 | The listed threads that match are taken in the order of the list |
| `GmailNotes.AgedInOrder` | apps/ai/brain/sync/brain_sync.py:1830-1835 | After them those that fell out of the window, in the order of the index |
| `GmailNotes.NewestFirstOrder` | apps/ai/brain/sync/brain_sync.py:1840 | Threads are rendered newest first, and threads of one time in the order they were matched |
| `GmailNotes.EachFate` | apps/ai/brain/sync/brain_sync.py:1841-1868 | What becomes of each matched thread: if note, history id, links and version are unchanged, or it is stale, its note stays; else with budget it is fetched and rendered, or dropped without an answer; else its old note stays if there is one |
| `GmailNotes.NothingDeferred` | apps/ai/brain/sync/brain_sync.py:1841-1868 | If a run ends with budget left, every matched thread that changed was rendered or had no answer |
| `GmailNotes.RunIsTruthful` | apps/ai/brain/sync/brain_sync.py:1780-1872 | A run from a truthful index leaves one: every indexed thread has its own note, which says what the entry records, and there is no other note |
| `GmailNotes.EveryRunIsTruthful` | apps/ai/brain/sync/brain_sync.py:1780-1872 | The same over every sequence of runs from an empty folder, whatever the budgets and answers |
| `PathAssignment.AssignPaths` | apps/ai/brain/sync/brain_sync.py:317-330 | Every item gets the plain name if it is first of its group and the suffixed one otherwise, and no other key gets a path |
| `PathAssignment.GroupLoop` | apps/ai/brain/sync/brain_sync.py:320-322 | The groups are the items whose names fold alike, in order |
| `PathAssignment.AssignGroup` | apps/ai/brain/sync/brain_sync.py:325-329 | In a sorted group the first gets the plain name, the others their suffix; other keys keep their paths |
| `PathAssignment.OwnsIffLeast` | apps/ai/brain/sync/brain_sync.py:325-327 | The plain name goes to the item with the least key among those whose names fold alike |
| `PathAssignment.AddingRenames` | apps/ai/brain/sync/brain_sync.py:317-330 | Adding an item renames an existing one if and only if that one owns the plain name of its group and has the larger key |
| `PathAssignment.LaterKeysAreStable` | apps/ai/brain/sync/brain_sync.py:317-330 | An item whose key sorts after its group's keys changes no existing name |
| `PathAssignment.ClashIff` | apps/ai/brain/sync/brain_sync.py:317-330 | Two items get names equal but for case if and only if they are suffixed items of one group with key prefixes equal but for case, or one's plain name is the other's suffixed name |
| `PathAssignment.InjectiveIff` | apps/ai/brain/sync/brain_sync.py:317-330 | The assignment is case-insensitively injective if and only if no two items clash that way |
| `PathAssignment.PathsDiffer` | apps/ai/brain/sync/brain_sync.py:317-330 | Without a clash different items get different paths |
| `PathAssignment.SharedPrefix` | apps/ai/brain/sync/brain_sync.py:326-329 | An instance: two keys of a group that share their first eight characters, and both items get the same path |
| `PathAssignment.PlainIsSuffixed` | apps/ai/brain/sync/brain_sync.py:326-329 | An instance: a plain name that is another item's suffixed name, and both items get the same path |
| `Chunks.ChunkLoop` | apps/ai/graph/ingest/brain_ingest.py:297-318 | The loops compute the chunks and terminate; a text within the limit is one chunk as it is |
| `Chunks.ChunksFit` | apps/ai/graph/ingest/brain_ingest.py:297-318 | Chunks of a non-empty text are non-empty and at most the limit long, and together hold its non-blank characters in order |
| `Chunks.ParagraphsInk` | apps/ai/graph/ingest/brain_ingest.py:302 | Splitting into paragraphs loses nothing but white space |
| `Chunks.CutAt` | apps/ai/graph/ingest/brain_ingest.py:303-305 | A long paragraph is cut at the last blank of the second half of the limit, or at the limit if there is none |
| `ChunkFacts.SplitIsWhole` | apps/ai/graph/ingest/brain_ingest.py:302 | The text is its paragraphs woven with separators of white space between two line breaks; none is left inside a paragraph, and each was taken whole |
| `ChunkFacts.SpaceIff` | apps/ai/graph/ingest/brain_ingest.py:302 | White space is what `\s` matches: 29 characters |
| `ChunkFacts.InkIs` | apps/ai/graph/ingest/brain_ingest.py:297-318 | The ink of a text is the text without its white space |
| `ChunkFacts.LongParagraph` | apps/ai/graph/ingest/brain_ingest.py:303-310 | A paragraph that is too long closes the open chunk and is cut into pieces, each at the last blank of the second half of the limit or at the limit, with the white space between pieces dropped; all but the last are chunks of their own |
| `ChunkFacts.ShortParagraphs` | apps/ai/graph/ingest/brain_ingest.py:311-318 | Short paragraphs are packed in order with an empty line between them, and no chunk has room for the paragraph after it |
| `Ingest.PendingList` | apps/ai/graph/ingest/brain_ingest.py:436-451 | The pending notes are exactly the non-empty ones not recorded under their hash and with fewer than MAX_ATTEMPTS failures for it, in the order newest first |
| `Ingest.PendingIff` | apps/ai/graph/ingest/brain_ingest.py:437-445 | That is when a note is pending: in particular it is tried again until MAX_ATTEMPTS failures are recorded for its hash |
| `Ingest.NewerIff` | apps/ai/graph/ingest/brain_ingest.py:446-451 | Newest first: the later date, dated before undated, then the greater path |
| `Ingest.Worker.Remove` | apps/ai/graph/ingest/brain_ingest.py:374-380 | The episodes are removed from the graph except exactly those whose removal failed, which are counted as leaked |
| `Ingest.Worker.Add` | apps/ai/graph/ingest/brain_ingest.py:382-406 | If the call for every chunk works, one new live episode per chunk, saying that chunk; if and only if one fails, no new episode left but those whose rollback failed |
| `Ingest.Worker.Clear` | apps/ai/graph/ingest/brain_ingest.py:462-466 | The entry of a note goes and so do its episodes, but for failed removals |
| `Ingest.Worker.Record` | apps/ai/graph/ingest/brain_ingest.py:467-486 | A note without entry is recorded for its body if all its calls work, and gets one more failure for this hash if not |
| `Ingest.Worker.Attempt` | apps/ai/graph/ingest/brain_ingest.py:457-489 | One note: recorded for its body with fresh episodes and no failure, or unrecorded with one more failure for this hash; every other note untouched; the invariants kept |
| `Ingest.Worker.DropDeleted` | apps/ai/graph/ingest/brain_ingest.py:426-434 | Afterwards only existing notes are recorded, existing notes are untouched and the episodes of the rest are gone |
| `Ingest.Worker.Restart` | apps/ai/graph/ingest/brain_ingest.py:331-340 | A restart from a saved state under another render version keeps the invariants |
| `Ingest.Worker.Batch` | apps/ai/graph/ingest/brain_ingest.py:457-500 | The first notes are tried, BATCH_SIZE of them unless the worker stops or a failure is taken for an unreachable service; each is recorded or has one more failure, and `done` counts the recorded; no other note changes and no note gains attempts |
| `Ingest.Worker.Cycle` | apps/ai/graph/ingest/brain_ingest.py:409-504 | The early exit changes nothing; otherwise the newest pending notes are tried with the effect of a batch, all other existing notes stay as they were, notes that are gone are dropped, and the backlog is that more was pending than was done |
| `Ingest.Worker.Settle` | apps/ai/graph/ingest/brain_ingest.py:409-504 | At a fixed head, unless it starts with the early exit and work pending: after at most one cycle per attempt left and one more, every non-empty note is current or has MAX_ATTEMPTS failures for its hash, and a recorded note is current if and only if it is not empty (or what it was recorded for and the empty note are an explicit collision of the digest); if additions work, every note that was to be done is current |
| `Ingest.SettledNotes` | apps/ai/graph/ingest/brain_ingest.py:437-445 | That state of the notes follows from the invariants once the early exit applies |
| `Ingest.DropNote` | apps/ai/graph/ingest/brain_ingest.py:463-466 | Removing a note's episodes keeps live episodes the disjoint union of recorded and leaked ones |
| `Ingest.RecordNote` | apps/ai/graph/ingest/brain_ingest.py:480-485 | So does recording a note with fresh episodes |
| `Ingest.FailedAdd` | apps/ai/graph/ingest/brain_ingest.py:403-405 | So does an addition that failed and was rolled back |
| `Ingest.LiveIsRecorded` | apps/ai/graph/ingest/brain_ingest.py:374-406 | When no removal failed, the live episodes are exactly the recorded ones |
| `Ingest.HashedDetermines` | apps/ai/graph/ingest/brain_ingest.py:420-423 | The hashed text, version, line break and body, determines version and body |
| `Ingest.CurrentNoteIsWhole` | apps/ai/graph/ingest/brain_ingest.py:297-318 | The episodes of a current note are within the limit and together say the characters of a text in order but for white space; the text is the note's, recorded under this version, or the two hashed texts are an explicit collision of the digest |
| `Ingest.StillRecorded` | apps/ai/graph/ingest/brain_ingest.py:382-406 | New episodes do not change what recorded ones say |
| `Ingest.CycleEnds` | apps/ai/graph/ingest/brain_ingest.py:409-504 | The steps of a cycle add up to the effect of a cycle |
| `IngestLimits.CycleAfterBump` | apps/ai/graph/ingest/brain_ingest.py:410-416 | The first cycle under a render version that no recorded hash has, with at least one non-empty note, tries nothing if and only if the head has not moved and there is no backlog |
| `IngestLimits.AttemptsRestored` | apps/ai/graph/ingest/brain_ingest.py:436-451 | Under a render version that no recorded hash has, every non-empty note has all its attempts again |
| `IngestLimits.SettleAfterBump` | apps/ai/graph/ingest/brain_ingest.py:409-504 | Under such a version, with a moved head or a backlog, every non-empty note becomes current under it or runs out of attempts, in at most one cycle per non-empty note and attempt and one more |
| `IngestLimits.BumpIsSkipped` | apps/ai/graph/ingest/brain_ingest.py:410-416 | An instance: a settled worker restarts with another version; its note is pending and the early exit is taken |
| `IngestLimits.EmptiedNoteStays` | apps/ai/graph/ingest/brain_ingest.py:437-439 | An instance: a settled worker whose recorded note has become empty; nothing is pending and the old entry is not current |
| `Nms.NmsLoop` | apps/home/face-recognition/face-api/app/engine.py:82-99 | The loop returns the greedy choice, terminates, and its kept set obeys the rule: kept if and only if no kept box ranked before overlaps too much |
| `Nms.GreedySuppresses` | apps/home/face-recognition/face-api/app/engine.py:82-99 | The greedy choice obeys that rule for every ranking, whatever the boxes |
| `Nms.RuleIsUnique` | apps/home/face-recognition/face-api/app/engine.py:82-99 | Only one set of boxes obeys the rule |
| `Nms.KeptDoNotClash` | apps/home/face-recognition/face-api/app/engine.py:82-99 | No two kept boxes overlap by more than the threshold or have a union of 0, proper boxes or not |
| `Nms.DropsAreOverlapsIff` | apps/home/face-recognition/face-api/app/engine.py:82-99 | For every threshold every dropped box overlaps a kept one, ranked before it and of at least its score, by more than the threshold, if and only if no two boxes have a union of 0 |
| `Nms.ProperDrops` | apps/home/face-recognition/face-api/app/engine.py:82-99 | In particular boxes with ordered corners are only dropped for their overlap |
| `Nms.EmptyBoxesDrop` | apps/home/face-recognition/face-api/app/engine.py:96-98 | An instance: of two equal boxes without width the second is dropped although they share nothing |
| `Nms.OppositeAreasDrop` | apps/home/face-recognition/face-api/app/engine.py:96-98 | An instance: boxes of areas 1 and -1, far apart, have a union of 0, and the second is dropped |
| `Nms.BestIsKept` | apps/home/face-recognition/face-api/app/engine.py:85-89 | The first ranked box has the best score and is kept |
| `Nms.InterBounds` | apps/home/face-recognition/face-api/app/engine.py:90-97 | Two proper boxes share no more than the area of either, so the quotient is defined |
| `Pixels.InterIsPixels` | apps/home/face-recognition/face-api/app/engine.py:90-95 | For boxes with whole coordinates the intersection is the number of pixels in both |
| `Pixels.AreaIsPixels` | apps/home/face-recognition/face-api/app/engine.py:84 | The area of such a box with ordered corners is the number of its pixels |
| `Pixels.UnionIsPixels` | apps/home/face-recognition/face-api/app/engine.py:96 | The union is the number of pixels in either |
| `Alerts.CleanLoop` | apps/misc/freshrss/bi-pipeline/pipeline.py:606-615 | The cleanup keeps exactly the entries with a positive time no older than the limit |
| `Alerts.RouteItem` | apps/misc/freshrss/bi-pipeline/pipeline.py:3141-3177 | One item goes to the list its route says, and only an alert enters the history |
| `Alerts.RouteLoop` | apps/misc/freshrss/bi-pipeline/pipeline.py:2885-2889 | One run: the lists hold exactly the items routed to them, each under its customer and in order, and the saved history is the cleaned one |
| `Alerts.InOnePlace` | apps/misc/freshrss/bi-pipeline/pipeline.py:3141-3177 | Every (article, customer) pair is in exactly one place: alert, watchlist, needs-data or dropped |
| `Alerts.SameVerdict` | apps/misc/freshrss/bi-pipeline/pipeline.py:3165-3167 | The pruned history and the log of everything ever sent agree on what is cooling down |
| `AlertClocks.CooldownIff` | apps/misc/freshrss/bi-pipeline/pipeline.py:606-615 | For all clocks: whatever there is to route, alerts with the same key are a cooldown apart if and only if no alert can be forgotten in one run and fall within its cooldown in a later one |
| `AlertClocks.CooldownHolds` | apps/misc/freshrss/bi-pipeline/pipeline.py:2885-2889 | In particular over every sequence of saved runs with a clock that does not go back, so no run sends two |
| `AlertClocks.LongAgo` | apps/misc/freshrss/bi-pipeline/pipeline.py:3165-3167 | Without such a lapse, what is not cooling down was last sent at least a cooldown ago |
| `AlertClocks.LapseRepeats` | apps/misc/freshrss/bi-pipeline/pipeline.py:606-615 | With one, an item that turns up in the two runs alerts twice within a cooldown |
| `AlertClocks.ClockBackRepeats` | apps/misc/freshrss/bi-pipeline/pipeline.py:606-615 | An instance: the clock jumps ahead by more than the age limit, and back |
| `Alerts.PruningIsInvisible` | apps/misc/freshrss/bi-pipeline/pipeline.py:3523-3527 | Every run routes every item as a pipeline would that never forgets anything |
| `AlertFacts.RouteTable` | apps/misc/freshrss/bi-pipeline/pipeline.py:3141-3177 | Which route an article takes, for each route exactly when: needs-data, alert, the three reasons for the watchlist, dropped |
| `AlertFacts.KeyIff` | apps/misc/freshrss/bi-pipeline/pipeline.py:3165 | Two articles share a cooldown if and only if customer, story and event type are the same, for names without a bar |
| `AlertFacts.BarsCollide` | apps/misc/freshrss/bi-pipeline/pipeline.py:3165 | An instance: with a bar in a name two customers share a cooldown |
| `AlertFacts.AgeLimit` | apps/misc/freshrss/bi-pipeline/pipeline.py:2888 | History is kept for the longer of 30 days and six cooldowns |
| `AlertFacts.CleanedIff` | apps/misc/freshrss/bi-pipeline/pipeline.py:606-615 | The cleanup keeps an entry, unchanged, if and only if it has a positive time no older than the limit |
| `SplitPoints.Quietest` | apps/ai/riffado/nemotron/adapter.py:231-232 | The window found is the first of least energy |
| `SplitPoints.SplitLoop` | apps/ai/riffado/nemotron/adapter.py:221-236 | The chunks follow each other from 0 to the end, none longer than CHUNK_MAX, a cut being made only where the rest is longer; all but the last are at least 0.85 of CHUNK_TARGET and end in the middle of the quietest window of their range; it fails if and only if the audio is too long and the range holds no window |
| `SplitPoints.CutFits` | apps/ai/riffado/nemotron/adapter.py:227-234 | One cut: the chunk it ends is neither too long nor too short |
| `SplitPoints.RangeIs` | apps/ai/riffado/nemotron/adapter.py:228-230 | The search range lies between 0.85 of CHUNK_TARGET and CHUNK_MAX, to the sample, and whole windows of half a second fill it |
| `SplitPoints.EnergyAddsUp` | apps/ai/riffado/nemotron/adapter.py:231 | The energy of a window is the sum of the squares of its samples |

## Left out

- TreeHash.ReportHash: the compression function of SHA-256 is a parameter, and strings that have no UTF-8 form (lone surrogates) are not modelled.
- Partition.TryManifest: the parts annotation is given as parsed JSON (or as not parsing); reports and their annotations are given as records, so `metadata` of another shape is not modelled.
- Coverage.CoverStream: a digest that is a number or a boolean counts as none, and the timestamp parser is a parameter.
- Commits.CommitImport: the fetch and the run of the import scripts, and the dry-run output of all three services, are not modelled; commits of an import are not cut short.
- MessageRuns.EveryRunIsExact: one thread at a time; the order in which threads share a run's budget, folder renames, threads that leave the allowlist and the choice of threads are not modelled, so a run may give a thread any budget.
- MessageRuns.SyncCommitted: the months' text is a function of the thread's signature, the month and its messages; contact names that are not part of the signature are not modelled.
- Riffado.CachedEqualsFull: the README note of the folder and the index file's own text are not part of the notes, and the whole push is one step except in `Riffado.DeathAfterIndex` and in RiffadoPush.dfy.
- Gmail.GmailSync.RenderGmail: the matching rules, the link signature and the path assignment are parameters; labels of index entries are empty as in the code. What is proved of the notes' texts takes the run's push as one step. The mail index too is in the first commit of a push, so a push that dies before the update of a note can leave that note stale as in RiffadoPush.dfy; that is not proved here.
- Ingest.Worker.Add: the header line that names the note and the part is not part of an episode's text here; adding one episode happens or does not; a process killed between an addition and the saving of the state is not modelled.
- Ingest.HashedDetermines: a render version with a line break in it is not modelled.
- Ingest.Worker.Restart: another chunk limit, batch size or number of attempts at a restart is not modelled.
- Ingest.Worker.Cycle: notes are a function of the branch head, so a head that moves between reading it and reading the notes is not modelled; metrics and the time a note refers to are not modelled.
- Chunks.ChunkLoop: limits below 1 are not modelled; the code would not end.
- Nms.NmsLoop: coordinates are real numbers, so rounding is not modelled; the sorting is a given ranking, with ties in any order.
- Alerts.RouteLoop: scores, minimums and the needs-data check are given; a run that dies between sending its alerts and saving its state is not modelled; counters and reports are left out.
- SplitPoints.SplitLoop: samples are real numbers and windows are compared by energy, which orders them as their root mean square does; negative configured lengths are not modelled.
- Meerkat, HubSpot, Pages, entity pages, mirrors, exporters, dashboards, webhooks and manifests: glue or single-branch code.
- Scoring weights, redaction, Markdown text, time zones: functions of their inputs here.
- archiver.py prune, receipts and inventory: file handling.
