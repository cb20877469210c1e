# kt-signal-connector: a verified model of its core

This project models, in Dafny, the parts of `kt-signal-connector` where many small
steps have to add up to one promise, and proves those promises for every input, every
run and every reachable state.

| file | what it models |
|---|---|
| `AttachmentCrypto.dfy`, `AttachmentSink.dfy`, `AttachmentDecrypt.dfy` | downloading one sealed attachment: the capped, streaming sink with its 32-byte holdback, the MAC and digest gates, and the chunked CBC decryption with padding and size checks |
| `Calendar.dfy`, `Timestamps.dfy`, `ArtifactLifecycle.dfy` | the civil-date arithmetic, timestamped file names, and the directory of plaintext exports over repeated builds |
| `RuntimePointers.dfy` | staging, activating and rolling back engine versions, as steps between which the process may stop and versions may become corrupt |
| `BoundedLines.dfy`, `ImportModel.dfy`, `ImportRows.dfy`, `ImportDriver.dfy`, `ImportIdentity.dfy`, `PinQueue.dfy` | the history import: capped line reading, the two passes, batches, pins, counters, cancellation, store failures and retries, and what row identities and the queue of pinned messages make of it |
| `Contacts.dfy`, `Projection.dfy`, `Artifact.dfy`, `BackupExport.dfy`, `PlaintextExport.dfy` | both exports: merging peers into contacts, ids, the sender map, the capped writer, row gates, reactions, and the line stream |
| `MediaGovernor.dfy`, `HandleTables.dfy` | the media retention pass, and the two tables of open chunk streams |
| `Identifiers.dfy`, `Order.dfy`, `Basics.dfy` | stable identifiers, the byte order on names, sorting, and small shared types |

Code that updates state step by step is a class or a loop proved against a
specification function or predicate; the promises are then lemmas about the
specification. Block ciphers, hashes, the identifier hash, address parsers, the sizes
of serialised lines, directory listings, read sizes, clocks, random handles and store
failures are parameters: the results hold for every choice of them, and a lemma that
needs more (a cipher whose decryption inverts its encryption, a hash that tells lists of
parts without zero bytes apart) says so in its `requires`. A `string` stands for its UTF-8 encoding, one
character for each byte, so its length is the length the source measures.

Some results say that a promise fails, and exactly when:

- File names order as the times they carry if and only if the times stay below
  253402300800 seconds (`Timestamps.NamesOrderAsTimesIff`); the year 10000 breaks it.
- The skip counter for reactions is the number of reactions that reach no line if and
  only if in every chat no reaction read is for a time two lines share, or every one
  read has a line (`PlaintextExport.SkipsAreLostIff`). Shown plus skipped equals stored
  if and only if the extra showings are at most as many as the reactions without a line
  (`PlaintextExport.ReactionsConservedIff`). Two rows of one time break either
  (`PlaintextExport.ConservationFails`, `PlaintextExport.OrphanGoesUncounted`).
- The ACI table of an export is collected from pairs of ACI and peer key
  (`src/store.rs:8620-8636`) and looked up by peer key (`src/backup_export.rs:253-262`),
  against the comment there. It never helps as long as stored ACIs parse as ACIs
  (`Projection.TableIsNoHelp`, with the exact condition in
  `Projection.RecordedAciFoundIff`), and a peer known by its number can become two
  contacts (`Projection.SomePeerBecomesTwo`).
- A notice of one family keeps out a notice of another in the same chat at the same time
  if and only if their senders agree (`ImportIdentity.NoticesClashIff`), although each
  family has an id of its own.
- A build that comes to nothing loses the latest artifact if and only if that was made
  in the second in which the cleanup ran and the cleanup got as far
  (`ArtifactLifecycle.LatestLostIff`).
- The pinned messages of a conversation do not depend on the order and number of times in
  which pins arrive if and only if every pin at the top is alone with its target and time
  and at most three targets are at least as new (`PinQueue.OrderIsImmaterialIff`). Where
  that fails, importing an archive again can change them
  (`PinQueue.RerunChangesTheQueue`).
- A pin's row is in the store after an import if and only if it was there before or is
  offered under an id that the store did not have (`ImportIdentity.PinRowStoredIff`). So
  it is for all rows the program makes, except that a merge of conversations can move a
  row away from its pin (`ImportIdentity.MovedRowLosesItsPin`).

## Model

| member | source | states |
|---|---|---|
| AttachmentCrypto.CbcRoundTrip | src/history_attachment.rs:583-605 | CBC decryption undoes CBC encryption for every key, initial block and aligned text |
| AttachmentCrypto.CbcDecryptConcat | src/history_attachment.rs:492-517 | decrypting two aligned stretches one after the other, carrying the last cipher block, is decrypting their concatenation |
| AttachmentCrypto.UnpadInvertsPad | src/history_attachment.rs:522-533 | an aligned text unpads to a message exactly when it is that message padded, so no other padding is accepted |
| AttachmentCrypto.NextPowerOfTwo | src/history_attachment.rs:302-305 | the least power of two not below the size |
| AttachmentCrypto.SealedLength | src/history_attachment.rs:302-305 | a sealed body is exactly as long as the cap for its plaintext size |
| AttachmentCrypto.SealThenOpen | src/history_attachment.rs:583-605 | the verdict on a sealed body is its plaintext, for every plaintext, key and initial block |
| AttachmentCrypto.AcceptedBodyIsAuthentic | src/history_attachment.rs:435-549 | an accepted body is within its cap, carries its own MAC and the expected digests, and decrypts to the padded plaintext, whose length is the declared size |
| AttachmentCrypto.VerdictIsExact | src/history_attachment.rs:357-549 | each answer has its exact condition on the body: too large only above the cap, bad MAC only below 64 bytes or with a wrong trailer, wrong digest, no padded message, message shorter than declared, wrong hash, and otherwise acceptance, whatever follows the plaintext in the padded message |
| AttachmentSink.BodySink.SetMacKey | src/history_attachment.rs:350-355 | setting the key forgets what the MAC had been fed, so it is harmless exactly before the first byte is released |
| AttachmentSink.BodySink.Push | src/history_attachment.rs:357-397 | MAC input plus holdback, digest input and file are one and the same byte string; a chunk past the cap is refused and changes nothing |
| AttachmentSink.BodySink.Finish | src/history_attachment.rs:399-423 | a short body is a bad MAC; otherwise the trailer, the MAC of everything before it and the digest of everything |
| AttachmentSink.PushAll | src/supervisor.rs:2361-2373 | any chunking of a body is accepted exactly when the body is within the cap, and stores exactly the body |
| AttachmentSink.ConstantTimeEq | src/history_attachment.rs:309-318 | the accumulating comparison is equality |
| AttachmentSink.VerifyCiphertext | src/history_attachment.rs:435-450 | the MAC is judged before the digest, and the digest only if one is expected |
| AttachmentDecrypt.PlainWriter.Emit | src/history_attachment.rs:554-571 | what has been written is always the beginning, up to the declared size, of everything emitted |
| AttachmentDecrypt.DecryptBlocks | src/history_attachment.rs:505-513 | block by block decryption in place is the one-shot CBC decryption and leaves the right chaining block |
| AttachmentDecrypt.StripPadding | src/history_attachment.rs:522-526 | the byte loop over the last block is the padding specification |
| AttachmentDecrypt.Absorb | src/history_attachment.rs:503-516 | one read keeps the streaming invariant: what is carried and written determines the decryption of everything read so far |
| AttachmentDecrypt.CloseRegion | src/history_attachment.rs:518-549 | from the streaming invariant, the last block gives the answer of the one-shot reference |
| AttachmentDecrypt.DecryptRegion | src/history_attachment.rs:485-549 | under every schedule of reads the answer is that of the one-shot reference on the bytes delivered; the carry never exceeds a chunk and 31 bytes |
| AttachmentDecrypt.DecryptToFile | src/history_attachment.rs:459-549 | misshapen bodies are bad padding; under every schedule of non-empty reads result and output equal the one-shot reference, with its error order; success means result, output length and declared size agree |
| AttachmentDecrypt.Download | src/supervisor.rs:2359-2395 | for every chunking and read schedule each answer is given exactly on its condition; a body of at least 64 bytes within the cap, with its own MAC and the expected digest, whose region decrypts to the padded plaintext and any tail, with the declared size and hash, gives that plaintext, and nothing else does |
| AttachmentDecrypt.DownloadSealed | src/supervisor.rs:2359-2395 | downloading a sealed plaintext in any chunks yields that plaintext |
| Calendar.CivilIsNthDay | src/backup_export.rs:1856-1869 | for every day count the era arithmetic gives that many calendar successors of 1970-01-01 under the Gregorian leap rule, with a proper month and day |
| Timestamps.FormatOrder | src/backup_export.rs:1856-1874 | below the limit, lexicographic order of formatted times is the order of the times |
| Timestamps.FormatLength | src/backup_export.rs:1870-1874 | below the limit every formatted time has 19 characters |
| Timestamps.FormatInjective | src/backup_export.rs:1856-1874 | below the limit different seconds get different names |
| Timestamps.FormatReadsBack | src/backup_export.rs:1856-1874 | reading the fields of any formatted time back gives the day counted from 1970 and the hour, minute and second that make up the time |
| Timestamps.OrderBreaksAtLimit | src/backup_export.rs:1856-1874 | the first second of the year 10000 sorts before the second it follows |
| Timestamps.NamesOrderAsTimesIff | src/backup_export.rs:1149-1167 | names of all times below a bound order as the times if and only if the bound is at most 253402300800 |
| ArtifactLifecycle.ExportDirectory.RemoveTemporaries | src/backup_export.rs:1200-1214 | every temporary goes, everything else stays, and the artifact names are returned; a process that dies after so many deletions has removed so many temporaries and nothing else |
| ArtifactLifecycle.ExportDirectory.KeepNewest | src/backup_export.rs:1215-1227 | exactly the artifacts that are not newest, or carry the name about to be used, go; a process that dies after so many deletions has removed the newest so many of them |
| ArtifactLifecycle.ExportDirectory.Prepare | src/backup_export.rs:1200-1227 | after preparation only the newest older artifact and unrelated files remain; cut off after so many deletions, temporaries have gone first and then the due artifacts newest first |
| ArtifactLifecycle.ExportDirectory.Build | src/backup_export.rs:1250-1284 | one build, killed in the cleanup, failing or killed later, or succeeding, leaves the directory the specification of an attempt allows |
| ArtifactLifecycle.ExportDirectory.Latest | src/backup_export.rs:1171-1176 | the latest artifact is the newest name, and absent only when there is none |
| ArtifactLifecycle.NameOrder | src/backup_export.rs:963-973 | artifact names order as their times and are equal only for equal times |
| ArtifactLifecycle.NameIsFree | src/backup_export.rs:1250-1284 | with a clock that never runs back the final rename overwrites nothing |
| ArtifactLifecycle.AttemptKeeps | src/backup_export.rs:1250-1284 | one attempt keeps: at most two artifacts, each the whole output of a successful build |
| ArtifactLifecycle.RunsKeepTheDirectory | src/backup_export.rs:1200-1284 | over every run of attempts at most two artifacts exist, each the whole output of some successful build, and after a success the latest is that build's file |
| ArtifactLifecycle.LatestLostIff | src/backup_export.rs:1215-1227 | an attempt that comes to nothing loses the latest artifact if and only if that carries the second at which the cleanup read the clock and, where it was killed in the cleanup, the deletions made exceed the temporaries listed |
| ArtifactLifecycle.OnlyAKillLeavesATemporary | src/backup_export.rs:1260-1283 | an attempt that succeeds or fails leaves no temporary file whatever it found; a killed one leaves exactly its own |
| RuntimePointers.RunsAreSafe | src/lkg.rs:84-184 | in every state reachable by staging, activation, rollback, crashes and corruption, every pointer names a published version, staged is never the fallback, and an operation under way agrees with the disk |
| RuntimePointers.PointersStaySet | src/lkg.rs:125-184 | over every run, active and fallback once set stay set and published versions stay published |
| RuntimePointers.ActivationLeavesAWayBack | src/lkg.rs:125-161 | an activation that consumes the staged pointer ends with that version active and a fallback that differs from it |
| RuntimePointers.LkgWasActive | src/lkg.rs:125-161 | the fallback was the active version at some earlier point of the run |
| RuntimePointers.ActivationSavesPrevious | src/lkg.rs:143-161 | in every run, when the staged pointer goes, the version staged when that activation began is active, and the fallback is the version active when it began if that differs and verified when it was looked at, else what it was |
| RuntimePointers.RollbackUndoesActivation | src/lkg.rs:125-184 | in every run, a rollback that finds the fallback verifying, with no activation begun in between, makes the version active again that was active when the last activation began |
| RuntimePointers.CutOffStagingStaysOut | src/lkg.rs:84-111 | a version whose staging stopped between publishing it and pointing to it is never staged, active or fallback in any later state of the run |
| RuntimePointers.PromotionWasVerified | src/lkg.rs:125-184 | a version on its way to becoming active was verified earlier in the same operation |
| RuntimePointers.ActiveMovesOnlyToVerified | src/lkg.rs:125-184 | whenever the active pointer changes, it is set, and to a version verified in that operation |
| RuntimePointers.ActivationFinishes | src/lkg.rs:125-161 | uninterrupted, the steps of an activation end in the specified pointers |
| RuntimePointers.ReplayCompletes | src/lkg.rs:125-161 | activation stopped at any step and run again ends with the pointers and the answer of the uninterrupted one |
| RuntimePointers.ReplaysComplete | src/lkg.rs:125-161 | the same for any number of interrupted attempts |
| RuntimePointers.RuntimeLayout.StageBundle | src/lkg.rs:84-111 | error order layout, existing version, rejected bundle, and then nothing changes; on success the version is published with the policies its bundle passes, staged names it, and active and fallback stay |
| RuntimePointers.RuntimeLayout.ActivateStaged | src/lkg.rs:125-161 | field by field: without a verifying staged version nothing changes; with one it becomes active, staged goes, and the fallback is the version that was active if that is another one and verifies, else what it was; the answer is that version, or a verifying active one when nothing is staged |
| RuntimePointers.RuntimeLayout.RollbackToLkg | src/lkg.rs:175-184 | succeeds exactly when a fallback is set and verifies; active is then the fallback, and nothing else changes |
| BoundedLines.SplitJoin | src/history_import.rs:204-254 | splitting the joined lines gives the lines back |
| BoundedLines.JoinSplit | src/history_import.rs:204-254 | joining the split of a stream gives the stream back, so no byte is lost or invented |
| BoundedLines.ReadBoundedLine | src/history_import.rs:204-254 | one call yields the next line, or one overlong mark for a line past the cap, leaves the reader just after it, and never holds more than the cap, whatever the buffer refills |
| BoundedLines.ReadAllLines | src/history_import.rs:204-254 | one line for each piece of the newline split, the piece itself if it is within the cap and a mark otherwise |
| ImportModel.ResolveStable | src/history_import.rs:1549-1597 | conversations created by an import do not change how any chat resolves |
| ImportModel.DemandStable | src/history_import.rs:1549-1597 | nor what an archive asks to be stored |
| ImportRows.StagedIsLast | src/history_import.rs:351-399 | staging holds the last recipient frame, and the last chat frame with a recipient, of every id |
| ImportRows.ResolvedIsLocated | src/history_import.rs:1549-1597 | a chat resolves exactly to its recipient: a group by master key, oneself by the own number, a contact by number before ACI, in the stored or minted conversation, notes to oneself under the own ACI |
| ImportRows.MessageIsOneRow | src/history_import.rs:618-862 | a message in a located chat is exactly one row if it has content and is outgoing or by a named author, else one skip; the row has the frame's direction, time and conversation, and for sender the account, the author's ACI with the hashes of number and ACI as alternates, or the hash of the number |
| ImportRows.FrameAsks | src/history_import.rs:526-1425 | every frame asks for exactly the rows owed by its shapes (message, timer, group change, joined, number changed, title, merge), one each, in order, with conversation, direction, time, sender, alternates and id told from the frame and the staged recipients |
| ImportRows.SkipsAreLost | src/history_import.rs:515-1425 | what a frame counts as skipped, told from the frame and the staged recipients: call records, unusable messages, messages without content or author, group changes by nobody named, updates of other kinds, notices without material |
| ImportRows.FramesPin | src/history_import.rs:955-985 | the pins asked for are those of the messages asked for, under their conversation and time |
| ImportRows.InsertAllImports | src/store.rs:9463-9580 | offering all that an archive asks for leaves a store in which nothing is gone, everything new is asked for by a frame, and everything asked for is there under one of its spellings |
| ImportRows.AskedIsStored | src/store.rs:9463-9580 | a row asked for is stored as it is unless the store or another row asked for is the same message |
| ImportModel.OfferedIsStored | src/store.rs:9463-9580 | after a batch every row in it counts as a duplicate |
| ImportModel.DuplicatesChangeNothing | src/store.rs:9463-9580 | a batch of duplicates stores nothing and counts nothing as new |
| ImportModel.InsertAllConcat | src/history_import.rs:1842-1861 | batches add up: cutting a sequence of inserts into batches changes neither the rows nor the count of new ones |
| ImportModel.PrefixThenAll | src/history_import.rs:1842-1861 | inserting a beginning and then everything is inserting everything |
| ImportModel.AllAgain | src/history_import.rs:1842-1861 | inserting everything twice stores the same rows, none new |
| ImportModel.FrameCoversUnits | src/history_import.rs:497-985 | what one frame stores or skips is its number of bubbles and notice faces, or one for a malformed message or a call |
| ImportModel.DemandCoversUnits | src/history_import.rs:497-985 | the same for a whole archive |
| ImportDriver.Importer.InsertHistoryBatch | src/store.rs:9463-9580 | a batch lands whole or not at all; new plus duplicate rows is its size |
| ImportDriver.Importer.ApplyPins | src/history_import.rs:1842-1861 | queued pins are appended in order, each after the batch with its row; cut off by a failure, a beginning of them has been |
| ImportDriver.Importer.Flush | src/history_import.rs:1842-1861 | a flush books the batch into rows and counters and then appends its pins, or fails with the batch landed whole or not at all |
| ImportDriver.Importer.Enqueue | src/history_import.rs:953-985 | adding a row, flushing when the batch is full, keeps rows, counters, batch and pins in balance with the demand so far, and every pin behind the batch with its row |
| ImportDriver.Importer.HandleTimerChange | src/history_import.rs:1230-1332 | a timer change adds exactly its demand |
| ImportDriver.Importer.HandleGroupUpdate | src/history_import.rs:1334-1431 | a group update adds exactly its demand |
| ImportDriver.Importer.HandleSimpleUpdate | src/history_import.rs:1093-1142 | a simple update adds exactly its demand |
| ImportDriver.Importer.HandleFamily | src/history_import.rs:994-1066 | a notice of one family adds exactly its demand |
| ImportDriver.Importer.HandleNotice | src/history_import.rs:581-617 | the notice faces of a message add exactly their demand, in order |
| ImportDriver.Importer.HandleBubble | src/history_import.rs:618-985 | a bubble adds exactly its row and pin, or one skip; `ImportRows.MessageIsOneRow` says which |
| ImportDriver.Importer.EnsureConversation | src/store.rs:4763-4806 | the conversation found or created has the id fixed by its key |
| ImportDriver.Importer.ChatFor | src/history_import.rs:1549-1597 | the cached resolution equals the specification, lost chats are counted once each, and a chat costs at most two writes, its conversation and its timer |
| ImportDriver.Importer.HandleMessage | src/history_import.rs:526-985 | a message adds exactly its demand and names its chat |
| ImportDriver.Importer.HandleLine | src/history_import.rs:497-524 | a line adds exactly its demand; overlong, unparseable and unknown lines are the skipped lines |
| ImportDriver.Importer.Run | src/history_import.rs:479-495 | the second pass ends complete with everything booked, or cut short with a beginning of the demand landed; it fails only when the granted writes are used up, and uses no more than the archive asks for |
| ImportDriver.Importer.PassOne | src/history_import.rs:351-400 | the first pass stages exactly the recipients and chats of the archive, the last of each id, with at most one write for each line and two at the end |
| ImportDriver.Importer.RunImport | src/history_import.rs:271-346 | a completed import: rows, imported, skipped messages, skipped lines, skipped chats and pins are exactly as specified; however it ends, a beginning of the rows and of the pins is in the store and every pin was appended after the batch with its row and before any other batch; given enough writes it is cancelled exactly if aborted, and completes otherwise; after a completed import nothing is gone, every new row is one that some frame asks for as its own fields and the staged recipients say, every row asked for is there under one of its spellings, and the pins logged are those of the messages |
| ImportDriver.PartAfterPart | src/history_import.rs:1842-1861 | two cut-short attempts leave what the longer of them leaves |
| ImportDriver.LandedThenAll | src/history_import.rs:271-346 | completing after a cut-short attempt stores what one full run would have stored |
| ImportDriver.ImportWithRetries | src/history_import.rs:271-346 | after any attempts, each aborted anywhere or failing at any write, an attempt with enough writes completes, and whenever it completes the rows are those of one full run and every pin has been appended |
| ImportDriver.ImportTwice | src/history_import.rs:271-346 | with enough writes both runs complete; the first imports the new rows and accounts for every unit, the second imports none, skips what the first imported and skipped, and leaves the rows |
| ImportDriver.WantedPinsStored | src/history_import.rs:953-985 | the row each pin points at is among the rows of the archive and counts as stored afterwards |
| ImportIdentity.PinRowStoredIff | src/store.rs:9463-9580 | for any store, a row of the pin's conversation and time is there after the import if and only if one was there before or one is offered under an id that the store did not have |
| ImportIdentity.MintTells | src/service.rs:3695-3702 | of the ids the program makes for received, sent, notice and story rows, only those of the same conversation and time are ids of an imported row |
| ImportIdentity.PinnedRowIsStored | src/history_import.rs:953-985 | in a store of rows with ids of the program's making, not moved to another conversation since, every pin of the archive has a row of its conversation and time after the import |
| ImportIdentity.MovedRowLosesItsPin | src/store.rs:3631-3648 | a row that a merge moved keeps its id, so that an archive offering it in its old conversation leaves the pin without a row |
| ImportIdentity.LeftOutIff | src/store.rs:9463-9580 | an offered row is left out if and only if the store had it before, or an earlier row of the same offer that was stored clashes with it |
| ImportIdentity.NoticesClashIff | src/history_import.rs:987-1066 | for texts without zero bytes, two notices of one chat and time keep each other out if and only if their senders agree, although every family has its own id |
| ImportIdentity.PeerNoticesCollapse | src/history_import.rs:581-617 | of all the rows of one frame that have the peer as their sender at most one is stored, whatever the store holds |
| ImportIdentity.PeerNoticesAre | src/history_import.rs:581-617 | a timer change and a joined notice make two such rows, whatever stands between them, and so do a title transition and a thread merge |
| Identifiers.JoinInjective | src/ids.rs:12-21 | non-empty lists of parts without zero bytes are told apart by their join |
| Identifiers.DigestTellsApart | src/ids.rs:12-21 | with a digest without collisions such lists have different identifiers |
| Identifiers.JoinIsAmbiguous | src/ids.rs:12-21 | a zero byte inside a part makes two lists one, whatever the digest |
| PinQueue.QueueRepresents | src/store.rs:7829-7900 | after any appends the queue holds at most three pins, one for each target, and for every pin appended either one of its target at least as new or three at least as new |
| PinQueue.HeldIsTop | src/store.rs:7829-7900 | a pin in the queue is the newest of its target and fewer than three targets are strictly newer |
| PinQueue.QueueIsTheTop | src/store.rs:7829-7900 | for decided pins the queue is exactly those |
| PinQueue.QueueIgnoresOrder | src/store.rs:7829-7900 | decided pins leave the same queue in whatever order and however often they are appended |
| PinQueue.OrderIsImmaterialIff | src/store.rs:7829-7900 | the queue is the same for every order and repetition of the pins if and only if every pin at the top is alone with its target and time and at most three targets are at least as new as it |
| PinQueue.RerunChangesTheQueue | src/store.rs:7829-7900 | a conversation and an archive for which importing twice leaves another queue than importing once |
| PinQueue.TiesFollowTheOrder | src/store.rs:7875-7890 | of four pins of one time the one stored first goes |
| ImportIdentity.PinsConverge | src/history_import.rs:1842-1861 | after any attempts and a completed one every conversation has the pinned messages of a single import, if its pins are decided |
| Contacts.RecordContact | src/backup_export.rs:289-320 | the in-place merge of one observation is the specified one, and answers the contact's key or that it is a skeleton |
| Contacts.MergeHolds | src/backup_export.rs:289-320 | after any observations a key is present exactly if observed, has the ACI its key names, and holds exactly the non-empty ACIs, numbers and raw spellings observed for it |
| Contacts.FirstWins | src/backup_export.rs:303-312 | name and number of a contact are the first usable ones offered for it |
| Contacts.MergeIgnoresOrder | src/backup_export.rs:289-320 | keys, ACIs and spellings depend only on which observations were made |
| Contacts.AllocateIds | src/backup_export.rs:555-558 | contacts are numbered 1, 2, ... in key order and otherwise unchanged |
| Contacts.IdsAreDense | src/backup_export.rs:555-558 | ids are distinct and lie between 1 and the number of contacts |
| Contacts.SenderMap | src/backup_export.rs:569-576 | a hash leads to the last contact in key order having a spelling with that hash in either namespace, and is absent if none has |
| Contacts.SendersUnique | src/backup_export.rs:569-576 | keys and sets of spellings determine the sender map |
| Contacts.ProjectionIgnoresOrder | src/backup_export.rs:551-576 | for observations in any order: the same keys, ids, ACIs, spellings and sender map |
| Contacts.SpellingResolves | src/backup_export.rs:569-576 | where different spellings have different hashes, a spelling that one contact alone has leads to that contact |
| Contacts.DigestTellsSpellings | src/ids.rs:12-21 | they have, for every account and all spellings, when the digest has no collisions |
| Projection.Collector.RecordRosterMembers | src/backup_export.rs:328-377 | a roster adds one observation per member that is named and is not the account |
| Projection.Collector.TakeContactRows | src/backup_export.rs:478-506 | cached rows yield the merge of their observations, their groups, and one skeleton per unusable row |
| Projection.Collector.TakeConversations | src/backup_export.rs:508-549 | conversations yield their observations, groups, chats in order, and skeletons |
| Projection.Project | src/backup_export.rs:463-576 | the projection is the merge of all observations, under the ACI table as collected, numbered, with its groups, chats and sender map |
| Projection.RecordedAciFoundIff | src/backup_export.rs:253-262 | an ACI is found for a peer if and only if the peer key parses to it, or parses to none and the last pair spelled like the key in its ACI column holds that ACI as its peer key |
| Projection.TableIsNoHelp | src/backup_export.rs:470-474 | when every stored ACI parses as one, the table adds nothing to any peer identity |
| Projection.RecordedPeerBecomesTwo | src/backup_export.rs:478-506 | a peer cached under its number, with its ACI on record and in a group roster under both, becomes two contacts |
| Projection.SwappedPairKeepsOne | src/backup_export.rs:253-262 | with the pair the other way round it is one contact |
| Projection.SomePeerBecomesTwo | src/backup_export.rs:478-506 | such a peer exists |
| Projection.RowOrderIsImmaterial | src/backup_export.rs:478-576 | permuting the cached rows changes no id, spelling set, group, chat or sender |
| Projection.ChatsAreKnown | src/backup_export.rs:508-563 | every chat's contact or group is in the projection |
| Projection.ContactsAreSeen | src/backup_export.rs:478-531 | the contacts are exactly those seen in a cached contact row, in the roster of a cached group with a master key, or as the peer of a direct conversation, the account excepted, each with exactly the spellings it was seen under |
| Projection.MemberIsOneIdentity | src/backup_export.rs:348-377 | a roster member with an ACI and a number is one identity with both |
| Projection.ChatsAreConversations | src/backup_export.rs:508-549 | chats are, in order, exactly the conversations with somewhere to go: one's own to oneself, direct ones to the peer's contact, group ones to their group |
| Projection.RowSkeletonsAre | src/backup_export.rs:478-506 | skipped rows are the cached peers with neither ACI nor number and the cached groups without a master key |
| Projection.ConversationSkeletonsAre | src/backup_export.rs:508-549 | skipped conversations are the direct and group ones with nowhere to go |
| Artifact.ArtifactWriter.WriteLine | src/backup_export.rs:417-432 | a line is taken exactly if the stream with it is within all three caps, and is then appended; otherwise the file is unchanged and the error names the first cap it violates |
| Artifact.ArtifactWriter.WriteLines | src/backup_export.rs:664-703 | a section is written whole exactly if the stream with it is within the caps; otherwise the error names what the first line that does not fit violates |
| Artifact.WriteHeader | src/backup_export.rs:654-703 | account, contacts, groups and chats are written in that order exactly if they fit |
| Artifact.StreamIsClosed | src/backup_export.rs:654-796 | contact, group and chat ids run from 1 without gaps, each chat refers to oneself or an earlier line of its kind, each item to an earlier chat and to oneself or an earlier contact with a spelling hashing to its sender |
| Artifact.SenderIsDeclared | src/backup_export.rs:569-576 | every sender the map knows has its contact line before the messages |
| Artifact.SenderIsWriter | src/backup_export.rs:569-576 | the sender map leads a hash to a contact exactly if that is the last one with a spelling hashing to it |
| BackupExport.WriteItems | src/backup_export.rs:709-791 | the rows of a chat are written exactly if none is too long and the stream fits; `BackupExport.ItemsTell` says which they are |
| BackupExport.ItemsTell | src/backup_export.rs:709-791 | a chat's items are, in order, exactly its rows that are history, have content and are whole, under author 0 if outgoing and else the contact with a spelling hashing to the sender |
| BackupExport.TallyCounts | src/backup_export.rs:714-780 | each counter grows by the number of rows with its cause: no history, empty or foreign rows; truncated ones; view-once, stickers, quotes and lost attachments of history rows |
| BackupExport.AllShortIff | src/backup_export.rs:765-767 | the body cap stops a build exactly if some stored row that is history, has content and is whole is longer |
| BackupExport.StreamTells | src/backup_export.rs:705-796 | over all chats, the rows on the lines are in order exactly the exported ones, and a row of a chat has its line under an author if and only if it is history with whole content by that author |
| BackupExport.RowsAreAccounted | src/backup_export.rs:709-791 | every row of a chat is an item or in exactly one of the skip counts |
| BackupExport.AllRowsAreAccounted | src/backup_export.rs:705-792 | stored rows are items plus skipped rows plus truncated bodies, over all chats |
| BackupExport.StreamOfBuildIsClosed | src/backup_export.rs:641-798 | the stream of every projection is referentially closed |
| BackupExport.BuildArtifact | src/backup_export.rs:447-595 | a build succeeds if and only if no exportable body is too long and the stream is within the caps; it then is the closed stream that tells exactly the exported rows, each in its chat under its author, and each skip counter is the number of stored rows with that cause; a refusal names the cap that the first line not fitting violates |
| PlaintextExport.GroupByTarget | src/backup_export.rs:1591-1594 | grouping reactions by target loses none and keeps their order |
| PlaintextExport.WriteChat | src/backup_export.rs:1580-1616 | one chat writes exactly its lines and counts the reactions that reached none |
| PlaintextExport.LinesTell | src/backup_export.rs:1626-1798 | a chat's lines are, in order, exactly its rows that are history with an author and content, each with the reactions read for its time, signed by oneself, the contact, or nobody known |
| PlaintextExport.ForIsExact | src/backup_export.rs:1591-1594 | a line's reactions are all those read for its time and no others |
| PlaintextExport.TallyCounts | src/backup_export.rs:1637-1744 | each counter grows by the number of rows with its cause |
| PlaintextExport.AllShortIff | src/backup_export.rs:1666-1671 | the body cap stops a build exactly if some stored row with an author has whole text that is longer |
| PlaintextExport.StreamTells | src/backup_export.rs:1504-1617 | over all chats, the rows on the lines are in order exactly the exported ones, and a message has its line if and only if it is owed one |
| PlaintextExport.RowsAreAccounted | src/backup_export.rs:1595-1611 | every row is a line or a skipped row; the running reaction count is the number on the lines |
| PlaintextExport.AllRowsAreAccounted | src/backup_export.rs:1580-1617 | stored rows are message lines plus skipped rows, over all chats |
| PlaintextExport.ChatReactionsAddUp | src/backup_export.rs:1581-1616 | in one chat, shown plus skipped is stored plus the extra showings on shared times that no orphan makes up for |
| PlaintextExport.HitsAreShowings | src/backup_export.rs:1595-1611 | counting shown reactions line by line and reaction by reaction agree |
| PlaintextExport.SkipsAreOrphansIff | src/backup_export.rs:1612-1615 | in one chat the skip count is the number of reactions not read or without a line if and only if no reaction read is for a time two lines share, or every one read has a line |
| PlaintextExport.SkipsAreLostIff | src/backup_export.rs:1581-1616 | over all chats the skip counter is that number if and only if this holds in every chat, and is never more |
| PlaintextExport.OrphanGoesUncounted | src/backup_export.rs:1614-1615 | a chat whose sum comes out right while its reaction without a line is not counted |
| PlaintextExport.ReactionsConservedIff | src/backup_export.rs:1581-1615 | over all chats, shown plus skipped equals stored if and only if in every chat the extra showings on shared times are at most as many as the reactions read that have no line; it is never less |
| PlaintextExport.DistinctTimesSuffice | src/backup_export.rs:1581-1615 | distinct times in every chat make shown plus skipped equal stored, and the skip counter the number of reactions that reach no line |
| PlaintextExport.TwinTimesBreakConservation | src/backup_export.rs:1614-1615 | two different rows of one time on lines and one reaction to it count two for one stored |
| PlaintextExport.ConservationFails | src/backup_export.rs:1614-1615 | such a chat exists |
| PlaintextExport.StreamOfBuildIsClosed | src/backup_export.rs:1504-1617 | the stream is referentially closed, reaction authors included |
| PlaintextExport.BuildPlaintext | src/backup_export.rs:1301-1443 | a build succeeds if and only if no exportable body is too long and the stream is within the caps; it then is the closed stream with its byte count, tells exactly the exported rows with their authors and reactions, and each skip counter is the number of stored rows with that cause; a refusal names the cap that the first line not fitting violates |
| MediaGovernor.Delete | src/media.rs:425-434 | one deletion moves one file and its bytes from the disk to the statistics and costs one of the budget; a failed one changes nothing |
| MediaGovernor.SweepPreviews | src/media.rs:306-334 | only stale previews go, all of them if the budget lasts |
| MediaGovernor.SweepExpired | src/media.rs:336-356 | of the files reached exactly the removable expired ones go, and the unexpired ones are passed on |
| MediaGovernor.ByAgeIsStable | src/media.rs:367-367 | the sort by modification time keeps files of equal time in listing order |
| MediaGovernor.EvictOldest | src/media.rs:358-379 | the oldest files go, only while the weight exceeds the quota, until it is met or the budget or the removable files are used up |
| MediaGovernor.SweepDir | src/media.rs:295-380 | other directories are untouched; the files that go are stale previews, expired files, and then of the unexpired files left the oldest, the newest of which still had to go to meet the quota; if budget is left nothing due remains and the quota is met |
| MediaGovernor.Governor.RunPass | src/media.rs:183-207 | deletions and leftover budget are 256, counts and bytes are exact, and every directory is swept by its own rule at its own time |
| MediaGovernor.EvictionMeansOverQuota | src/media.rs:358-379 | something is evicted only if the unexpired files that the preview phase left were over the quota |
| MediaGovernor.RemovedForSpace | src/media.rs:295-380 | a file that is neither a preview nor expired goes only for that reason, and only if no older removable one stays |
| MediaGovernor.PassSettles | src/media.rs:183-207 | a pass with budget left leaves every owned directory within its quota and nothing expired |
| MediaGovernor.PassKeepsSettled | src/media.rs:183-207 | later passes do not undo that |
| MediaGovernor.EnoughPassesSettle | src/media.rs:183-207 | with nothing downloaded in between, more passes than files over 256 settle every disk |
| MediaGovernor.PassSparesTheOrderly | src/media.rs:183-207 | a directory within its quota with nothing stale or expired is left alone, whatever the other directories hold |
| MediaGovernor.UnexpiredGoesOnlyForSpace | src/media.rs:183-207 | a file that is neither a preview nor expired goes only from an owned directory over its quota, so never from the flat pool |
| HandleTables.Run | src/media.rs:503-616 | after any calls no account holds more than 8 handles and no stream is past its size |
| HandleTables.TableIsHistory | src/media.rs:503-616 | after every run a handle is live exactly if some call opened it and none since released, outlived or reopened it, and its entry has the account, message, path and size of that call and the bytes delivered since |
| HandleTables.OpenedIffRoom | src/media.rs:503-538 | after every run an open is answered by its handle if and only if fewer than 8 of the account's streams are still open |
| HandleTables.ReadIsAnswered | src/media.rs:545-571 | after every run a read is unknown exactly if no open stream goes by its handle; otherwise the offset must be the bytes delivered, and a present file gives its next bytes up to a chunk and the size given at the open, with the end marked exactly at that size or the file's end |
| HandleTables.StreamIsFilePrefix | src/media.rs:545-570 | on every interleaving, what a live handle has delivered is as long as its position and, for an unchanged file, is the beginning of that file |
| HandleTables.EndOfStreamIsWholeFile | src/media.rs:563-570 | end of stream on an unchanged file means everything up to the size given when the stream was opened, or to the end of a shorter file, was delivered |
| HandleTables.ChunksAreContiguous | src/media.rs:545-562 | a read is answered only at the first byte not yet delivered |
| HandleTables.ReleaseIsExact | src/media.rs:576-601 | closing, clearing an account or closing a message gives up exactly the streams it names, counts them and leaves every other where it was |
| HandleTables.ReleasedStreamIsDead | src/media.rs:576-601 | once given up, a stream is answered as unknown after whatever else happens, unless its handle is drawn anew |
| HandleTables.ExpiredStreamIsDead | src/media.rs:545-615 | 300 seconds after it was opened a stream is answered as unknown, after whatever else happened and however often it was read, unless its handle is drawn anew |
| HandleTables.HandleTable.OpenHandle | src/media.rs:503-538 | expired entries go first; with fewer than 8 of the account left the handle gets an entry with the account, message, path and size given, and otherwise the call is refused; every other entry stays |
| HandleTables.HandleTable.ReadChunk | src/backup_export.rs:2015-2040 | a read moves the table and answers as specified, for both tables; refused and failed reads do not advance |
| HandleTables.ReadExactRange | src/media.rs:620-636 | reads of any sizes gather exactly the requested range, cut at the end of the file |

## Left out

- AttachmentDecrypt.Download: reads and writes do not fail, and a read before the end of the file returns at least one byte; I/O errors are not modelled.
- AttachmentCrypto.SealThenOpen: the size limits applied when a download is requested are not modelled; the result holds for every size.
- ImportDriver.Importer.RunImport: attachment repair on duplicates, quote targets, receive times, the values of conversation timers and the contents of message bodies are not modelled; rows are their identities.
- ImportDriver.Importer.ApplyPins: a pin's author, which the store keeps for display only, is not modelled.
- ArtifactLifecycle.ExportDirectory.Prepare: deletions are taken to succeed.
- RuntimePointers.RuntimeLayout.ActivateStaged: the time stamps inside pointer files are not modelled, and verification is a set of version and trust pairs.
- BackupExport.BuildArtifact: attachment entries come projected, so the rules for a valid file pointer are not modelled; nor are JSON, store errors and the removal of a partial file.
- PlaintextExport.BuildPlaintext: titles, receipt times and the quote, sticker and attachment contents of a line pass through unmodelled; a column is only absent, broken or parsed.
- Projection.Project: address and group-key parsing are parameters.
- MediaGovernor.Governor.RunPass: the modification time of a directory itself does not change while it is swept, and files whose metadata cannot be read are not seen.
- HandleTables.HandleTable.ReadChunk: a read interrupted by a signal, which the source repeats, is not modelled.
- The snapshot directory of the engine backup (`src/backup_export.rs:1825-1940`) follows the rules of the plaintext directory and would add only easy members.
- Deleting one attachment or one account's media (`src/media.rs:236-290`) is a single step.
- Integers are unbounded; the sizes and counts involved stay far below 64 bits.
- `src/doctor.rs`, `src/auth.rs`, `src/groups.rs`, `src/manifest.rs`, `src/metrics.rs`, `src/perf_metrics.rs`, `src/methods.rs`, `src/link.rs`, the process, socket and proxy code, and the rest of `src/store.rs` and `src/supervisor.rs`.
