# Heartwood, verified

A Dafny model of the governed memory store of Heartwood and of the protocols around it:
writing and erasing memories over one shared SQLite file, the tamper-evident audit log with
its out-of-database anchors, and policy-first recall. Each committed transaction is one
atomic step; processes interleave between steps and may crash there.

`dafny verify dfyconfig.toml` checks the whole project.

## How it is organised

| files | subject |
|---|---|
| `HashChain`, `Jsonl`, `AnchorSink`, `AnchorVerify`, `AnchorWriter`, `AuditBundle`, `StrictCutover`, `CutoverHistory` | the hash-chained log, signed anchors and pins in an append-only file, the offline bundle, the two-phase cutover and what its rows go back to |
| `Policy`, `Custody`, `Database`, `GovernedStore` | the decision of the policy enforcer, key envelopes, the database as a value with every transaction, and the store that updates it in place |
| `Processes`, `Erasure`, `Written`, `IdReuse`, `KeyLife`, `Inheritance`, `LeastLabels`, `Undisturbed`, `Rewrap` | the verbs as small programs over the shared file, what every interleaving keeps of what callers asked for, and what a verb achieves alone |
| `VectorSearch`, `Bm25`, `TextCaches`, `Fusion`, `Recall` | dense and lexical retrieval, the caches, fusion, and the two-run theorem about denied rows |
| `SearchMeaning`, `StableOrder`, `Collapsing`, `CandidateRows`, `LexicalRecall`, `HybridRecall`, `RecallCoverage` | what searches and recalls return, said by counting instead of by their steps |
| `RateLimiter`, `Tokenizer`, `DocumentBlocks`, `Chunking`, `SourceSpans`, `Common` | the self-contained algorithms, and shared result types |
| `Witnesses` | environments that satisfy the laws assumed of the log, the sink, the bundle, the cutover and the source spans |

Loops and objects of the program are methods and classes here, each proved equal to a function
of its inputs or of the old state; the theorems are lemmas about those functions and about
whole runs.

## What is assumed

* The hash, key wrap, content encryption, JSON codec and signature check are parameters. Of a
  hash only the shape of its output is assumed: every theorem that needs collision freedom ends
  in equality or in two exhibited texts with one hash. Of wrap and encryption only the inverse
  law is assumed, for wrapping on keys of at least two whole blocks of eight bytes; of the JSON
  codec that it is injective, canonical and free of raw line breaks, and that an object text has
  matching outer braces. `Witnesses.LawsCanBeMet` and `KeyLife.ToyCryptoIsValid` build
  environments in which all of this holds.
* Signatures are unforgeable in the one sense that theorems state as `Unforged`: no accepted
  anchor of the chain and sink whose signature verifies under a pinned root was signed by anyone
  but the writer.
* A stored timestamp is the number of the double it is, with a printed form that reads back;
  the creation time of a sink record counts microseconds. Random draws (keys, record ids) are
  inputs of a step.
* Where a theorem needs memory ids not to be reused after a purge it says so (`FreshIdRun`).
  `IdReuse.ReusedParentIsNotNoticed` gives a run in which reuse defeats the check on parents, and
  `Erasure.ParentGoneIff` and `ParentReturnsOnlyByReuse` say for all runs when the check refuses.

## Where the program does less than its documentation may suggest

* The row hash does not bind the sequence number: renumbered rows still verify
  (`HashChain.RenumberingKeepsChain`). Anchors and the bundle's range check bind it again.
* A raw custodian hands back a wrapped envelope's own bytes as if they were the key. A writer
  that finds such an envelope goes on and encrypts under them, while a custodian with another key
  id makes it give up (`KeyLife.LookupFindsKeyIff` says which of the three a lookup does, and
  `RawLookupYieldsEnvelope` gives a case). A rotation without its outgoing custodian usually
  fails, because key wrap refuses bytes of that length; it loses the key exactly when the
  envelope's length can be wrapped, which for a 32-byte key depends on the length of the key id
  alone, one in eight (`RewrapLosesKeyIff`, `MismatchedRotationByKeyId`). The default ids are not
  among them; `RawRotationLosesKey` gives a case with one that is.
* The anchor writer checks the recorded head only when the sink holds a record, so an emptied
  sink is accepted again (`AnchorWriter.WriterRefusesRollbackIff`).
* The locked append and the recording of its digest are two steps. Two writers can interleave
  so that the recorded digest names an earlier record, and every later write is refused
  (`AnchorWriter.TwoWritersCanStall`, `HeadStepInStepIff`).
* The verifier captures the head before it reads sink and rows. When rows and an anchor land in
  between, it refuses a sound log (`HeadPrecedesAnchor`): exactly when the latest anchor lies
  above the captured head (`AnchorVerify.HonestLogAcceptedIff` for every honest run,
  `Witnesses.SoundLogRefusedForItsHead` for one such run). That comparison is also what makes an
  accepted log true while others append, because the chain walk may not have seen the later rows
  (`AnchorVerify.AcceptedLogHoldsTruth`).
* An erasure whose purge raises after the shred leaves warm texts in the client, and it serves
  them although nothing can decrypt the rows any more: exactly those rows of the subject that were
  warm (`TextCaches.InterruptedErasureServesIff`, `ServeAfterInterruptedErasure`). A later
  erasure that completes drops them (`TextCaches.Client.Forget`).
* The split of source spans refuses a span still marked as encrypted, but normalising comes
  first and turns it into a self reference when its text and hash are the row content, so a
  write accepts that one (`SourceSpans.PersistAccepts`).

## Model

| member | source | states |
|---|---|---|
| HashChain.BodySplitsUniquely | heartwood/audit.py:101-101 | an object text followed by a timestamp text splits in one way only, without a delimiter |
| HashChain.PreimageDecodes | heartwood/audit.py:101-101 | equal concatenations of previous hash, body and timestamp have equal parts, so the undelimited hash input is injective |
| HashChain.VerifyChain | heartwood/audit.py:89-123 | the loop accepts exactly the logs in which every row links to its predecessor's hash back to genesis, hashes its own fields and repeats its display columns in its body |
| HashChain.SameHeadSameHistory | heartwood/audit.py:89-106 | two verifying logs with one head have the same length and agree in every hash-bound field of every row, or the walk back exhibits a hash collision |
| HashChain.RenumberingKeepsChain | heartwood/audit.py:96-105 | sequence numbers are not bound by the chain: any renumbering still verifies with the same head |
| HashChain.AppendKeepsLog | heartwood/store.py:1096-1114 | an append keeps a log valid and numbered if and only if its body parses and repeats the display columns |
| HashChain.AuditTable.Append | heartwood/audit.py:31-50 | an ordinary append extends a valid numbered log by one linked row |
| HashChain.AuditTable.AppendBound | heartwood/store.py:1046-1094 | inserting a placeholder and completing it once the number is known leaves the row an ordinary append of that detail would have left, and a valid log |
| HashChain.AuditTable.AppendInTransaction | heartwood/store.py:1096-1114 | the row appended under the caller's lock extends the current head |
| Jsonl.SplitAppend | heartwood/anchors.py:1134-1142 | splitting into lines distributes over a cut at the end of a whole line, for LF, CR and CR LF |
| Jsonl.ParseRecordLines | heartwood/anchors.py:1134-1142 | the reader returns all records or nothing: one empty, undecodable or non-canonical line refuses the file |
| Jsonl.OneBreakEach | heartwood/anchors.py:1134-1142 | a line feed, a carriage return and the pair of both each end exactly one line |
| Jsonl.ReadDeterminesFile | heartwood/anchors.py:1134-1142 | a file without carriage returns that reads is, byte by byte, the canonical encodings of its records, one per line |
| Jsonl.ReadAppend | heartwood/anchors.py:100-138 | appending one encoded line appends exactly that record to what is read |
| Jsonl.ReadJoin | heartwood/audit_bundle.py:454-456 | records written one per line are read back exactly |
| Jsonl.CutReadsPrefix | heartwood/anchors.py:151-173 | a file cut at any byte either does not read, or reads as an exact prefix of its records and the cut was at a line end |
| AnchorSink.ValidateSinkRecords | heartwood/anchors.py:905-938 | accepts exactly the sinks whose records are all well formed, signed under a trusted root for this sink and chain, with no pin or manifest id twice; every record of an accepted sink is authentic |
| AnchorSink.ValidSinkIff | heartwood/anchors.py:905-1073 | a sink is valid if and only if every record is of this chain and sink, verifies under a pinned root, is dated, and has well-formed ids, numbers and hashes, and no pin or manifest id repeats: one badly signed record refuses it |
| AnchorSink.LatestAnchorIsStored | heartwood/anchors.py:1078-1080 | the latest anchor is a stored record after which no anchor follows |
| AnchorSink.LocalFileAnchorSink.Append | heartwood/anchors.py:100-149 | one locked append: an unreadable file is left alone and refused, otherwise the file is unchanged or grows by exactly one line, and the answer is the stored record, the new one, or a refusal |
| AnchorSink.AppendStaysOrderly | heartwood/anchors.py:1145-1174 | no append makes anchor numbers fall or repeat, or pins a manifest twice |
| AnchorSink.EveryRunGrowsOrderly | heartwood/anchors.py:100-149 | under every order of locked appends the sink only grows, by whole appended records, and stays orderly |
| AnchorSink.RepeatedPinReturnsStored | heartwood/anchors.py:1163-1174 | whatever was appended in between, pinning again writes nothing and returns the stored pin, or is refused for another digest |
| AnchorSink.RepeatedAnchorReturnsStored | heartwood/anchors.py:1149-1162 | anchoring an anchored number again writes nothing: the stored anchor, a reorder refusal or a conflict |
| AnchorSink.RollbackIsCaught | heartwood/anchors.py:844-851 | a proper prefix of a sink that passes the recorded head exhibits two records with one digest |
| AnchorSink.CutIsNoticed | heartwood/anchors.py:844-851 | cutting the sink file at any byte below its end leaves an unreadable file, or a proper prefix the recorded head refuses, or an exhibited digest collision |
| AnchorVerify.VerifyChainAgainstAnchors | heartwood/anchors.py:763-902 | the receipt's chain, anchor, freshness and overall verdicts mean what they say, in both directions; every record behind accepted anchors is authentic; current means no later row, or fewer than the cadence allows and an anchor younger than the interval; the late-head refusal is named exactly when all else matches but the latest anchor lies above the captured head |
| AnchorVerify.CheckSink | heartwood/anchors.py:810-864 | each obstacle is named exactly when it is the first: missing or unhealthy sink, no anchors, order, unrecorded or differing sink head; none exactly when all match |
| AnchorVerify.CheckAnchorOrder | heartwood/anchors.py:834-842 | accepts exactly strictly climbing positive anchor numbers with distinct ids |
| AnchorVerify.CheckAnchoredRows | heartwood/anchors.py:853-864 | accepts exactly when every anchored number is a stored row with the anchored hash |
| AnchorVerify.RunsAreHonest | heartwood/anchors.py:287-355 | whenever rows are appended and captured heads signed in any interleaving, the log stays valid and every signed anchor names a row of it |
| AnchorVerify.AcceptedLogHoldsTruth | heartwood/anchors.py:763-902 | if the verifier accepts chain and anchors of any presented database and sink, even while rows are appended between its reads, the log it walked starts with the true log up to the latest anchor, in place and number, or a hash collision is exhibited |
| AnchorVerify.TamperingIsReported | heartwood/anchors.py:763-902 | an edit, removal or truncation at or below the latest anchor is refused, or a collision with the true log is exhibited |
| AnchorVerify.RollbackIsReported | heartwood/anchors.py:763-902 | a sink cut back to a proper prefix is refused while the database records the last record of the full one, or two encodings share a digest |
| AnchorVerify.HonestLogAcceptedIff | heartwood/anchors.py:763-902 | in every honest run, read while others append to log and sink, the chain is valid and all anchors match, and they are accepted if and only if none lies above the captured head |
| Witnesses.SoundLogRefusedForItsHead | heartwood/anchors.py:866-871 | an honest run whose log and anchors are accepted, and refused for the head alone when that was captured before the row was appended and anchored |
| AnchorVerify.LatestAnchorIsLast | heartwood/anchors.py:1078-1080 | the latest anchor is the last of the anchors, for every sink |
| AnchorWriter.SinkWriter.ResolveManifestDigest | heartwood/anchors.py:573-595 | a manifest id resolves only in a readable, valid sink that ends in the recorded record and holds exactly one pin for it |
| AnchorWriter.SinkWriter.PinManifest | heartwood/anchors.py:507-571 | pinning ends in exactly the specified sink, recorded head and answer, and every failure but a malformed id counts towards the backoff |
| AnchorWriter.SinkWriter.RecordsForWrite | heartwood/anchors.py:614-623 | a write proceeds exactly on a readable valid sink that is empty or ends in the recorded record |
| AnchorWriter.SinkWriter.Anchor | heartwood/anchors.py:287-355 | sink, recorded digest and answer are exactly the specified ones, the receipt is ok exactly when chain, anchors and freshness hold of the result, and the failure count follows |
| AnchorWriter.AnchoringSucceedsIff | heartwood/anchors.py:287-355 | on a sink it may write to, anchoring writes and succeeds if and only if the record is properly signed with a fresh id, names a stored row above all earlier anchors and not above the head, the chain and the earlier anchors hold, and it is in time |
| AnchorWriter.AnchoredHeadIsNotWritten | heartwood/anchors.py:287-355 | a head that is already anchored is reported and nothing is written; one below the latest anchor, or its number with another hash, is refused |
| AnchorWriter.AnchoringRefusedIff | heartwood/anchors.py:287-355 | an empty chain, a rolled-back sink and an invalid sink are each named exactly when they are the first obstacle |
| AnchorWriter.ResolvesIffPinned | heartwood/anchors.py:573-595 | a manifest resolves if and only if the sink is valid, in step with the database and holds a pin for it |
| AnchorWriter.PinThenResolve | heartwood/anchors.py:507-595 | after a successful pin the id resolves to that digest, pinning again changes nothing, and any other digest is refused |
| AnchorWriter.PinRefusedIff | heartwood/anchors.py:507-571 | a malformed id or digest, a rolled-back or invalid sink and another digest under the id are each named exactly when they are the first obstacle |
| AnchorWriter.RefusedPinChangesNothing | heartwood/anchors.py:507-571 | a refused pin leaves sink and database alone, except a record that fails its own read-back, which a valid record with a fresh pin id never does |
| AnchorWriter.WriterRefusesRollbackIff | heartwood/anchors.py:614-623 | of the proper prefixes of a sink the writer refuses every non-empty one, collisions aside, and accepts the empty one |
| AnchorWriter.HeadStepInStepIff | heartwood/anchors.py:331-335 | recording a digest leaves the database in step exactly when the persisted record is still the last one, or a collision is exhibited |
| AnchorWriter.OneWriterInStepIff | heartwood/anchors.py:331-335 | a writer alone ends in step after every new record, and after a repeated one if and only if that is still the last record, collisions aside |
| AnchorWriter.TwoWritersCanStall | heartwood/anchors.py:614-623 | two interleaved writers can end with the recorded digest behind the sink, and then no write is allowed |
| AnchorWriter.BackoffGrows | heartwood/anchors.py:625-635 | waits start at the first delay, never shrink and never exceed the maximum |
| AnchorWriter.BackoffDoubles | heartwood/anchors.py:625-635 | the first wait is the first delay and each further failure doubles it, up to the maximum |
| AuditBundle.ThroughIsPrefix | heartwood/audit_bundle.py:110-135 | the exported rows are a prefix of the table, cut exactly at the given number |
| AuditBundle.SnapshotEndsAtLatest | heartwood/audit_bundle.py:110-153 | when the anchors are accepted, the snapshot through the highest anchor ends exactly at the row the latest anchor names |
| AuditBundle.Export | heartwood/audit_bundle.py:89-211 | a bundle is written exactly when there are trusted roots, anchors and a recorded head and the snapshot is a closed signed chain; it holds that snapshot; otherwise the first of these that is missing is named |
| AuditBundle.ValidateManifestRange | heartwood/audit_bundle.py:537-552 | accepts exactly gapless rows from one, starting at genesis, that match the manifest's range |
| AuditBundle.ReadBundle | heartwood/audit_bundle.py:214-262 | rows and records are returned exactly when the file receipts match and both files read |
| AuditBundle.VerifyBundle | heartwood/audit_bundle.py:214-361 | the status is decided by self consistency under the given roots, then external trust, then the expected latest anchor, and by nothing else; unless it is Fail, every record is authentic |
| AuditBundle.ExportedBundleVerifies | heartwood/audit_bundle.py:89-361 | exporting a verified anchored log and verifying the bundle with the right roots and checkpoint passes |
| AuditBundle.HonestLogExports | heartwood/audit_bundle.py:89-361 | in every honest run whose sink holds an anchor the snapshot through the latest anchor is closed, its bundle is consistent with that anchor as its latest, and the manifest counts the rows left out |
| AuditBundle.ConsistentManifestIsTrue | heartwood/audit_bundle.py:214-361 | what a consistent manifest says of schema, range, first and last hash and sink head is true of the files, whose records are all authentic |
| AuditBundle.AlteredFileIsRefused | heartwood/audit_bundle.py:214-262 | two consistent bundles with one manifest hold the same files, or two files collide under the file digest |
| AuditBundle.PassingBundleIsTheTruth | heartwood/audit_bundle.py:214-361 | a bundle consistent under external roots with no forged anchor is exactly a prefix of the true log, numbers included, or exhibits a collision |
| StrictCutover.CutoverManager.Seal | heartwood/strict.py:267-392 | sealing succeeds exactly on the approved report without failures over a valid chain, appends its one row, and leaves a manifest that would activate |
| StrictCutover.CutoverManager.ValidateManifestSeal | heartwood/strict.py:858-935 | returns exactly the transitions a valid store binds to the manifest |
| StrictCutover.CutoverManager.Activate | heartwood/strict.py:394-503 | activates, reports an earlier activation or refuses; only the first changes the store, and the invariant of every run is kept |
| StrictCutover.ActivatesIffUntouched | heartwood/strict.py:445-457 | in a reachable store a sealed manifest activates if and only if its seal is still the head and the stored memories are the sealed ones |
| StrictCutover.EveryRunActivatesSealedSnapshot | heartwood/strict.py:420-486 | in every run each activation row stands right after its seal, the seal right after the head it scanned, and no memory was inserted or removed between |
| StrictCutover.ActivationIsFinal | heartwood/strict.py:850-935 | an activated manifest validates with the same two rows in every later state, and activating again writes nothing |
| StrictCutover.ActivatedIdRefusesAnother | heartwood/strict.py:858-935 | no other manifest bytes can be activated under an activated id |
| StrictCutover.FreshSealValidates | heartwood/strict.py:858-935 | a seal just written validates without an activation |
| StrictCutover.SealThenActivate | heartwood/strict.py:394-486 | sealing and activating with nothing between always succeeds |
| StrictCutover.ValidatedSealIsStored | heartwood/strict.py:858-935 | a validated seal is the stored row at its number and binds the number of memories the scan counted |
| CutoverHistory.UncleanScanIsRefused | heartwood/strict.py:290-302 | a scan with failures, a report that was not approved, or an invalid chain leaves the store as it was |
| CutoverHistory.RememberedOnce | heartwood/store.py:203-241 | a new memory and its audit row are added together, a stored id adds nothing |
| CutoverHistory.SealRowsAreApproved | heartwood/strict.py:288-354 | in every run each seal row was written for an approved report without failures over a valid log, and records the manifest of what was then stored |
| CutoverHistory.ActivationRowsAreApproved | heartwood/strict.py:420-486 | in every run each activation row names the seal just before it, of a manifest sealed from an approved report without failures over a valid log |
| CutoverHistory.ValidatesIffSealed | heartwood/strict.py:858-935 | in every run a manifest validates under a digest if and only if some event sealed exactly this manifest under this digest |
| Policy.VisibleMeans | heartwood/policy.py:30-58 | a row is visible if and only if tenant, clearance, every role gate, every attribute and private ownership are met |
| Policy.ClearedMeans | heartwood/policy.py:38-54 | clearance is a rank no lower than the row's, one of its roles if it lists any, and one of every non-empty role group |
| Policy.LastAttrCounts | heartwood/policy.py:24-25 | the last value a principal gives for an attribute counts |
| Policy.DenialMeans | heartwood/policy.py:30-64 | the reason given is the first check that fails, in the order tenant, clearance, roles, attributes, ownership |
| Policy.AttributeDenialMeans | heartwood/policy.py:55-60 | an attribute is named exactly when it is the first one not met |
| Policy.AllowedView | heartwood/policy.py:60-67 | the visible rows come out in order, and so do all the others, each with the enforcer's reason |
| Policy.DeniedMeans | heartwood/policy.py:60-67 | the denied list names exactly the rows that are not visible, with their reasons |
| Policy.ShownOrDenied | heartwood/policy.py:60-67 | every row is shown or denied, once |
| Policy.RaiseOnlyUp | heartwood/client.py:415-439 | reading a parent only raises the mark: it covers the parent and everything it covered before |
| Policy.MarkedDominates | heartwood/client.py:434-439 | the derived policy is at least as strict as everything its mark covers |
| Policy.DominatesClears | heartwood/policy.py:30-58 | whoever meets the stricter classification and role gates meets the weaker ones |
| Custody.UnwrapReturnsTheKey | heartwood/key_custody.py:129-183 | unwrapping returns the key or fails, unless a raw custodian faces a wrapped envelope, which yields the envelope's bytes |
| Custody.EnvelopeWrappableIff | heartwood/key_custody.py:166-173 | the envelope of a 32-byte key has a length that key wrap accepts if and only if its key id has length five modulo eight |
| Database.PurgedSetIsClosed | heartwood/store.py:813-826 | no kept memory is derived from a purged one |
| Database.PurgedSetIsLeast | heartwood/store.py:813-826 | the purged set is the smallest set around the seeds closed under child edges |
| Database.DescendantsMean | heartwood/store.py:813-826 | descendants are exactly the nodes outside the seeds that a path of child edges reaches |
| Database.PurgeIsExact | heartwood/store.py:459-493 | a purge removes exactly the selected rows and their descendants, every edge naming one, and touches no other row; nothing naming the subject is left |
| Database.SupersedeTouchesReviewOnly | heartwood/store.py:289-308 | retiring rows changes their review state and nothing else |
| Database.SupersedeMeans | heartwood/store.py:289-310 | retiring goes through if and only if every target is unchanged, and then exactly the targets are superseded |
| GovernedStore.Store.InsertMemorySuperseding | heartwood/store.py:176-231 | one transaction: row, edges, lineage, retirements and audit row together, or the first failing check and no change; Written.RunsKeepTheStory says over whole runs what is recorded |
| GovernedStore.Store.SupersedeRows | heartwood/store.py:289-308 | all targets still matching are retired in turn, or the call reports failure |
| GovernedStore.Store.FindDescendants | heartwood/store.py:813-826 | the worklist terminates on every graph, cycles included, and returns exactly what is reachable from the seeds by child edges |
| GovernedStore.Store.PurgeSubject | heartwood/store.py:459-493 | the purge transaction deletes exactly the purge set with its vectors, or rolls back whole |
| GovernedStore.Store.CreateKeyRow | heartwood/store.py:860-872 | the first row of a subject wins, key or tombstone, and the stored row is returned |
| GovernedStore.Store.PutKeyRow | heartwood/store.py:874-884 | an envelope is replaced unless the subject is erased |
| GovernedStore.Store.ShredKeyRow | heartwood/store.py:886-892 | the subject's row becomes a tombstone, and no other row changes |
| GovernedStore.Store.DropOrphanVectors | heartwood/store.py:527-549 | exactly the vectors without a row are dropped and reported |
| GovernedStore.Store.Rebuild | heartwood/index.py:196-206 | a rebuild leaves vectors of stored rows only: the listed ones and, unless this process created the table, those that were there |
| GovernedStore.Store.AddIfStored | heartwood/index.py:119-149 | a vector is stored only while its memory row exists |
| GovernedStore.ExploreNode | heartwood/store.py:813-826 | one worklist turn keeps: found ids are descendants, and everything not found hangs below the frontier |
| Erasure.CommitKeepsGone | heartwood/store.py:203-227 | no transaction of any verb stores a row naming an erased subject or revives its tombstone |
| Written.RunsKeepTheStory | heartwood/store.py:203-241 | in every run each stored row is what its writer asked for, every edge was asked for or added by hand, every parent asked for has its edge unless it was deleted alone since, and each committed write is audited once, in order |
| Written.PurgeTakesTheDerived | heartwood/store.py:459-493 | when a purge commits, nothing written as derived from a purged memory, directly or along a line of stored memories, is stored any more |
| Written.ErasureTakesTheDerived | heartwood/store.py:459-493 | when a subject's purge commits, every memory written about the subject goes with all that was written as derived from it |
| Written.ErasedIsNeverAsked | heartwood/store.py:262-270 | once a subject is erased, no stored row of any later state was asked to be about it, as subject or alias |
| Written.RunsTraceRows | heartwood/store.py:217-222 | in every run exactly the stored memories have a lineage entry, each under the subject it was written about |
| Written.WriteLeavesLineage | heartwood/store.py:219-223 | a committed write leaves a lineage entry for the memory and one for its embedding, under its subject |
| Written.LabelledFromStoredParents | heartwood/client.py:423-427 | a committed write is labelled from parents it was asked to derive from, all stored when it commits; each parent asked for is among them or was missing at some moment while the write was under way |
| Written.IndexedWriteHasVector | heartwood/index.py:196-206 | an indexed write that takes its next step while its row is stored has its vector in the table, one that is not indexed leaves the table alone |
| Erasure.ErasureIsFinal | heartwood/client.py:1611-1638 | once a subject's purge has committed, in every later state of every interleaving its key is a tombstone and no row names it as subject or alias |
| Erasure.PurgeStepErases | heartwood/client.py:1627-1632 | the purge step of an erasure, unless rolled back, leaves its subject erased and unnamed |
| Undisturbed.PurgeGoesThrough | heartwood/store.py:459-493 | in every run a purge by a process that can delete vectors, or over a file without any, goes through |
| Undisturbed.ErasureReachesPurge | heartwood/client.py:1611-1632 | an erasure that nobody disturbs reaches its purge with the key shredded and nothing else changed |
| Undisturbed.ErasureWithoutVectorsIsRefused | heartwood/store.py:505-512 | an erasure by a process that cannot delete the vectors of the file changes nothing, the key included |
| Undisturbed.UndisturbedWriteCommits | heartwood/client.py:406-529 | a write that nothing refuses and nobody disturbs is stored, whatever its parents, retirements and custodian |
| Undisturbed.ErasedLookupGivesUp | heartwood/erasure.py:60-72 | a writer that looks for the key of an erased subject gives up at once and writes nothing |
| Undisturbed.DeletedRowGoes | heartwood/client.py:1790-1808 | a single-row purge removes row, edges, lineage and vector and nothing else |
| Undisturbed.EditsCommit | heartwood/store.py:551-600 | an edit by itself adds its edge, sets the values asked for, or retires rows that are as the caller saw them |
| Undisturbed.OpeningCleansVectors | heartwood/index.py:119-149 | opening the file empties a table just created and otherwise drops exactly the vectors without a row |
| Erasure.PurgedVectorsNeverReturn | heartwood/store.py:470-489 | in every run with fresh ids, through late writers, rebuilds by other processes and crashes, the vector of a purged memory is never in the table again |
| Erasure.PurgedStaysRecorded | heartwood/store.py:459-493 | purged memories stay purged in every later state |
| Erasure.GoneStaysGone | heartwood/store.py:447-493 | in a run with fresh ids a row once removed, by an erasure or alone, is never stored again |
| Erasure.ParentGoneIff | heartwood/store.py:272-287 | in every run, a write about to commit is refused for a missing parent if and only if no subject it names is erased and some parent it was labelled from is not stored; a refused write changes nothing |
| Erasure.StaleParentIsRefused | heartwood/store.py:272-287 | a write whose policy was read from a parent removed since, by an erasure or a single-row purge, is refused with nothing written |
| Erasure.ParentReturnsOnlyByReuse | heartwood/store.py:272-287 | without fresh ids a removed parent passes only because a later insert committed under its id |
| IdReuse.ReusedParentIsNotNoticed | heartwood/client.py:415-439 | a run from the empty store: a parent is read, purged, its id stored again under a stricter policy, and the child commits with the old labels |
| KeyLife.StepIsSound | heartwood/erasure.py:60-98 | every matched step of writers, readers and rotations commits only envelopes of the subject's first key and carries only that key in its locals |
| KeyLife.OneKeyForLife | heartwood/erasure.py:60-98 | any two envelopes stored for a subject at any two moments of a matched run open to the same key |
| KeyLife.RowsDecryptToWhatWasWritten | heartwood/client.py:466-476 | every stored row of a subject that is not erased decrypts, with the key now stored, to the content written |
| KeyLife.RewrapLosesKeyIff | heartwood/key_lifecycle.py:149-179 | a rotation step loses the key if and only if a raw outgoing custodian faces a wrapped envelope whose bytes can be wrapped and are not the key, and raises if and only if the envelope does not open or what came out cannot be wrapped |
| KeyLife.RewrapLeavesCurrent | heartwood/key_lifecycle.py:157-166 | tombstones and rows without material are passed over, and a key under the incoming id is left alone but must open, or the rotation raises |
| KeyLife.MismatchedRotationByKeyId | heartwood/key_lifecycle.py:149-179 | a mismatched rotation of a 32-byte key replaces it by its own envelope for key ids of one length in eight and raises for all others, the defaults included; the replacement encrypts as the key does only for one key |
| KeyLife.LookupFindsKeyIff | heartwood/erasure.py:60-83 | a writer that finds an envelope goes on, migrates or gives up exactly as custodian and envelope decide, and going on it encrypts as under the subject's key exactly when the custodian is not mismatched, or the envelope begins like the key |
| KeyLife.MigrationKeepsKeyIff | heartwood/erasure.py:78-83 | a migrating writer goes on with the key it read if and only if that can be wrapped and the subject was not erased since, and leaves an envelope that opens to it; otherwise it gives up and nothing is written |
| Undisturbed.UndisturbedReadMigrates | heartwood/erasure.py:85-98 | a reader with a wrapping custodian leaves a raw key wrapped under that custodian, and it opens to the same key |
| KeyLife.RawLookupYieldsEnvelope | heartwood/key_custody.py:126-130 | a writer without a custodian that finds a wrapped 32-byte key goes on and would encrypt under another key |
| KeyLife.RawRotationLosesKey | heartwood/key_lifecycle.py:149-179 | a concrete rotation of a 32-byte key under a 13-character key id that replaces the key by the bytes of its own envelope |
| Inheritance.RunsKeepLabels | heartwood/client.py:415-439 | in every run with fresh ids stored policies never change and every birth dominates the parents it was labelled from |
| Inheritance.AncestryDominates | heartwood/client.py:415-439 | domination composes along any line of ancestors |
| Inheritance.VisibleMeansClearedForAncestors | heartwood/policy.py:30-58 | whoever may see a derived memory meets the classification and every role gate of each ancestor that was live when its descendant was written |
| LeastLabels.SeenIffAskedAndParents | heartwood/client.py:415-439 | in every run a principal may see a stored memory if and only if the policy its writer asked for lets it, attributes and private ownership included, and it meets the classification and gates of each live parent; it is personal exactly when the writer or a live parent says so |
| Rewrap.KeyTable.RewrapTenantKeys | heartwood/key_lifecycle.py:136-196 | the loop, with other processes creating, migrating and erasing keys between rows, ends in the specified keys, counters and remaining count, or raises where the specification does |
| Rewrap.KeyTable.RewrapOne | heartwood/key_lifecycle.py:153-179 | one listed key is skipped, found current, rewrapped, or found erased since |
| Rewrap.KeyTable.RemainingCount | heartwood/key_lifecycle.py:346-353 | counts exactly the live keys of the whole table that are not wrapped under the new key id |
| Rewrap.RunAccounts | heartwood/key_lifecycle.py:136-196 | whatever others write meanwhile: scanned is migrated plus current plus both kinds of skipped, migrated is rewrapped plus raw, the limit holds, all rows are scanned unless it was reached, and tombstones stay |
| Rewrap.RunTallies | heartwood/key_lifecycle.py:149-179 | of the rows scanned, the current and the missing ones are counted exactly, rewrapped and raw migrations count only rows listed so, and all others of these were erased since |
| Rewrap.CompleteMeansCurrent | heartwood/key_lifecycle.py:57-59 | a complete report means every live key is wrapped under the new key id |
| Rewrap.RunShrinks | heartwood/key_lifecycle.py:149-183 | whatever others do short of adding old-root keys, a run does not raise, the stale keys it leaves and those it migrated are together at most those listed, and it leaves none or stops at the limit with fewer |
| Rewrap.RunsConverge | heartwood/key_lifecycle.py:136-196 | with no new old-root keys, whatever others erase, migrate, rotate or create between rows and runs, repeated runs with any limit of at least one report complete within remaining plus one runs |
| VectorSearch.TopIsRankedPrefix | heartwood/index.py:189-193 | the n best by distance and id are one list: whatever satisfies the definition is the ranked prefix |
| VectorSearch.RankedPrefixIsTop | heartwood/index.py:189-193 | the ranked prefix holds the n best in order |
| VectorSearch.ExtraHitDecides | heartwood/index.py:178-188 | with one extra neighbour and no tie at the cutoff, the oracle's first n are the n best whatever ties it chose |
| VectorSearch.TieCanHideTheSmallerId | heartwood/index.py:188-193 | without the repair a tied cutoff can give another answer |
| VectorSearch.SqliteVecIndex.Search | heartwood/index.py:158-194 | exactly the n smallest by distance and id, with or without an allow-list of any length, whatever ties the neighbour operator chose |
| VectorSearch.AllowListMeaning | heartwood/index.py:162-177 | an allow-list naming every row changes nothing, and rows outside it or of other tenants have no influence |
| SearchMeaning.FileAnswerMeans | heartwood/index.py:158-194 | a search of the file names offered rows of the tenant with their negated distances, nearest first with ties by id, as many as asked for; whatever was left out is farther than every hit |
| SearchMeaning.MemoryAnswerMeans | heartwood/index.py:69-84 | a search in memory names offered entries of the tenant with their similarities, most similar first, each id once, as many as asked for; whatever was left out is no more similar than any hit |
| VectorSearch.PutStores | heartwood/index.py:48-51 | storing an entry replaces the entry of its id and no other |
| VectorSearch.NumpyVectorIndex.Search | heartwood/index.py:69-84 | searching the cached matrix answers what the current entries say, selecting by tenant and allow-list before ranking |
| VectorSearch.NumpyVectorIndex.RefreshMatrix | heartwood/index.py:56-67 | after a refresh the matrix mirrors the entries row by row |
| VectorSearch.NumpyVectorIndex.Remove | heartwood/index.py:53-55 | the entry is gone and the matrix is marked stale exactly when something changed |
| Bm25.PrepareCorpus | heartwood/retrieval.py:272-293 | the loops compute the length, word counts and document frequencies of the documents, and their mean length |
| Bm25.ScorePrepared | heartwood/retrieval.py:296-314 | scores read from the statistics equal the sum over the distinct query words computed from the documents |
| Bm25.AnyOrder | heartwood/retrieval.py:305-314 | the order in which the query words are visited does not matter |
| Bm25.WeightForm | heartwood/retrieval.py:305-314 | with the constants worked out, a word weighs log((n+1)/(df+1/2)) times 5f/2 over f + 3/8 + 9/8 of the relative length |
| Bm25.TermForm | heartwood/retrieval.py:272-314 | from the documents alone: nothing for a document without the word, else the weight for its positions there, the documents holding it and the relative length |
| TextCaches.Client.CacheTextPair | heartwood/client.py:1209-1213 | the newest entries are kept within the limit |
| TextCaches.Client.TokensForIndexText | heartwood/client.py:1215-1225 | the tokens served are those of the given text, cached or not |
| TextCaches.Client.Bm25Scores | heartwood/client.py:1227-1242 | scores through token and corpus caches equal scores computed fresh |
| TextCaches.Client.TextPairForMeta | heartwood/client.py:1244-1264 | the text served is the warm one or else what decrypting the row now gives, and while the caches are true these are one |
| TextCaches.Client.Score | heartwood/client.py:831-841 | the lexical part of a recall serves, for every cache limit, the readable visible rows with the scores of fresh decryption and tokenisation |
| TextCaches.Client.Remember | heartwood/client.py:406-529 | a write changes the vault as specified and keeps every cache entry true |
| TextCaches.Client.Purge | heartwood/client.py:1790-1808 | a purge removes the row's entries from the text and token caches, and only those, and keeps every other entry true |
| TextCaches.Client.Forget | heartwood/client.py:1611-1638 | a completed erasure leaves no warm text or tokens of a purged row, and every cache entry true, also when an earlier one was interrupted |
| TextCaches.Client.ForgetInterrupted | heartwood/client.py:1621-1632 | an erasure whose purge raises stores the tombstone and leaves rows and caches; only the subject's warm texts are then untrue |
| TextCaches.InterruptedErasureServesIff | heartwood/client.py:1244-1264 | after that, what is served differs from decrypting exactly for the subject's rows whose text is warm, and is the text as before |
| TextCaches.ServeAfterInterruptedErasure | heartwood/client.py:1244-1264 | a client that had read a row still serves its text after an interrupted erasure, when decrypting gives nothing |
| TextCaches.Client.SetIndexed | heartwood/client.py:1383-1423 | retiring a row drops its warm text and tokens; reinstating it changes neither |
| TextCaches.RememberedReadsBack | heartwood/client.py:462-476 | a stored row reads back as written and every older row reads as before |
| TextCaches.Drive | heartwood/client.py:1209-1264 | over every sequence of verbs of one client the vault changes as the verbs say, and each recall, in order, is answered with the scores fresh at its moment |
| Fusion.SortSorts | heartwood/retrieval.py:394-397 | the stable sort orders by any weak order |
| Fusion.SortKeepsAll | heartwood/retrieval.py:394-397 | the stable sort keeps every element |
| StableOrder.StablePlace | heartwood/retrieval.py:394-397 | a sorted element stands behind exactly the better ones and, of those that tie, the earlier ones |
| StableOrder.SliceHolds | heartwood/retrieval.py:394-397 | a slice of the sort holds exactly the elements with few enough ahead of them |
| Fusion.Rrf | heartwood/retrieval.py:317-322 | ids come out in order of first appearance, each with the sum of its reciprocal ranks |
| Fusion.ShareOfRank | heartwood/retrieval.py:317-322 | in a list without repetition an id's share is that of its one rank |
| Fusion.ArrangedBestFirst | heartwood/retrieval.py:422-432 | candidates are ranked by falling score, with and without families |
| Fusion.RankAndCollapse | heartwood/retrieval.py:433-461 | the loop keeps the first of every family within the limit and notes the later ones on its entry |
| Fusion.RankingMeaning | heartwood/retrieval.py:433-461 | at most k entries in their own places, no two of one family; if the limit was not reached every candidate is ranked or noted under a better ranked member of its family |
| Fusion.FuseRerank | heartwood/retrieval.py:375-461 | dense and lexical ranks are fused, shortlisted, rescored and collapsed as specified, and a malformed reranker result is refused |
| Fusion.RefusedIff | heartwood/retrieval.py:402-421 | a candidate-aware reranker is refused exactly when its scale is unknown, its scores do not match the batch, or one is not finite |
| Fusion.LegacyScores | heartwood/retrieval.py:421-423 | a legacy reranker sees the texts in order and its scores are used as they are |
| Collapsing.CollapsingDelivers | heartwood/retrieval.py:433-461 | for any order: one entry of each family, each with its own signals; whatever is missing is noted on an earlier entry of its family or comes behind a full list, and nothing noted comes behind the last entry of one |
| Fusion.FusedDelivers | heartwood/retrieval.py:375-461 | every entry is a candidate, named once and in its place, scores never rise, no two of one family, at most k; whatever the reranker scored |
| Recall.Search | heartwood/client.py:824-825 | either index answers as specified, and names allowed ids only |
| Recall.HitsDeliver | heartwood/client.py:831-938 | for both methods, typed mode included: every hit is a readable row, named once, in its place, best first (typed ties by id), at most k |
| Recall.RecallDelivers | heartwood/client.py:802-938 | every hit of a recall is a listed row that the principal may see, that the filters want, that is indexed and that can be read |
| CandidateRows.CandidatesMean | heartwood/client.py:843-845 | the candidates are exactly the readable dense hits and the readable rows with fewer than `topc` readable rows of higher lexical score, ties by place; dense hits first |
| LexicalRecall.LexicalHitsAre | heartwood/client.py:861-909 | a lexical recall lists exactly the candidates by falling score, one of each mirror family, each with its own signals; what is missing is noted on its family or behind a full list |
| HybridRecall.ShortlistMeans | heartwood/retrieval.py:390-400 | the short list holds the candidates with the best sums of reciprocal ranks, where a rank counts the better candidates |
| HybridRecall.FusedRankingIs | heartwood/retrieval.py:375-461 | the reranker is shown id, text and labels of exactly the short list, and its scores decide the order, ties by precedence and id when any candidate has a family |
| RecallCoverage.HybridHitsAre | heartwood/client.py:910-938 | the hits of a hybrid recall are the entries of that ranking, or with typed scores the best of them by recomputed score, ties by id |
| RecallCoverage.RecallIs | heartwood/client.py:802-938 | every recall: lexical hits are the lexical ranking of the candidates, hybrid hits the reranked short list, and without candidates there are none |
| RecallCoverage.RecallFinds | heartwood/client.py:843-938 | when neither limit nor short list is full, every candidate is a hit or is noted under a hit of its family; with a candidate there is a hit |
| RecallCoverage.RecallIsNotEmpty | heartwood/client.py:843-938 | a recall with room for one hit finds something as soon as there is a row it may return |
| RecallCoverage.ReadableIffReturnable | heartwood/client.py:802-841 | a row takes part exactly when it is listed, indexed, wanted, visible to the principal and can be read |
| RecallCoverage.DenseHitsAre | heartwood/client.py:821-826 | the dense hits are what the index answers among the rows shown, for the principal's tenant |
| RecallCoverage.LexicalScoresAre | heartwood/client.py:831-841 | the lexical scores are those of the freshly decrypted and tokenised index texts for the words of the cue, and the reranker is shown these texts |
| RecallCoverage.PendingCount | heartwood/client.py:810-818 | the pending count is the number of visible rows that are not indexed and are no privileged contract |
| Recall.Recall | heartwood/client.py:750-938 | recall through all caches and either index answers the uncached specification over the visible rows, and the pending count follows policy alone |
| Recall.FiltersCommute | heartwood/client.py:802-819 | filtering by the caller's filters and by policy commute |
| Recall.DeniedRowsHaveNoInfluence | heartwood/client.py:802-938 | hits, scores, signals, collapsed duplicates and pending count are equal for any two stores that agree on the rows the principal may see |
| RateLimiter.NeverMoreThanTheLimit | heartwood/recall_service.py:354-372 | in every half-open window of the credential's length, wherever it starts, at most the permitted number of requests is admitted |
| RateLimiter.RetryAfterIsExact | heartwood/recall_service.py:367-369 | a refused caller is admitted after k whole seconds, nothing else being admitted, if and only if k is at least the reported wait |
| RateLimiter.RemainingIsExact | heartwood/recall_service.py:354-372 | at the instant of an admission just as many more requests are admitted as reported, and then one is refused |
| RateLimiter.ForgettingIsHarmless | heartwood/recall_service.py:373-381 | dropping what has expired changes nothing that is decided later |
| RateLimiter.OthersDoNotCount | heartwood/recall_service.py:354-372 | requests of other credentials and refused requests leave a credential's admissions alone |
| RateLimiter.EvictionKeepsMirror | heartwood/recall_service.py:373-381 | global eviction leaves every bucket exactly what has not expired of the credential's full history |
| RateLimiter.RecallRateLimiter.Check | heartwood/recall_service.py:354-372 | every decision is the one a limiter that never forgets would make, and no bucket is left stale or empty |
| RateLimiter.RecallRateLimiter.EvictExpired | heartwood/recall_service.py:373-381 | every bucket loses its expired hits and empty buckets go |
| Tokenizer.TokensSplit | heartwood/chunking.py:8-8 | tokens of a range are those of its parts when no token straddles the cut |
| Tokenizer.TokensCover | heartwood/chunking.py:8-8 | a character lies in a token if and only if it is alphanumeric |
| Tokenizer.AlnumCharacters | heartwood/chunking.py:8-8 | the characters of tokens are exactly the ASCII letters and digits |
| Tokenizer.SliceTokens | heartwood/chunking.py:165-166 | counting tokens of a slice equals counting them in place |
| DocumentBlocks.StructuralSpans | heartwood/chunking.py:54-95 | one trimmed span for exactly every block (a line that is not blank and is a heading or follows a blank line opens one), together covering all text but white space |
| DocumentBlocks.BlocksAreDetermined | heartwood/chunking.py:54-95 | those conditions determine the spans: no two lists satisfy them |
| DocumentBlocks.BreakAndSpaceCharacters | heartwood/chunking.py:54-95 | the characters that end a line and the white space are exactly the listed ones |
| DocumentBlocks.HeadingMeans | heartwood/chunking.py:74-75 | a heading's first character other than white space is the number sign |
| Chunking.SizeBoundSpans | heartwood/chunking.py:98-119 | a span over the target is cut into windows of consecutive tokens, the others stay |
| Chunking.SplitAllTiles | heartwood/chunking.py:98-119 | cutting to size keeps a gap between spans and loses no alphanumeric character |
| Chunking.PackSpans | heartwood/chunking.py:122-143 | the loop computes the hulls of the greedy division |
| Chunking.PacksAreMaximal | heartwood/chunking.py:122-143 | packs are consecutive groups within the target, none of which could take the first piece of the next |
| Chunking.PacksTile | heartwood/chunking.py:122-143 | packs are disjoint, correctly counted and cover every alphanumeric character |
| Chunking.ApplyOverlap | heartwood/chunking.py:146-162 | the search for the first token at a boundary finds the place `overlap` tokens back |
| Chunking.BackIsExact | heartwood/chunking.py:146-162 | an overlap repeats exactly `overlap` tokens, or all there are |
| Chunking.EveryChunking | heartwood/chunking.py:27-51 | every chunk is the slice at its offsets, numbered in order, ends with its pack, starts at most `overlap` tokens before it, and holds at most target plus overlap tokens |
| Chunking.ChunksAdvance | heartwood/chunking.py:27-51 | chunk starts never decrease and chunk ends strictly increase |
| Chunking.NoTokenIsLost | heartwood/chunking.py:27-51 | every token of the document lies whole in some chunk |
| Chunking.ChunkDocument | heartwood/chunking.py:27-51 | unusable sizes are refused in order, otherwise the chunks of the document's blocks are returned |
| SourceSpans.NormalizeSelfSpans | heartwood/source_spans.py:8-30 | spans stay in place, byte-identical text becomes a self reference, and the first self reference with another hash refuses all |
| SourceSpans.SplitSourceSpanTexts | heartwood/source_spans.py:33-60 | texts move to an ordered list, or the first unusable span refuses all |
| SourceSpans.SplitMeaning | heartwood/source_spans.py:33-60 | every stored index names the text it was taken from |
| SourceSpans.PersistAccepts | heartwood/client.py:452-476 | a write refuses its spans if and only if one is a self reference with another hash, or, not being a quote of the row content, a still encrypted span or a non-string text |
| SourceSpans.RefusalNames | heartwood/client.py:452-476 | the reason given is a self reference with another hash if there is any, else what is wrong with the first unacceptable span |
| SourceSpans.RoundTrip | heartwood/source_spans.py:63-93 | normalise, split, store and resolve give, for every span with text or self reference, the text, the content or nothing, exactly as hash and caller decide |
| SourceSpans.QuotedTextComesBack | heartwood/client.py:1761-1788 | quoted text with an absent or correct hash comes back unchanged, or it collides with the row content |
| SourceSpans.ResolvedMeans | heartwood/source_spans.py:63-93 | a reference resolves only to a row with a live key that the caller may read, a self reference only to content with its hash, an encrypted one only to an entry with the hash it names, which a principal must name |
| SourceSpans.HiddenRowResolvesToNothing | heartwood/source_spans.py:78-84 | a principal who may not read the row resolves none of its references |
| SourceSpans.ErasedRowResolvesToNothing | heartwood/client.py:1761-1788 | once the key is gone no reference of the row resolves |
| VectorSearch.NumpyVectorIndex.Add | heartwood/index.py:48-51 | an entry is added or replaced in its place, and the matrix is then marked stale; without a vector nothing changes |
| Witnesses.LawsCanBeMet | heartwood/audit.py:89-123 | the laws assumed of the log, the sink codec, the bundle, the cutover and the source spans can be met |

## Left out

- The cryptographic primitives (Ed25519, AES key wrap, HKDF, Fernet, SHA-256), SQLite itself, file locking, fsync, permissions, archives, base64url and the JSON libraries: parameters with the laws stated above, or not modelled.
- HTTP handlers, TLS, the command line, configuration, model loading and memory probes: plumbing around the modelled code.
- `heartwood/audit_epochs.py`: bodies are assumed to carry all four display fields, so the table of one historical chain is not needed.
- Scores are real numbers; float32 rounding is not modelled, and the logarithm, the rounding of signals, the typed score and the reranker are parameters.
- The provenance tree and the strict checks attached to each result after ranking: they look at parents outside the visible rows and are not part of the ranking theorem.
- Written.PurgeTakesTheDerived: a parent that was deleted alone leaves its children without the edge; single-row purge neither cascades nor removes its vector in the same transaction.
- AnchorWriter.SinkWriter.Anchor: the recorded prior failure is a flag given by the caller, and nobody else writes to the sink between its steps; the timer thread, the persisted failure record and the cadence status are not modelled.
- AnchorVerify.AcceptedLogHoldsTruth: the lookups of the anchored rows are one read, and the table only grows while the verifier reads; a database altered in the middle of a verification is not covered.
- Custody.EnvelopeWrappableIff: is about key ids that JSON writes as they are.
- AnchorWriter.TwoWritersCanStall: models the append and the recording of the digest only; read-back failures of the two writers are not modelled.
- Policy.RaiseOnlyUp: attributes and private visibility are not inherited by the program, so nothing is claimed of them.
- Erasure.ErasureIsFinal: the local text caches of other processes are outside the database and not covered.
- Erasure.PurgedVectorsNeverReturn: needs that a purged memory id is not used for another memory.
- TextCaches.Drive: erasures that complete, by one client on its own store; rows changed by other processes are not seen by its caches.
- RateLimiter.RecallRateLimiter.Check: limits of a credential are fixed, and the clock does not go back; the lock is one atomic call.
- VectorSearch.SqliteVecIndex.Search: the SQL statements are their meaning (select, order, limit); vectors of another length than the table's are not modelled.
- RecallCoverage.RecallFinds: ids are primary keys of rows and index entries.
- Written.RunsTraceRows: memory ids do not begin like the names of embeddings.
- Recall.Recall: the caller's filters are an arbitrary predicate on metadata, and a row's labels one opaque value.
- Writes, deletions and searches on the vector table outside `add_if_stored`, `remove`, `rebuild` and `search`, the erasure proof of `heartwood/key_lifecycle.py` and the receipts built around forget: reports on the modelled state.
- Egress and faithfulness rules, review transitions, temporal parsing, benchmarks and release scripts: single-branch facts or text patterns.
