# Verified model of the retrieval service's core protocols

This project models, in Dafny, the parts of the service whose correctness spans several operations or a whole
run, and proves what they promise:

* **Mail synchronisation** (`MailSync`): one mailbox with two UID watermarks, under any sequence of arrivals,
  expunges, crashes, dry runs and budgets within one UIDVALIDITY epoch (section 2.3.1.1 of RFC 3501).
* **Mailbox names** (`MailboxName`, `Encodings`, `MalformedNames`): modified UTF-7 (section 5.1.3 of RFC 3501) over
  base64 (section 4 of RFC 4648) and UTF-16 (section 2 of RFC 2781), and quoted strings (section 4.3 of RFC 3501).
* **The graph job queue and its worker** (`GraphQueue`, `GraphWorker`).
* **Live access control over grouped results** (`Acl`, `FileIdQuery`): results are key/value records, as in the
  program, so that the promotion of a duplicate is modelled field by field.
* **Chunking, adaptive re-splitting, entity and relation discovery** (`Chunking`, `AdaptiveSplit`,
  `EntityDiscovery`, `RelationDiscovery`, `Ontology`, `Mentions`): the language model is an arbitrary function; the
  theorems hold for every answer. `WindowRules`, `MentionRules` and `RelationRules` read the results off the inputs.
* **Span selection and context disambiguation** (`Spans`, `EntityResolution`).
* **The credential store** (`SecretCrypto`, `Credentials`, `CredentialRules`, `IdentityScoping`, `CredentialStore`):
  the encrypted tables are proved to refine plain tables of cleartexts. The cipher is a parameter of which
  authenticity is assumed (`Authentic`, which `AuthenticCipherExists` shows can be met).
* **Curation sessions** (`CurationSessions`) and **reciprocal rank fusion** (`RankFusion`, `FusionRules`).

`Wrappers`, `Seqs`, `Text` and `Sorting` hold shared definitions. Code that changes state step by step is a class or
a method with a loop; its `ensures` ties the new state to a specification function, and the properties are lemmas about
that function, stated where it matters without its name, on the inputs alone. A database transaction is one atomic step.

## Where the code and its documentation differ

The code is followed, and a lemma records the difference.

* A UIDVALIDITY that could not be read counts as 0, matches every epoch and is written back with the next message
  (`ZeroReadDisarmsEpochCheck`); `UnseenIff` says which messages are not looked for then, and `ZeroReadLosesMessages`
  is an instance. The epoch theorems therefore need a non-zero value.
* Moving the backfill cutoff strands messages as the known-limitations page says; `StrandedIff` says exactly which.
* Malformed shifted text in a mailbox name is meant to stay visible. `SectionKeptIff` and `PlainSectionDecodesIff` say
  exactly when it does; otherwise the ASCII characters outside the base64 alphabet are dropped (`ForeignCharsVanish`).
  `AGE!` stays and `AGE!!!!` becomes `a` (`MalformedCanStay`, `MalformedCanVanish`).
* The chunker speaks of preferring page and paragraph boundaries; the last line break before the target always wins
  (`BoundaryIsLastNewline`; `PageBreakLoses` is an instance).
* Coalescing may replace a payload that counts evidence by one that does not (`EvidenceCanBeForgotten`); over a whole
  sequence of events `EvidenceKeptIff` says when evidence is kept. A stored priority of 0 keeps its payload when a
  negative one arrives (`ZeroPriorityShadowsNegative`), so the payload need not be the one counted from the first event
  of least priority; `FirstLeastRuleIff` says exactly when it is.
* Merging a more confident observation can lower an entity's context (`ContextCanDrop`, `ContextIsStrongestIff`).
* A confidence of NaN passes the threshold and becomes 1 (`NaNBecomesCertain`, `NaNActsAsOne`; `NaNIsAccepted` is an
  instance).
* A secret that itself begins with `enc:v1:` is stored as it is and cannot be read back (`ReadsBackIff`,
  `SetThenGetIff`); `set_credential` strips the account name and `get_credential` does not (`LookupFindsStoredIff`).
* Associated data join their parts with bars. A credential row shares them with another row exactly when some part of
  its key contains a bar (`SharesDataIff`; `BarsCanMergeRows` is an instance).
* Scoping legacy identities is all or nothing. Without blank user names the order of the rows does not matter
  (`BlockedIsHopeless`); in general `OrderDecidesIff` says when it decides (`BlankNameExample` is an instance).

## Model

| member | source | states |
|---|---|---|
| MailSync.StateDB.LoadOrInitialize | rag/mail_sync.py:566-616 | returns the stored row if its epoch matches; otherwise a fresh one at the mailbox head whose legacy prefix holds exactly the UIDs the older cursor table knows of this or an unknown epoch; persists it exactly when asked to |
| MailSync.StateDB.SaveLive | rag/mail_sync.py:618-627 | changes only the live watermark and epoch of an existing row |
| MailSync.StateDB.SaveBackfillBefore | rag/mail_sync.py:629-644 | changes only the backfill watermark and epoch of an existing row |
| MailSync.SyncMailbox | rag/mail_sync.py:1123-1152 | one run handles a prefix of the queue "live ascending, then backfill descending", as many messages as the limit (none if not positive; the command line wins over the configuration) and the first failure allow; the row records exactly that prefix, a dry run nothing |
| MailSync.ImportLive | rag/mail_sync.py:1260-1280 | commits the live batch in order up to the first failure |
| MailSync.ImportBackfill | rag/mail_sync.py:1262-1282 | commits the backfill batch in order up to the first failure |
| MailSync.BatchesAreQueuePrefix | rag/mail_sync.py:1143-1152 | splitting one budget over the two batches equals taking a prefix of the joint queue |
| MailSync.PendingOrder | rag/mail_sync.py:1136-1141 | live messages are handled upwards, history downwards |
| MailSync.RunDropsPrefix | rag/mail_sync.py:1136-1152 | after any prefix was committed, what is pending is exactly the rest of the queue; live rises, backfill falls, the watermarks do not cross |
| MailSync.AfterIs | rag/mail_sync.py:1260-1282 | what a run leaves in the row: nothing taken changes nothing; otherwise the epoch read and the last UID taken on each side |
| MailSync.TakenAreNew | rag/mail_sync.py:1260-1282 | a run never takes a UID archived before, and all archived UIDs lie between the watermarks |
| MailSync.StepKeepsInv | rag/mail_sync.py:566-644 | every event (arrival, expunge, crash, run) keeps the invariant and moves the watermarks only apart |
| MailSync.WatermarksAreSafe | rag/mail_sync.py:566-644 | over every history of one non-zero epoch: no UID archived twice, watermarks monotone and never crossing, archived messages stay archived |
| MailSync.ExecKeepsAccounted | rag/mail_sync.py:1136-1152 | over every history a message that stays present and eligible is archived, in the legacy prefix, or still reachable |
| MailSync.ExactlyOnce | rag/mail_sync.py:1126-1152 | from the start of an epoch, every present eligible message that the older cursor table does not reach (an entry of another non-zero epoch reaches nothing) is either archived once or queued, never both |
| MailSync.ReachedIff | rag/mail_sync.py:549-564 | over every history, from the cursor table alone: a message present from the start of the epoch is archived or queued iff no entry of this epoch, or without epoch, reaches it |
| MailSync.LegacyIsKept | rag/mail_sync.py:549-564 | the legacy prefix of an epoch never changes |
| MailSync.PerformRun | rag/mail_sync.py:1101-1152 | a run of the transition system is what one call does to the table and archives |
| MailSync.FullRun | rag/mail_sync.py:1143-1152 | a run without failures takes exactly min(budget, backlog) messages from the front of the queue |
| MailSync.DrainBound | rag/mail_sync.py:1136-1152 | repeated runs with budget b take min(backlog, runs * b) messages in queue order |
| MailSync.RunsToEmpty | rag/mail_sync.py:1143-1152 | the backlog is empty after some runs iff runs * b reaches its length |
| MailSync.UnlimitedRunEmpties | rag/mail_sync.py:1143-1152 | a budget of 0 or less empties the backlog in one run |
| MailSync.ZeroReadDisarmsEpochCheck | rag/mail_sync.py:584-627 | once a validity of 0 was saved, every later epoch adopts the row |
| MailSync.UnseenIff | rag/mail_sync.py:566-616 | for every table and every value read, zero included: exactly which present messages a run does not look for, read off the stored row and the cursor table |
| MailSync.StrandedIff | docs/KNOWN-LIMITATIONS.md:219-221 | a message drops out of reach in a run iff it is not eligible and the run archives a newer one of the live side, or an older one of the backfill; all read off before the run |
| MailboxName.EncodeMailbox | rag/mail_sync.py:854-876 | the loop with its shift buffer computes the encoding |
| MailboxName.DecodeMailbox | rag/mail_sync.py:819-851 | the scanning loop computes the decoding |
| MailboxName.QuoteMailbox | rag/mail_sync.py:879-881 | two successive replacements compute the quoted form |
| MailboxName.UnquoteToken | rag/mail_sync.py:884-901 | strips the quotes and undoes the escapes |
| MailboxName.UnescapeLoop | rag/mail_sync.py:888-900 | the byte loop with its `escaped` flag computes the unescaping |
| MailboxName.UnescapeIs | rag/mail_sync.py:884-901 | whatever the server sent: a backslash gives the character behind it, any other character itself; a last backslash stays |
| Encodings.Base64RoundTrip | rag/mail_sync.py:843-865 | decoding inverts encoding for every octet sequence, with padding |
| Encodings.SymbolsAreTheAlphabet | rag/mail_sync.py:846-864 | symbol n is the n-th character of the alphabet of section 4 of RFC 4648, and exactly the characters outside it have no value |
| Encodings.Utf16RoundTrip | rag/mail_sync.py:845-864 | big-endian UTF-16 with surrogate pairs is inverted for every string |
| MailboxName.ShiftedRoundTrip | rag/mail_sync.py:839-865 | one shifted section decodes to its text and contains neither `&` nor `-` |
| MailboxName.EncodeDecodes | rag/mail_sync.py:819-876 | decode inverts encode for every text and every pending buffer |
| MailboxName.EncodeIsPrintable | rag/mail_sync.py:854-876 | the wire form is printable ASCII |
| MailboxName.SentVerbatimIff | rag/mail_sync.py:868-876 | a name is sent unchanged iff it is printable ASCII without `&` |
| MailboxName.TwoReplacesAreOneEscape | rag/mail_sync.py:879-881 | the two sequential replacements equal one escape per character |
| MailboxName.UnquoteQuote | rag/mail_sync.py:879-901 | unquoting a quoted name gives its encoding |
| MailboxName.MailboxRoundTrip | rag/mail_sync.py:819-901 | every name survives quoting, unquoting and decoding; the wire form is printable |
| MailboxName.QuoteInjective | rag/mail_sync.py:854-881 | two names never share a wire form |
| MalformedNames.OctetsExistIff | rag/mail_sync.py:844-846 | base64 decoding succeeds iff the symbols fill their groups or some pad completes one |
| MalformedNames.Utf16DecodesIff | rag/mail_sync.py:846-846 | the strict decoder accepts octets iff they are the encoding of some text |
| MalformedNames.SectionKeptIff | rag/mail_sync.py:839-849 | a section is kept as received iff it holds a character beyond ASCII, or has no whole octets, or they encode no text |
| MalformedNames.PlainSectionDecodesIff | rag/mail_sync.py:843-846 | for an ASCII section without `=`: counting its symbols and its other characters decides |
| MalformedNames.ForeignCharsVanish | rag/mail_sync.py:846-846 | an ASCII character outside the alphabet changes nothing for the decoder, wherever it stands |
| GraphQueue.GraphQueue.constructor | rag/graph_queue.py:116-179 | opening compacts the table |
| GraphQueue.GraphQueue.CoalesceExistingActiveJobs | rag/graph_queue.py:181-235 | collapses every document with several active jobs |
| GraphQueue.GraphQueue.CoalesceDocument | rag/graph_queue.py:199-234 | one running, else first, job absorbs the counts of the others |
| GraphQueue.GraphQueue.EnqueueEvidence | rag/graph_queue.py:270-390 | each non-blank document is absorbed by its active job or inserted; the returned ids are exactly the new rows, and every event is accounted for |
| GraphQueue.GraphQueue.RecoverStaleRunning | rag/graph_queue.py:401-421 | returns exactly the running jobs without start time or started more than max(60, limit) seconds ago to pending |
| GraphQueue.GraphQueue.ClaimNext | rag/graph_queue.py:423-456 | claims the least (priority, id) among pending jobs, and nothing only if none is pending |
| GraphQueue.GraphQueue.Finish | rag/graph_queue.py:458-480 | skipped as oversize iff there are documents and all were; otherwise done with errors iff errors are reported, else done; no other row changes |
| GraphQueue.GraphQueue.Fail | rag/graph_queue.py:482-493 | sets pending or failed |
| GraphQueue.Keeper | rag/graph_queue.py:200-212 | the active job kept: the first running one, else the first pending one |
| GraphQueue.NextPending | rag/graph_queue.py:429-436 | the least (priority, id) among pending jobs |
| GraphQueue.CompactedRows | rag/graph_queue.py:181-235 | what opening does to every single row, whatever the table |
| GraphQueue.CollapseCredit | rag/graph_queue.py:211-234 | collapsing conserves the number of events counted |
| GraphQueue.OpeningEstablishesOneActive | rag/graph_queue.py:181-235 | from any table: afterwards at most one active job per document, none lost, events conserved |
| GraphQueue.OpeningIsIdempotent | rag/graph_queue.py:181-235 | a table with one active job per document is left alone |
| GraphQueue.EnqueueOneSafe | rag/graph_queue.py:303-390 | one event adds one to the total, keeps one-active, touches no status, and leaves the document active |
| GraphQueue.EnqueueAllSafe | rag/graph_queue.py:303-390 | the same for a whole call |
| GraphQueue.RetryKeepsOneActiveIff | rag/graph_queue.py:482-493 | returning a job to pending keeps one-active iff it was active or its document has no active job |
| GraphQueue.StepKeepsInv | rag/graph_queue.py:181-493 | every action keeps one-active, conservation and the attempts bound |
| GraphQueue.Perform | rag/graph_queue.py:181-493 | every action of the transition system is what the queue's methods do |
| GraphQueue.ClaimIs | rag/graph_queue.py:423-456 | a claim starts the least (priority, id) pending job iff there is one and no job is claimed |
| GraphQueue.SettlingIs | rag/graph_queue.py:458-493 | a result or an exception settles exactly the claimed job, by the report or by its attempts |
| GraphQueue.RecoveriesAre | rag/graph_queue.py:401-421 | recoveries are counted exactly where a restart returns a stale job to pending |
| GraphQueue.EveryRunIsSafe | rag/graph_queue.py:181-493 | over every run: one active job per document; 1 + coalesced count summed over rows not coalesced equals the events accepted; attempts at most max(1, limit) plus stale recoveries |
| GraphQueue.OpenedTableIsSafe | rag/graph_queue.py:179-235 | any table within the attempts bound starts such a run once opened |
| GraphQueue.FirstLeast | rag/graph_queue.py:343-357 | the first event of least priority |
| GraphQueue.AbsorbClosedForm | rag/graph_queue.py:323-369 | priority and payload of a coalesced job in closed form, for every event sequence: the payload of the last event that lowered the priority from anything but 0, or of the first one after it that counts evidence |
| GraphQueue.LastDrop | rag/graph_queue.py:343-347 | the last event that lowers the priority from anything but 0 |
| GraphQueue.LastDropIsFirstLeastIff | rag/graph_queue.py:343-357 | that event is the first of least priority iff the latter did not lower the priority from exactly 0; always so without negative priorities |
| GraphQueue.FirstLeastRuleIff | rag/graph_queue.py:343-369 | the payload kept is the one counted from the first event of least priority iff that holds, or evidence appears from that event on but not between the last drop and it |
| GraphQueue.EvidenceKeptIff | rag/graph_queue.py:340-369 | over every sequence of events the job ends with evidence iff some event from the last drop on counts it |
| GraphQueue.FlagDecides | rag/graph_queue.py:343-347 | at equal priority a payload without the flag gives way exactly to one with it or an unreadable one; one with it, or an unreadable one, never gives way |
| GraphQueue.FirstFlagStays | rag/graph_queue.py:340-369 | without a lower priority the stored payload stays if its flag is set or no event has it; otherwise the first event with the flag replaces it for good |
| GraphQueue.CallAbsorbsOwnEvents | rag/graph_queue.py:303-369 | a whole call leaves a document's active row with exactly the document's own events absorbed in order, and it stays the active one |
| GraphQueue.CallInsertsFirstEvent | rag/graph_queue.py:303-389 | without an active row the first own event inserts one and the others are absorbed by it |
| GraphQueue.CallKeepsEvidence | rag/graph_queue.py:303-369 | a whole call without a lower priority leaves the flag set iff it was, or one of the document's own events has it |
| GraphQueue.CallStartsWithEvidence | rag/graph_queue.py:303-389 | the same for the row a call inserts: pending, untried, of the first event's priority |
| GraphQueue.StoredRowClosedForm | rag/graph_queue.py:303-369 | priority, payload, count and evidence of the stored row after a whole call, in closed form |
| GraphQueue.EvidenceCanBeForgotten | rag/graph_queue.py:343-357 | one non-evidence event replaces an evidence payload iff its priority is lower and the stored one is not 0 |
| GraphWorker.ProcessNext | rag/graph_worker.py:174-241 | one turn claims the least pending job and settles or returns it; without a pending job nothing changes |
| GraphWorker.Drain | rag/graph_worker.py:157-248 | the loop empties the queue within the sum of max(1, limit - attempts) claims and leaves every job as its attempts decide |
| GraphWorker.Settle | rag/graph_worker.py:182-241 | where a job ends: the first successful attempt, or failed after the last allowed one |
| GraphWorker.AttemptProgresses | rag/graph_worker.py:182-241 | every attempt stays on the way to that end and lowers the work left |
| GraphWorker.WorkAddsUp | rag/graph_worker.py:182-241 | the claim bound adds up over the rows: max(1, limit - attempts) for a pending one |
| Acl.FileIdIff | rag/acl.py:91-103 | the id is the digits after `files:` in the document id, else the first of the three other fields that holds only digits; none without either |
| Acl.DigitFieldIs | rag/acl.py:98-102 | which values are ids: positive numbers as written, and texts that hold only digits once stripped |
| FileIdQuery.NestedOr | rag/acl.py:106-128 | keeps all leaves in order, n - 1 inner nodes, depth exactly the number of halving rounds |
| FileIdQuery.RoundsIsLog2 | rag/acl.py:106-128 | the number of rounds is the rounded-up binary logarithm |
| FileIdQuery.FoldPairs | rag/acl.py:117-126 | one level: pairs joined, leaves kept, depth one more |
| FileIdQuery.HoldsIffLeaf | rag/acl.py:106-128 | an OR tree holds for an id iff it is one of its leaves |
| FileIdQuery.BuildFileIdSearch | rag/acl.py:131-168 | the query tree evaluates to membership in the stripped numeric ids, each asked once, at minimal depth; refused iff none is left |
| Acl.CollectIds | rag/acl.py:490-505 | the file ids of all representatives and duplicates, in order |
| Acl.QueryBatches | rag/acl.py:512-536 | for every batch size the answers together are the visible ids asked; fails iff some batch asked fails, with the error of the first one |
| Acl.Authorize | rag/acl.py:481-557 | for every batch size: one entry, in order, for every result that is visible itself or through a duplicate and none for others; a visible one keeps its fields and visible duplicates, a denied one is replaced by its first visible duplicate with the later visible ones; fails iff a needed batch fails |
| Acl.FilterGroups | rag/acl.py:537-557 | the filtering loop computes these entries |
| Acl.FilterAllEntries | rag/acl.py:537-557 | the entries of the output, read off ids and duplicates |
| Acl.PromotedKeys | rag/acl.py:231-299 | where every field of a promoted result comes from: identity from the duplicate, completed by its file id; ranking from the representative; texts recomputed; graph evidence and everything else dropped |
| Acl.PromotedSnippet | rag/acl.py:272-283 | the snippet is the first of four fields that says something; the context text falls back on title and path |
| Acl.OthersVanish | rag/acl.py:494-497 | a duplicate that is no record is passed over wherever it stands |
| Acl.AllAgree | rag/acl.py:490-557 | only the visibility of ids occurring in the results matters |
| Acl.PromotedHasVariantId | rag/acl.py:231-299 | a promoted result carries the visible duplicate's file id and the remaining visible duplicates |
| Acl.ItemIsAuthorized | rag/acl.py:537-557 | a result and all its duplicates in the output are visible |
| Acl.OnlyVisibleLeaves | rag/acl.py:481-557 | nothing denied leaves the boundary |
| Acl.FilteredIsFixed | rag/acl.py:231-299 | a result already filtered, promoted or not, is a fixpoint |
| Acl.FilterIsIdempotent | rag/acl.py:481-557 | filtering twice equals filtering once |
| Acl.ItemsIndistinguishable | rag/acl.py:231-299 | a promoted result depends on the denied representative through ranking fields only |
| Acl.DeniedContentIsIrrelevant | rag/acl.py:481-557 | lists that differ only in denied content give equal output |
| Chunking.ChunkText | rag/graph_indexer.py:674-709 | the chunks are the non-blank windows, verbatim |
| Chunking.WindowLoop | rag/graph_indexer.py:684-709 | the loop walks the specified windows |
| Chunking.BoundaryIsLastNewline | rag/graph_indexer.py:690-701 | the three searches together find the last line break |
| Chunking.WindowsChained | rag/graph_indexer.py:684-709 | consecutive windows share exactly the clamped overlap, advance by at least A and end at the text's end |
| WindowRules.WindowEndsAtBreak | rag/graph_indexer.py:687-701 | a window that does not reach the end ends behind the last line break of its last three tenths, else at its full length |
| WindowRules.ChunksAre | rag/graph_indexer.py:674-709 | the chunks from the two settings and the text alone: defaults and clamps, where windows end and start, and that exactly the blank ones are dropped |
| Chunking.WindowCount | rag/graph_indexer.py:684-709 | at most 1 + ceil((n - c) / A) windows |
| Chunking.ChunksFit | rag/graph_indexer.py:684-709 | no chunk is empty or longer than `chunk_chars` |
| Chunking.StretchInOneWindow | rag/graph_indexer.py:684-709 | every stretch of at most overlap + 1 characters lies whole in one window |
| Chunking.StretchInOneChunk | rag/graph_indexer.py:674-709 | every non-blank such stretch lies whole in one returned chunk |
| Chunking.VectorChunks | rag/chunker.py:24-60 | the loop returns the stripped non-blank windows; it ends for every size >= 1 and overlap >= 0 |
| Chunking.VectorWindowsGapless | rag/chunker.py:32-60 | its windows leave no gap |
| WindowRules.VectorWindowsFollowRules | rag/chunker.py:32-60 | its windows end behind the last paragraph break or full stop of their last 500 characters, else at full size, and overlap as set while that moves on |
| WindowRules.StrippedTextsAre | rag/chunker.py:49-53 | the chunks are the stripped texts of exactly the windows that are not blank, in order |
| Chunking.VectorChunksCover | rag/chunker.py:32-60 | every non-blank character lies in a returned chunk |
| AdaptiveSplit.AtMostFourParts | rag/graph_indexer.py:1263-1267 | a split gives at most four parts |
| AdaptiveSplit.AttemptBound | rag/graph_indexer.py:1269-1303 | one root needs at most (4^(D+1) - 1) / 3 extraction attempts |
| AdaptiveSplit.SplitsExactly | rag/graph_indexer.py:1263-1303 | a chunk is split iff its output stayed malformed, the depth allows, it is longer than the least size and has two parts; the parts are its chunks at half its size |
| AdaptiveSplit.AttemptsAndLeaves | rag/graph_indexer.py:1269-1303 | n leaves take at least n and fewer than 2n attempts |
| AdaptiveSplit.LeavesArePieces | rag/graph_indexer.py:1263-1303 | every leaf is a contiguous piece of its root with the extractor's outcome |
| AdaptiveSplit.NothingIsLost | rag/graph_indexer.py:1269-1303 | every non-blank position ends in a leaf that succeeded or is recorded in the errors |
| AdaptiveSplit.FoundSomewhere | rag/graph_indexer.py:1302-1303 | everything found comes from a successful leaf |
| AdaptiveSplit.RootLeavesArePieces | rag/graph_indexer.py:1305-1308 | the same for all roots of a text |
| EntityDiscovery.Discovery.MergeObservations | rag/graph_indexer.py:1243-1261 | merges observation by observation |
| EntityDiscovery.Discovery.ProcessChunk | rag/graph_indexer.py:1269-1303 | merges and records exactly the leaves of the chunk; succeeds iff one leaf did |
| EntityDiscovery.Discovery.ProcessParts | rag/graph_indexer.py:1283-1290 | the same for the parts of a split |
| EntityDiscovery.Discovery.Discover | rag/graph_indexer.py:1234-1315 | fails exactly when there are roots and no leaf of any root succeeded; otherwise returns the merge of all found and the recorded failures |
| EntityDiscovery.DiscoveryLosesNothing | rag/graph_indexer.py:1234-1315 | the accounting of positions over the whole document |
| EntityDiscovery.MergedByKey | rag/graph_indexer.py:1243-1261 | one entity per key, built from exactly that key's observations |
| EntityDiscovery.EntityClosedForm | rag/graph_indexer.py:1243-1261 | evidence of the first most confident observation; context of top rank from there on; count of all |
| EntityDiscovery.ContextIsStrongestIff | rag/graph_indexer.py:1252-1261 | the merged context is the strongest seen iff nothing before the most confident observation outranks everything from it on |
| EntityDiscovery.ContextCanDrop | rag/graph_indexer.py:1252-1261 | a pair of observations that lowers the context |
| Sorting.SortSorts | rag/graph_indexer.py:234-234 | the sort is ordered and a permutation |
| Sorting.SortIsStable | rag/graph_indexer.py:263-264 | elements that the order does not tell apart keep their order |
| Spans.SelectSpans | rag/graph_entities.py:185-198 | the greedy loop over sorted hits |
| Spans.GreedyIsDisjoint | rag/graph_entities.py:265-275 | accepted spans are disjoint from each other and from those occupied before |
| Spans.RejectedOverlaps | rag/graph_entities.py:265-275 | a rejected hit overlaps an earlier accepted or an occupied span |
| Spans.SelectionIsMaximal | rag/graph_entities.py:185-198 | disjoint, ordered, and every rejected hit overlaps an accepted one at least as strong |
| Spans.OverlapIff | rag/graph_entities.py:193-195 | hits overlap iff each starts before the other ends; for non-empty ones iff they share a position |
| Mentions.DetectMentions | rag/graph_indexer.py:228-264 | mentions collected per spelling and status from the selected hits, in the order returned |
| Mentions.DetectedIsOrdered | rag/graph_indexer.py:263-264 | the answer is sorted by status and spelling and rearranges the mentions collected |
| Mentions.MentionsAccount | rag/graph_indexer.py:236-261 | every exact mention rests on a hit that names one entity, every such hit is in a mention, and no two mentions share spelling and status |
| Mentions.MentionResolves | rag/graph_indexer.py:1660-1673 | a mention with one candidate: some hit with its spelling names that entity only, and every single-candidate hit with it does |
| Mentions.AllowedAreResolved | rag/graph_indexer.py:1652-1673 | an entity is allowed only with forms that were exactly and unambiguously resolved to it |
| Mentions.FirstRecordIsKept | rag/graph_indexer.py:1664-1670 | it keeps the candidate record of the first mention that resolves to it |
| MentionRules.MentionsAre | rag/graph_indexer.py:244-261 | every hit is in the group of one mention; a mention has its first hit's text, the number of its hits and the best of all their candidates |
| MentionRules.BestIsFirst | rag/graph_indexer.py:240-261 | per entity the first of the best-scoring candidates is kept |
| MentionRules.AllowedIff | rag/graph_indexer.py:1660-1673 | allowed are exactly the entities some mention resolves to, with exactly the non-empty spellings of those mentions |
| Ontology.CompatibleDocumentPredicates | rag/ontology.py:137-166 | the loop selects the predicates permitted for the pair |
| Ontology.AcceptedIffCompatibleAndCued | rag/ontology.py:232-268 | validation accepts iff the predicate is among the compatible ones and a required cue occurs |
| Ontology.AcceptedIffEntryAllows | rag/ontology.py:232-268 | acceptance read off the ontology entry: sources, types, kinds and cues |
| Ontology.ReasonIsFirst | rag/ontology.py:232-268 | the reason given is the first of seven that applies |
| RelationDiscovery.NormalizedNameIsKey | rag/graph_indexer.py:384-387 | a normalised predicate name is its own ontology key |
| RelationRules.WordsAndRuns | rag/graph_indexer.py:386-386 | in a predicate name words are kept and every run between them becomes one underscore |
| RelationRules.NameIs | rag/graph_indexer.py:384-387 | the name is the first 64 characters of that, stripped of outer underscores, in upper case |
| RelationDiscovery.ValidatedIsGrounded | rag/graph_indexer.py:1541-1625 | every accepted item is grounded in the chunk |
| RelationDiscovery.AcceptedIff | rag/graph_indexer.py:1541-1625 | an item is accepted iff its stripped fields meet every condition, the confidence reaching the threshold among them; the record holds its own confidence, stance, texts and dates |
| RelationDiscovery.RejectedForFirst | rag/graph_indexer.py:1541-1608 | a rejected item is rejected for the first objection that holds, in the order of the checks |
| RelationDiscovery.NaNBecomesCertain | rag/graph_indexer.py:1600-1618 | NaN is never rejected for its value and becomes 1 |
| RelationDiscovery.NaNActsAsOne | rag/graph_indexer.py:1600-1618 | it is treated exactly as a confidence of 1 under a threshold of at most 1 |
| RelationDiscovery.ValidatedRelations | rag/graph_indexer.py:1516-1626 | one relation, in order, for every acceptable item of the capped answer, recording what it says, and one rejection with the first objection for every other object |
| RelationDiscovery.AcceptedAreGrounded | rag/graph_indexer.py:1516-1626 | the same guarantee for a whole answer |
| RelationDiscovery.MergedIsBest | rag/graph_indexer.py:1732-1741 | one relation per key, of maximum confidence, and it was observed |
| RelationDiscovery.Discovery.AllowedEntities | rag/graph_indexer.py:1652-1673 | the entities exactly resolved in the chunk |
| RelationDiscovery.Discovery.MergeRelations | rag/graph_indexer.py:1732-1741 | merges relation by relation |
| RelationDiscovery.Discovery.ProcessChunk | rag/graph_indexer.py:1651-1741 | merges exactly what the leaves of the chunk found and appends exactly its diagnostics |
| RelationDiscovery.Discovery.ProcessParts | rag/graph_indexer.py:1698-1717 | the same for the parts of a split |
| RelationDiscovery.Discovery.Discover | rag/graph_indexer.py:1628-1745 | returns the merge over all roots and the diagnostics: rejections, splits and extractor errors in order |
| RelationDiscovery.RootErrorsAreFailures | rag/graph_indexer.py:1698-1730 | the extractor errors reported are exactly the failed leaves, in order |
| RelationDiscovery.AttemptIsGrounded | rag/graph_indexer.py:1651-1697 | each relation of one attempt names two entities exactly resolved under a form inside the evidence |
| RelationDiscovery.EveryRelationIsGrounded | rag/graph_indexer.py:1516-1745 | for every model: each returned relation was found in one processed piece, a contiguous part of the document, is grounded there, and is the most confident of its key |
| RelationRules.AttemptIs | rag/graph_indexer.py:1651-1697 | one attempt: fewer than two allowed entities ask nothing; an answer yields its acceptable items |
| RelationRules.AcceptableIsReturned | rag/graph_indexer.py:1516-1745 | conversely, for every model: each acceptable item of the answer to a processed piece is returned under its key with at least its confidence |
| RelationRules.AnswerReportIs | rag/graph_indexer.py:1516-1697 | what one answer reports: the first objection to every unacceptable object, in order |
| RelationRules.RejectionsAreReported | rag/graph_indexer.py:1651-1745 | the rejections among the diagnostics are exactly those reports, over all processed pieces |
| EntityResolution.Disambiguate | rag/graph_entities.py:387-429 | the in-place loop ends within (ambiguous entities + 1) rounds |
| EntityResolution.DecideAll | rag/graph_entities.py:391-429 | one round decides every entity by those resolved before it |
| EntityResolution.DecideChangesIff | rag/graph_entities.py:394-428 | an entity changes iff it is ambiguous and a candidate of its own wins: linked, with a greater score than every other linked id; it becomes the first such candidate |
| EntityResolution.RoundDecides | rag/graph_entities.py:391-429 | a round does that for every entity in the context of the ids resolved before it |
| EntityResolution.ScoreAddsUp | rag/graph_entities.py:401-405 | the score adds up over the links, each counting its relations and at least one |
| EntityResolution.ResolvedIdsAre | rag/graph_entities.py:391-391 | the context: the non-empty ids of the resolved entities, in order |
| EntityResolution.RoundEvolves | rag/graph_entities.py:391-429 | resolved and fuzzy entities never change; an ambiguous one is settled on its own candidate |
| EntityResolution.FinalIsFixpoint | rag/graph_entities.py:387-429 | at exit no entity is decidable against the final resolved set |
| SecretCrypto.ReadsBackIff | rag/secret_crypto.py:137-170 | what is accepted reads back iff the text does not look encrypted; stored sealed iff the cipher is enabled |
| SecretCrypto.DecryptIs | rag/secret_crypto.py:154-170 | plain text reads as it is unless refused, sealed text through the key; which error otherwise |
| Credentials.CopiedSecretOpensIff | rag/credential_store.py:761-775 | a sealed secret copied into another row opens there iff the rows share their associated data, so never when its own key is free of bars |
| Credentials.SplitInvertsScope | rag/credential_store.py:42-60 | splitting undoes scoping |
| CredentialRules.ValidClientIff | rag/credential_store.py:37-46 | a client name is 1 to 80 ASCII letters, digits, dots, underscores and hyphens |
| IdentityScoping.SplitScopedIff | rag/credential_store.py:53-60 | a name splits at its first separator iff neither part is empty |
| Credentials.PrefixIffScoped | rag/credential_store.py:53-60 | for every name: it has a client's prefix iff it does not begin with a blank and is scoped to the client or is the prefix with an empty user |
| Credentials.SharesDataIff | rag/credential_store.py:212-214 | some other credential row has the same associated data iff a part of the key contains a bar |
| Credentials.AadSeparates | rag/credential_store.py:212-214 | without bars in user and service names the data tell two credential rows apart, whatever their accounts |
| Credentials.KindsSeparate | rag/credential_store.py:212-222 | credential, flow and session data never coincide |
| Credentials.IdsSeparate | rag/credential_store.py:216-222 | flow and session data determine the row when the ids are free of bars |
| Credentials.NothingPlainRemains | rag/credential_store.py:477-521 | after the plaintext migration everything is encrypted, and a second one changes nothing |
| Credentials.ScopingFailsIff | rag/credential_store.py:679-722 | on readable tables scoping fails iff the client is invalid or a new place is taken |
| Credentials.BlockedIsHopeless | rag/credential_store.py:693-720 | without blank user names whether a row is in the way does not depend on the order of the rows |
| Credentials.ScopedOnce | rag/credential_store.py:679-722 | afterwards nothing unscoped is left, and scoping again for any client changes nothing |
| IdentityScoping.MovableIff | rag/credential_store.py:693-696 | exactly the names without client that do not begin with the canonical prefix are moved |
| IdentityScoping.ScopingMovesLegacy | rag/credential_store.py:679-722 | on readable tables: every cleartext ends in its new place, in the same row otherwise, and nothing else changes |
| IdentityScoping.ScopingFailsIff | rag/credential_store.py:679-722 | it fails iff the client is invalid or the new place of a legacy row is taken |
| IdentityScoping.RenamedRow | rag/credential_store.py:697-706 | for every table: only an encrypted secret that moves is opened and sealed again |
| IdentityScoping.MovedStaysSealed | rag/credential_store.py:700-702 | sealed secrets stay sealed and plain ones plain |
| Credentials.StepRefines | rag/credential_store.py:477-783 | every accepted operation keeps all secrets readable under their current row and acts on the cleartexts as on plain tables |
| Credentials.EveryRunRefines | rag/credential_store.py:477-783 | the same over every run |
| Credentials.FollowKeeps | rag/credential_store.py:650-751 | an operation that neither overwrites nor deletes a credential leaves its cleartext where it moved it |
| Credentials.SecretsSurvive | rag/credential_store.py:477-775 | a secret survives every run of migrations, renamings and other writes |
| Credentials.DeleteClientIsExact | rag/credential_store.py:650-673 | from credentials, login flows and bindings exactly the rows that belong to the client are removed; sessions, users and other clients stay |
| CredentialRules.DeleteClientKeeps | rag/credential_store.py:650-673 | an unknown client changes nothing; without purging only the client goes |
| Credentials.LookupFindsStoredIff | rag/credential_store.py:727-759 | reading looks at the row written iff the account name has no surrounding blanks |
| CredentialRules.KeysAre | rag/credential_store.py:727-759 | where a credential is written and where it is looked for, part by part |
| Credentials.SetThenGetIff | rag/credential_store.py:727-775 | a stored secret reads back iff it does not look encrypted; no other row reads differently |
| Credentials.SoundReads | rag/credential_store.py:753-775 | reading gives the cleartext, unless plaintext is refused |
| CredentialStore.CredentialStore.constructor | rag/credential_store.py:203-210 | a new store is empty |
| CredentialStore.CredentialStore.SetCredential | rag/credential_store.py:727-751 | writes exactly one encrypted row, or rejects and changes nothing |
| CredentialStore.CredentialStore.GetCredential | rag/credential_store.py:753-775 | decrypts the row looked up |
| CredentialStore.CredentialStore.DeleteCredential | rag/credential_store.py:777-783 | deletes exactly the row looked up |
| CredentialStore.CredentialStore.CreateNextcloudFlow | rag/credential_store.py:1669-1678 | adds one flow with a token bound to flow and user |
| CredentialStore.CredentialStore.CreateCurationSession | rag/credential_store.py:1003-1045 | opens a session only with an enabled cipher and a user who may curate |
| CredentialRules.SessionOpensIff | rag/credential_store.py:1003-1045 | a session is opened iff there is a usable key, a known, enabled user with the right to curate, and a free digest |
| CredentialRules.SessionRefused | rag/credential_store.py:1012-1019 | otherwise it is refused for the first of these reasons |
| CredentialStore.CredentialStore.MarkRevocationPending | rag/credential_store.py:1101-1106 | the session stays but is no longer active |
| CredentialStore.CredentialStore.DeleteSession | rag/credential_store.py:1108-1114 | deletes exactly that session |
| CredentialStore.CredentialStore.MigratePlaintextSecrets | rag/credential_store.py:477-521 | encrypts exactly the plaintext rows of the three tables and counts them |
| CredentialStore.CredentialStore.MigrateLegacyIdentities | rag/credential_store.py:679-722 | moves all unscoped rows or none, whatever the table: fails iff, in the order the rows come, one is in the way or does not open; counts the credentials moved |
| CredentialStore.RenameCredentials | rag/credential_store.py:693-707 | the loop over the rows in the order given; success gives the renamed table, failure means that some row's place is taken or its secret does not open |
| CredentialStore.InOrderIff | rag/credential_store.py:693-707 | an order succeeds iff every row's secret opens and a row in its new place has moved on before |
| CredentialStore.InOrderIsRenamed | rag/credential_store.py:693-707 | every successful order gives the same renamed table |
| CredentialStore.OrderDecidesIff | rag/credential_store.py:693-707 | some order fails iff some row may not be moved, and some order succeeds iff no row is blocked for good |
| CredentialStore.RenameFlows | rag/credential_store.py:708-719 | the same for flows |
| CredentialStore.CredentialStore.DeleteClient | rag/credential_store.py:650-673 | deletes the client and, if asked, its rows; reports whether it existed |
| CurationSessions.InvalidateSession | rag/curation_ui.py:151-165 | marks first, deletes once revoked |
| CurationSessions.CleanupStaleSessions | rag/curation_ui.py:168-200 | found = revoked + pending = all sessions; removes exactly the readable ones the server revoked |
| CurationSessions.RestartEndsAll | rag/curation_ui.py:168-200 | a restart keeps exactly the sessions it cannot read or the server does not revoke, unchanged but inactive |
| CurationSessions.PendingCanBeRevokedLater | rag/curation_ui.py:170-184 | a later start with the right key still revokes what an earlier one kept |
| CurationSessions.SessionFromRequest | rag/curation_ui.py:269-285 | answers and invalidates as specified |
| CurationSessions.AcceptedIff | rag/curation_ui.py:269-285 | accepted iff enabled, active, unexpired, readable and the user may curate; any other request for a readable session ends it |
| CurationSessions.AnswerIs | rag/curation_ui.py:269-285 | which of the answers a request gets, and that exactly a refused known session is invalidated |
| CurationSessions.NothingRevives | rag/curation_ui.py:151-200 | no operation but opening makes a session live |
| CurationSessions.RevokedIsNeverAccepted | rag/curation_ui.py:151-285 | over every run: invalidated, refused or restarted once, never accepted again |
| RankFusion.OneChunkPerDocument | rag/hybrid_search.py:335-372 | one usable chunk per document, no document missed |
| RankFusion.BestChunkIsKept | rag/hybrid_search.py:335-372 | it is the best one when the store answers best first |
| FusionRules.FirstChunksAre | rag/hybrid_search.py:338-369 | kept are exactly the first chunks of their documents that reach the threshold, in order |
| RankFusion.VectorSearch | rag/hybrid_search.py:335-383 | ranks 1, 2, 3, ... given after deduplication |
| RankFusion.FuseResults | rag/hybrid_search.py:390-471 | the two accumulating loops and the stable sort compute the fusion |
| RankFusion.FusedDescribes | rag/hybrid_search.py:390-471 | the fused list is the full join of both arms, each document once, in non-increasing score |
| FusionRules.RecordIs | rag/hybrid_search.py:390-457 | every record from the places of its document: the sum of 1 / (k + place), the ranks, scores, title and snippet |
| FusionRules.FusedListIs | rag/hybrid_search.py:390-471 | one record per document of either list, scores never rise, equal scores keep their order |
| RankFusion.BetterRanksNeverScoreLower | rag/hybrid_search.py:417-457 | ranked at least as well in both arms never scores lower |
| RankFusion.TwoBeatOne | rag/hybrid_search.py:417-457 | twice rank r beats rank 1 once iff r <= k + 1, and ties at k + 2 |
| RankFusion.WorstPairIff | rag/hybrid_search.py:417-457 | the worst ranks m and n of both arms together beat rank 1 of one arm iff (m - 1)(n - 1) < (k + 1)^2 |
| RankFusion.BothPrecedeOne | rag/hybrid_search.py:390-471 | for list lengths m and n with (m - 1)(n - 1) < (k + 1)^2, or one list empty, documents of both arms strictly precede the others |
| RankFusion.LengthsDecide | rag/hybrid_search.py:390-471 | for all lists of lengths m and n that guarantee holds iff the length condition does |
| RankFusion.BoundIsTight | rag/hybrid_search.py:417-457 | in any two lists longer than k + 1 a document at rank k + 2 of both does not outscore the best of one |

## Left out

- HTTP, WebDAV, IMAP and SQL: replaced by tables and oracles; statuses, headers, timeouts and XML are not modelled.
- MailSync.SyncMailbox: a message is committed when its watermark is saved; fetching, rendering and uploading are one step that succeeds or raises, so an upload repeated after a crash is not visible, and a negative UIDVALIDITY is not modelled.
- MailboxName.MailboxRoundTrip: names are Unicode scalar values; lone surrogates are not characters here.
- GraphQueue.EveryRunIsSafe: `finish` and `fail` name only the job claimed by the single worker; timestamps, `last_error` and query ids are not modelled.
- GraphWorker.Drain: heartbeat, quiet hours, waiting times and the `--once` exit are not modelled; no job arrives while the loop drains, and every stored payload parses.
- Acl.PromotedHasVariantId: the text of list- and dictionary-valued fields is not rendered.
- Acl.FileIdIff: digits are the ASCII digits; the pattern and `isdigit()` also take other Unicode digits, which no file id contains.
- Acl.Authorize: the visible ids are fixed while the batches are asked.
- Chunking.ChunkText: `int(chunk_chars * 0.70)` is the exact floor, and whitespace is the ASCII whitespace of `Text`.
- EntityDiscovery.Discovery.Discover: admission rules and observation validation are part of the extractor oracle; error texts are reduced to chunk labels.
- RelationDiscovery.Discovery.Discover: the relations are a map, not a list in order of first discovery; diagnostics omit error texts and the done reasons.
- EntityResolution.Disambiguate: generating fuzzy candidates and re-ranking them by context are not modelled.
- Credentials.EveryRunRefines: for runs whose new secrets do not begin with the encryption prefix; the excluded case is settled by SecretCrypto.ReadsBackIff.
- Credentials.ScopingFailsIff: the kind of error of a failed migration depends on row order and is not distinguished.
- CredentialStore.CredentialStore.MigrateLegacyIdentities: the order in which the database returns the rows is given from outside.
- CredentialStore.CredentialStore.SetCredential: lower-casing is ASCII; created and updated times, mail, web, contact and model settings are not modelled.
- CredentialStore.CredentialStore.CreateCurationSession: tokens, hashes and CSRF values are given from outside; server addresses come normalised.
- CurationSessions.SessionFromRequest: the last-seen time is not modelled and concurrent requests are not interleaved.
- Mentions.DetectMentions: the fuzzy pass is not modelled; relation discovery switches it off.
- RankFusion.FusedDescribes: scores are exact reals; rounding is not modelled, and each arm is taken to list a document once.
- Key files, permissions and nonce generation: the cipher is a parameter.
- Regular-expression heuristics, word lists, MIME parsing, vCard handling, web routes, templates and health checks: many easy cases without a joint property.
