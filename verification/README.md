# Verified model of the backend's durable state

This project models the parts of the backend that own durable or shared state, and proves what they
promise. `dafny verify dfyconfig.toml` checks everything.

- **Graph store** (`Ontology`, `Graph`, `GraphMeaning`, `GraphReverse`, `GraphUndo`, `GraphGuard`,
  `GraphCompensation`, `GraphPreflight`, `Schemas`, `SchemaMeaning`, `SchemaRestore`, `Ledger`,
  `LedgerReplay`, `StoreInvariant`, `GraphDatabase`): property coercion, the mutation batch with its reverse batch, the committed-state
  evidence, preflight, schema proposals and their restoration, and the idempotency ledger. `Neo4j` and
  `Neo4jDatabase` are the second adapter.
- **Directories** (`Promotion`, `Deletion`, `Rollback`): the promotion journal and its recovery, App
  deletion through a tombstone, and the rollback hooks, as small steps with a crash possible between any
  two of them.
- **Unified diffs** (`Diff`, `DiffGrammar`, `DiffProofs`): the patch prover over line lists.
- **Launcher layout** (`Layout`, `LayoutProofs`, `LayoutFixpoint`, `LayoutService`).
- **Streams and calls** (`Sse`, `SseStream`, `JsonRpc`, `JsonRpcMeaning`, `JsonRpcClient`): the chunked event
  decoder and the JSON-RPC client (request and response rules of sections 4 and 5 of the JSON-RPC 2.0 specification; the stream
  is a dialect of section 9.2.6 of the WHATWG HTML Living Standard).
- **Subscriptions** (`Queries`, `QueryMeaning`, `SkipRule`, `Subscriptions`, `SubscriptionMeaning`,
  `SubscriptionRuns`, `SubscriptionService`): query execution, the skip rule, the manager, and runs in which broadcast passes interleave with
  everything else.
- **Provider sync** (`Catalog`, `CatalogMeaning`, `Providers`, `ProviderMeaning`, `Sync`, `SyncProofs`,
  `ProviderStore`): lifecycle generations and the native connection.
- **Shown detail** (`Budget`, `JsonText`, `Detail`, `DetailMeaning`, `Sorting`, `Deduplication`): the byte
  budget, the depth and breadth limits, and order-independent de-duplication.

Code that changes things step by step is a method or a class, proved against a specification function of
the same name or a close one; the theorems are lemmas about that function. What such a function computes is
characterised a second time, by relations over the tables, lines and bytes themselves, in lemmas whose names
end in `Means`. Foreign calls (JSON parsing, hashing, number formatting, patch headers, the authorizer) are
function parameters.

## What the proofs found

Schema types may declare the system property `namespace` as something other than text, while the namespace
derived from an App id is always text. The graph theorems hold under every table; a creation that derives a
namespace under such a type is called *trapped*, and *unreadable* when the type's coercion refuses the
derived text.

- A record created with a blank but non-empty id commits, and its reverse batch is refused: creation only
  asks for a non-empty id, the reverse actions strip it.
- The reverse batch is also refused when a later action of the batch is on the record of an unreadable
  creation: the reverse of that action carries the derived text, which the type does not read. From a
  well-formed graph these two are the only exceptions to undo.
- Redoing leads back to the graph the batch left exactly when no trapped creation is the last action on its
  record; otherwise the graph it left holds a row that does not fit its type.
- In a later table the reverse batch runs only if that table accepts the rows to write back: a proposal that
  declares `namespace` anew can refuse the reverse of a deletion.
- An edge whose parts hold the unit separator passes preflight and never commits, because the evidence key
  cannot be read back.
- Preflight derives no namespace: it accepts a batch that updates a record right after an unreadable
  creation, and the commit refuses it.
- A proposal that names a new id twice commits but has no preview. Sent again while its effect is in force,
  it can be refused instead of replayed, after a parent that only its first entry named is gone.
- Restoring a schema snapshot right after its commit is refused exactly when a reused type was given its
  own `namespace` while a record already stores the system property.
- The two adapters differ exactly on blank ids, on supplied empty namespaces, and on trapped creations.
- A promotion whose second rename fails and whose rollback rename fails too drops its journal all the same.
  The live directory is then missing, and no recovery finds the whole backup.
- An item alone in a folder that the incoming root does not list is lost for one normalisation pass, even
  if the root lists the item itself.
- A subscriber that leaves while a broadcast is suspended gets a result entry back without a subscription,
  and a disconnect does not take that entry away.
- A subscriber that registers anew under its id while a broadcast is suspended is left with the result of
  its old query, in the table and at the client.
- When the JSON-RPC transport fails, a call that waits for its answer ends with that first failure or by its
  caller's cancellation. A call that is registered or writing can miss it: its write check looks at the
  process first and reports "not running", its own broken write reports itself, its sending can time out,
  and after a restart its write check can meet a later failure.
- Two mapping keys that become the same text are shown as one entry, and no truncation is reported.

## Model

| member | source | states |
|---|---|---|
| Ontology.CoerceEntityProperties | backend/ontology.py:176-219 | the key-by-key loop returns what coercion means, errors included |
| Ontology.CoercionTypes | backend/ontology.py:176-219 | accepted properties are well typed and keep exactly their keys |
| Ontology.CoercionFixpoints | backend/ontology.py:176-219 | the fixpoints of coercion are exactly the well-typed maps |
| Ontology.CoercionIdempotent | backend/ontology.py:176-219 | coercing twice is coercing once |
| Ontology.CoercionMeans | backend/ontology.py:176-219 | coercion yields these properties exactly when the entity is usable, the keys are the same and declared, and each value is what its type makes of it: a text kept or printed; a boolean's 1 or 0 or a number without its fraction; a number; true for the texts true, 1, yes and false for false, 0, no |
| Ontology.RefusalMeans | backend/ontology.py:176-217 | each refusal names the first cause: entity missing, foreign, abstract or out of scope, undeclared key, value without a stored form |
| GraphMeaning.StepMeans | backend/graph_db.py:829-1039 | an action is accepted with a state, a normalised form and a reverse exactly when these are the ones described over records and edges: values coerced key by key, an App's namespace taken from its id, a deletion with all incident edges |
| GraphMeaning.PartMeans | backend/graph_db.py:856-860 | the derived namespace is the text between the first two colons of the id |
| GraphMeaning.RunMeans | backend/graph_db.py:829-1041 | a batch commits exactly when its actions have such effects in a row, and reports the normalised forms in order and the reverses backwards |
| Graph.RunConcat | backend/graph_db.py:829-1039 | batches compose, and the reverse batch of a concatenation is the reversed concatenation |
| Graph.StepKeepsWellFormed | backend/graph_db.py:829-1039 | under every table, each of the seven actions keeps edges closed, properties typed and the namespace column equal to the property, exactly unless it is a trapped creation |
| Graph.RunKeepsLoose | backend/graph_db.py:829-1039 | under every table, every batch keeps edges closed, columns equal to properties, and properties typed but for a textual namespace |
| Graph.RunKeepsWellFormed | backend/graph_db.py:829-1039 | a batch keeps a well-formed graph well formed exactly when no trapped creation is the last action on its record |
| Graph.NamespaceRuleIsNeeded | backend/graph_db.py:856-870 | when `namespace` is not text, the created row is valid if and only if no namespace was derived |
| GraphUndo.StepUndo | backend/graph_db.py:829-1039 | under every table the reverse of one action restores a well-formed graph exactly |
| GraphUndo.PayloadsRead | backend/graph_db.py:829-1039 | the reverse actions all carry rows the table reads exactly when the batch was on no unreadable row, stored before or of its own making |
| GraphReverse.ReverseStep | backend/graph_db.py:829-1039 | in any graph of the same shape and under any table, a generated reverse action runs exactly when the table reads its row and its outside endpoints exist; it restores shape and row and frames the rest, is never a creation, and a restoration meets an absent record |
| GraphReverse.ReverseRun | backend/graph_db.py:829-1039 | so does the whole reverse batch, which writes only what the batch touched |
| GraphUndo.RunUndo | backend/graph_db.py:829-1062 | from any graph, the reverse of a batch without blank creations runs exactly in that case, and leads back but for the reading of the touched rows |
| GraphUndo.BlankReverseFails | backend/graph_db.py:655-660 | a reverse action on a blank id fails the whole batch in every state |
| GraphUndo.BlankLeavesBlank | backend/graph_db.py:833-870 | a batch with a blank creation always returns such a reverse action |
| GraphUndo.UndoRedo | backend/graph_db.py:829-1062 | undo succeeds exactly when no creation had a blank id and no later action is on the record of an unreadable creation; then it restores the graph, and the reverse of the reverse redoes the batch exactly when no trapped creation is last on its record |
| GraphUndo.BlankCreateCannotBeUndone | backend/graph_db.py:833-870 | a concrete creation that commits and cannot be undone |
| GraphUndo.PoisonedBatch | backend/graph_db.py:833-931 | a concrete creation and deletion that commit and cannot be undone |
| GraphGuard.KeyRoundTrip | backend/graph_db.py:737-778 | an edge key survives its text form exactly when no part holds the separator |
| GraphCompensation.CaptureSucceeds | backend/graph_db.py:763-778 | evidence capture fails exactly when a named edge holds the separator |
| GraphCompensation.GuardMeansAgreement | backend/graph_db.py:716-778 | a later graph shows the evidence exactly when it agrees on touched records, their incident edges and named edges |
| GraphCompensation.GuardedCompensation | backend/graph_db.py:780-1062 | under interference and any later table the guarded reverse batch succeeds exactly when the touched region is unchanged, outside endpoints exist, no creation was blank and the table reads the rows to write back; then it restores the region, rows as that table reads them, and frames the rest |
| GraphCompensation.CompensationAfterGrowth | backend/graph_db.py:780-1062 | when the table only grew, the rows are read exactly when no later action is on the record of an unreadable creation, and the region is restored exactly |
| GraphCompensation.RedeclaredNamespaceRefuses | backend/graph_db.py:780-1062 | a `namespace` declared anew in between refuses the reverse of deleting a record whose text it cannot read |
| GraphPreflight.MergeCoercion | backend/graph_db.py:1103-1120 | an update is accepted after merging exactly when its own part is and it keeps no namespace that the type cannot read |
| GraphPreflight.MergeTwice | backend/graph_db.py:1103-1120 | merging what preflight stored of the incoming part comes to the same record |
| GraphPreflight.CheckAllFollows | backend/graph_db.py:1070-1156 | preflight's working tables follow the reducer's state over a whole batch, and the verdicts differ exactly when a blind update meets a record only preflight reads |
| GraphPreflight.PreflightAgrees | backend/graph_db.py:1070-1156 | under every table a batch commits exactly when preflight accepts it, no named edge holds the separator, and no record is updated right after an unreadable creation; the normalised batch leaves the same graph |
| GraphPreflight.PreflightMissesSeparator | backend/graph_db.py:1070-1156 | a concrete batch that preflight accepts and the commit refuses |
| GraphPreflight.PreflightMissesNamespace | backend/graph_db.py:1070-1156 | a concrete creation and update that preflight accepts and the commit refuses |
| SchemaProposals.OverlayIsInsert | backend/graph_db.py:1209-1249 | the overlay exists exactly for new, distinct ids, and then equals the upserts |
| SchemaProposals.PreviewEqualsCommit | backend/graph_db.py:1229-1331 | the preview succeeds exactly when the commit does and no new id repeats, and shows the committed table |
| SchemaProposals.RepeatedIdHasNoPreview | backend/graph_db.py:1229-1331 | every acceptable entity proposed twice commits without a preview |
| SchemaMeaning.ProposalMeans | backend/graph_db.py:1159-1207 | a proposal is read entry by entry, field by field with its defaults, trimmed texts and distinct correspondences, or refused exactly when an entry has no such reading |
| Text.StripMeans | backend/graph_db.py:1185-1191 | stripped text is the one without white space at its ends that only white space surrounds |
| SchemaMeaning.CommitAccepts | backend/graph_db.py:1279-1305 | a commit succeeds exactly when every parent is registered or proposed, every new id is new, every reused id is registered, and no extension changes a declared type, of the row or of another extension |
| SchemaMeaning.CommitWrites | backend/graph_db.py:1295-1331 | each new id holds, field by field, the last entry proposed under it, not core and in the user's ontology; each registered row has the properties of its extensions and is otherwise unchanged; there are no other rows |
| SchemaMeaning.NewEntityAccepts | backend/graph_db.py:1306-1326 | a proposed entity that is not abstract accepts every creation with properties of the proposed types, and stores them |
| SchemaMeaning.ExtensionAccepts | backend/graph_db.py:1295-1305 | a property added to a registered entity can be stored |
| SchemaRestore.CommitGrows | backend/graph_db.py:1279-1342 | a commit only grows touched rows, leaves others, and records sound evidence |
| SchemaRestore.CommitKeepsTable | backend/graph_db.py:1279-1342 | record types stay registered and parents resolvable after a proposal |
| SchemaRestore.CommitKeepsLoose | backend/graph_db.py:1279-1342 | every proposal keeps type ids visible and what every graph satisfies |
| SchemaRestore.CommitExtends | backend/graph_db.py:1279-1342 | a proposal that keeps `namespace` textual keeps every row valid |
| SchemaRestore.RestoreKeepsRegistered | backend/graph_db.py:1370-1412 | an accepted restoration keeps every record's type registered |
| SchemaRestore.RestoreKeepsParents | backend/graph_db.py:1370-1412 | and every parent reference resolvable |
| SchemaRestore.RestoreKeepsRows | backend/graph_db.py:1370-1412 | and every stored property declared with its type |
| SchemaRestore.RestoreKeepsLoose | backend/graph_db.py:1370-1412 | so does every accepted restoration |
| SchemaRestore.SchemaCompensation | backend/graph_db.py:1344-1426 | in any later table, a successful restoration returns touched rows to their prior value and frames all others |
| SchemaRestore.ImmediateRestore | backend/graph_db.py:1344-1426 | right after the commit it succeeds exactly unless a stored namespace was taken over, and gives the old table |
| SchemaRestore.NamespaceCanBeTaken | backend/graph_db.py:1344-1426 | in every table a proposal and a one-record graph for which that restoration is refused |
| Ledger.OnlyRunningChanges | backend/graph_db.py:813-821 | a replayed, refused or failed call changes nothing |
| Ledger.StepTally | backend/graph_db.py:1062-1066 | one call moves the count of effects and the ledger entry together |
| Ledger.RunTally | backend/graph_db.py:1062-1066 | over any run the tally is the difference of the ledgers at its ends |
| Ledger.RecordedAnswers | backend/graph_db.py:813-821 | a recorded key answers equal input with the recorded result and refuses any other |
| Ledger.SameAnswer | backend/graph_db.py:813-821 | after a success, a later call under the key succeeds exactly with the same input and gets the same answer |
| Ledger.ExactlyOnce | backend/graph_db.py:1267-1278 | per key at most one batch; schema applications minus compensations is 1 while in force and else 0; never both kinds |
| LedgerReplay.OtherProposalRefused | backend/graph_db.py:1267-1278 | a different proposal under a used key is refused over every run, in force or compensated |
| LedgerReplay.InForceReplays | backend/graph_db.py:1260-1278 | after every run, while an effect is in force its proposal is answered with the recorded result unless a parent it names is missing, which never happens when it names each new entity once |
| LedgerReplay.RepeatedIdLosesReplay | backend/graph_db.py:1260-1278 | three calls after which a proposal in force, sent again, is refused |
| StoreInvariant.EveryRunKeepsStore | backend/graph_db.py:780-1426 | any run of batches, proposals and compensations, whatever they declare, keeps graph, table and ledger invariants together |
| StoreInvariant.PoliteRunsStayTyped | backend/graph_db.py:780-1426 | when no proposal declares `namespace` as anything but text, every row stays well typed too |
| Database.Transaction.CreateRecord | backend/graph_db.py:833-870 | the in-place creation equals the specified step, with its reverse action recorded |
| Database.Transaction.ReplaceRecord | backend/graph_db.py:871-896 | the in-place update or replacement equals the specified step |
| Database.Transaction.DeleteRecord | backend/graph_db.py:897-931 | the in-place cascade equals the specified step and its reverse holds every incident edge |
| Database.Transaction.RestoreRecord | backend/graph_db.py:932-971 | the in-place restoration equals the specified step |
| Database.Transaction.WriteEdge | backend/graph_db.py:972-1036 | edge creation and deletion equal the specified step |
| Database.GraphDatabase.RunBatch | backend/graph_db.py:829-1041 | the loop over actions equals the recursive run, normalised and reverse lists included |
| Database.GraphDatabase.ApplyActionsAtomic | backend/graph_db.py:780-1068 | ledger lookup, evidence check, batch and recording have exactly the specified effect, all or nothing |
| Database.GraphDatabase.PreflightActions | backend/graph_db.py:1070-1156 | the imperative preflight equals its specification |
| Database.GraphDatabase.EffectiveInventory | backend/graph_db.py:1230-1249 | the preview loop equals its specification |
| Database.GraphDatabase.ApplySchemaProposalAtomic | backend/graph_db.py:1251-1342 | the proposal call has exactly the specified effect on table and ledger |
| Database.GraphDatabase.RestoreSchemaSnapshot | backend/graph_db.py:1344-1426 | the restoration call fails and changes nothing, or has exactly the specified effect |
| Neo4j.DeriveEarlyOrLate | backend/neo4j_graph_db.py:739-776 | deriving the namespace before or after validation agrees exactly under the shared rule |
| Neo4j.StepAgrees | backend/neo4j_graph_db.py:709-945 | one action succeeds or fails in both adapters with corresponding states |
| Neo4j.AdaptersAgree | backend/neo4j_graph_db.py:709-982 | under every table and the shared rules, both adapters succeed or fail together, with the same graph, reports and reverse batch, and one entity link per record |
| Neo4j.AdaptersDiffer | backend/neo4j_graph_db.py:739-776 | outside the condition every creation the row adapter accepts comes out differently |
| Neo4j.CommitsAgree | backend/neo4j_graph_db.py:684-982 | whole calls agree: the same evidence is checked and captured, and the results are equal |
| Neo4j.NeoCompensation | backend/neo4j_graph_db.py:684-982 | guarded compensation through this adapter succeeds under the same conditions and to the same graph |
| Neo4j.RunKeepsColumns | backend/neo4j_graph_db.py:396-418 | over every batch the namespace stored beside a record is its namespace property, or empty |
| Neo4jDatabase.Neo4jTransaction.TxUpsertNode | backend/neo4j_graph_db.py:387-419 | an upsert replaces the record, leaves exactly one entity link and touches nothing else, or writes nothing for an entity of another ontology |
| Neo4jDatabase.Neo4jTransaction.TxDeleteNode | backend/neo4j_graph_db.py:668-670 | a detach-delete removes the record, its links and its relations, and nothing else |
| Neo4jDatabase.Neo4jTransaction.RestoreRelations | backend/neo4j_graph_db.py:861-875 | edges are restored all together or refused exactly when one lacks an endpoint |
| Neo4jDatabase.CommitBatch | backend/neo4j_graph_db.py:709-982 | the commit loop equals the recursive run |
| Neo4jDatabase.ApplyActionsAtomic | backend/neo4j_graph_db.py:684-982 | the evidence check, the loop and the capture equal the specified call |
| Promotion.RunKeepsInv | backend/coding_agent_acp.py:958-993 | in every reachable state, failed renames included, the directories are in one of the configurations of their phase |
| Promotion.LostMeans | backend/coding_agent_acp.py:978-986 | the live directory and its journal are both gone exactly when a failed rollback rename was followed by dropping the journal |
| Promotion.CrashSafePromotion | backend/coding_agent_acp.py:1134-1182 | after any finished recovery live is exactly old or exactly new and no backup is left, exactly unless that happened; and an intact journal only with new live and nothing else |
| Promotion.DoubleFailureLosesLive | backend/coding_agent_acp.py:978-986 | for every App, a run with two failing renames after which recovery leaves no live directory |
| Promotion.LiveOrWholeBackup | backend/coding_agent_acp.py:958-993 | at every moment live is whole, or the backup is the whole old directory |
| Promotion.RecoveryIdempotent | backend/coding_agent_acp.py:1134-1182 | after a finished recovery further crashes and recoveries change nothing |
| Promotion.Machine.PromoteStagingApp | backend/coding_agent_acp.py:958-993 | the code takes only steps of the protocol; on return the new directory is live |
| Promotion.Machine.RecoverInterruptedPromotions | backend/coding_agent_acp.py:1134-1182 | the recovery code takes only steps of the protocol; on return live is old or new and the backup is gone, exactly unless the journal was lost |
| Deletion.RunKeepsInv | backend/app_manager.py:306-326 | every reachable state of deletion and reconciliation is intact, renamed, doomed or gone |
| Deletion.AtomicDeletion | backend/app_manager.py:78-113 | after reconciliation: complete directory with its record, or no directory, record and tombstone; success means gone |
| Deletion.FilesSurviveWithRecord | backend/app_manager.py:306-326 | while the record is committed, the complete files exist in the directory or the tombstone |
| Deletion.DeletionIsFinal | backend/app_manager.py:306-326 | a finished deletion stays finished |
| Deletion.Machine.ReconcilePendingDeletions | backend/app_manager.py:78-113 | the reconciliation code takes only steps of the protocol and ends reconciled, raised or crashed |
| Deletion.Machine.DeleteApp | backend/app_manager.py:306-326 | so does the deletion, rename and commit included |
| Rollback.RollbackRestores | backend/app_records.py:38-43 | hooks run last in, first out undo any disciplined sequence of file changes |
| Rollback.FailureLeavesDirectory | backend/app_records.py:94-109 | a transaction that fails at any point leaves the directory as it was, when no hook raises |
| Rollback.OrderMatters | backend/app_records.py:38-43 | two hooks come to the same directory in either order exactly when they saw no file differently |
| Rollback.TrackingTwiceConflicts | backend/app_records.py:38-43 | tracking a file, writing it and tracking it again registers such hooks unless the write changed nothing |
| Rollback.RaisingCostsOwnFiles | backend/app_records.py:38-43 | in an existing directory a hook that raises costs only the files it saw |
| Rollback.UpdatedMeans | backend/app_manager.py:157-199 | a successful update leaves the controller and the manifest as given, no obsolete file, and every other file as it was |
| Rollback.AppRecordTransaction.RollbackFilesystem | backend/app_records.py:38-43 | the loop runs the hooks in reverse order, past those that raise |
| Rollback.AppRecordTransaction.CreateOrUpdateApp | backend/app_manager.py:157-199 | the update leaves the directory untouched on any failure after which no hook raises, and exactly updated on success |
| Diff.LfLinesOfText | backend/coding_agent_acp.py:309-311 | the lines of a text are newline-terminated but for the last, and concatenate back to it |
| Diff.LinesOfConcat | backend/coding_agent_acp.py:309-311 | and every such line list is the line list of its concatenation |
| Diff.ReadHunk | backend/coding_agent_acp.py:359-386 | the hunk loop, with its early exit, reads exactly the bodies the declared counts allow |
| Diff.TakeHunk | backend/coding_agent_acp.py:344-392 | one turn accepts a hunk and advances, or refuses the whole patch |
| Diff.GitPatchProvesChange | backend/coding_agent_acp.py:314-394 | the prover's verdict equals the specified one on every input |
| DiffGrammar.ClassifyMeans | backend/coding_agent_acp.py:345-383 | which text is a header, a context, added or removed line, a no-newline marker, and which is none of these |
| DiffGrammar.ParseMeans | backend/coding_agent_acp.py:344-391 | the lines are read exactly when the first is a header, none is foreign or a malformed header, and every marker directly follows a line of the file; the hunks have the sides read off by position |
| DiffProofs.RebuildMeans | backend/coding_agent_acp.py:339-394 | accepted with a result exactly when the lines are readable, and gaps and hunks make up the source at the old and the result at the new positions |
| DiffProofs.ProvesMeans | backend/coding_agent_acp.py:314-394 | the verdict is true exactly for a known kind, matching file headers and such a patch, which for a deletion leaves nothing |
| DiffProofs.NothingForeign | backend/coding_agent_acp.py:344-383 | every line of an accepted patch text is a header that parses, a marker, empty, or begins with a space, plus or minus |
| DiffProofs.PatchReverses | backend/coding_agent_acp.py:339-394 | the swapped patch is accepted against the result and rebuilds the source |
| DiffProofs.PatchReversesText | backend/coding_agent_acp.py:309-394 | on texts, too |
| DiffProofs.ParsePrinted | backend/coding_agent_acp.py:344-388 | printed hunks of any mix of context, removed and added lines are parsed back, no-newline markers included |
| DiffProofs.PrintedEditsAccepted | backend/coding_agent_acp.py:339-394 | every list of edits between gaps, printed, is accepted and rebuilds the edited file |
| DiffProofs.RenderedTextReads | backend/coding_agent_acp.py:344-386 | rendered patch text is read as the lines it was rendered from |
| LayoutProofs.NormalizedIsNormal | backend/app_store.py:414-476 | nothing appears twice, every kept folder has two installed items or more and exactly one root entry |
| LayoutProofs.MissingExactlyWhenStranded | backend/app_store.py:414-476 | an installed item is missing exactly when it is alone in a folder the root does not list |
| LayoutProofs.StrandedItemIsLost | backend/app_store.py:414-476 | such layouts exist, even with the item itself in the root |
| LayoutFixpoint.NormalPass | backend/app_store.py:414-476 | a pass over a normal layout only appends missing items |
| LayoutFixpoint.TwoPassesReachFixpoint | backend/app_store.py:414-476 | two passes reach a fixpoint that shows every installed item |
| LayoutFixpoint.DeletionLosesNothing | backend/app_store.py:511-523 | deleting from a normal layout loses no other item |
| LayoutFixpoint.ServeKeeps | backend/app_store.py:478-523 | every request keeps the stored layout normal; a save commits only at its revision and raises it |
| LayoutFixpoint.OneCommitPerRevision | backend/app_store.py:497-509 | over any run at most one save commits per revision |
| LayoutFixpoint.ExactlyOneSaveWins | backend/app_store.py:497-509 | of several saves from the current revision exactly one commits if one is acceptable |
| LayoutService.CollectFolders | backend/app_store.py:419-445 | the folder loop fills its tables as specified or refuses as specified |
| LayoutService.CollectRoot | backend/app_store.py:446-466 | the root loop with one table of seen items equals the two-table specification |
| LayoutService.NormalizeLayout | backend/app_store.py:414-476 | the normaliser's loops equal the specification |
| LayoutService.AppStoreService.SaveLayout | backend/app_store.py:497-509 | the save writes and raises the revision, or reports the conflict with the current state |
| LayoutService.AppStoreService.RemoveCatalogIds | backend/app_store.py:511-523 | the deletion rewrites the layout exactly as specified |
| Sse.ChunksDoNotMatter | backend/backend_manager.py:736-786 | within the byte limit every cut into chunks gives the events and the failure of one pass over the whole stream |
| Sse.OverLimitFails | backend/backend_manager.py:769-774 | a stream over the limit fails wherever it is cut |
| Sse.NeverTooManyEvents | backend/backend_manager.py:761-766 | no stream makes the decoder send more events than allowed |
| SseStream.LineSays | backend/backend_manager.py:741-759 | every line, its trailing carriage returns apart, is exactly one of: a data line with its text after any spaces, a closing line, or one without effect |
| SseStream.StreamMeans | backend/backend_manager.py:736-786 | whatever lines arrive, the last one terminated or not, and however they are cut within the limit, the events of the payloads they spell are sent in order, until one is malformed, no object, or one too many |
| SseStream.EveryStreamSpells | backend/backend_manager.py:776-784 | every stream is such lines |
| SseStream.OverLimitMeans | backend/backend_manager.py:769-774 | a stream that passes the limit with a chunk sends the events closed in the chunks before it and fails for its size, unless an event failed first |
| SseStream.PrintedEventsAreRead | backend/backend_manager.py:741-786 | events printed as data lines, with any spaces, any carriage returns before each newline and other lines among them, and cut anywhere, are decoded to the same events |
| Sse.AgentStream.EmitLineNow | backend/backend_manager.py:741-767 | one line changes the decoder as specified |
| Sse.AgentStream.Receive | backend/backend_manager.py:769-782 | one chunk is cut at every newline and leaves the unfinished line |
| Sse.AgentStream.TakeLine | backend/backend_manager.py:776-782 | one turn of the inner loop cuts off a line and leaves the rest to be fed |
| Sse.AgentStream.Close | backend/backend_manager.py:783-786 | the end of the stream closes an open line and an open event |
| JsonRpc.RunKeepsInv | backend/backend_manager.py:214-408 | over every interleaving the pending table holds exactly the open requests, and ids are unique |
| JsonRpc.IdsNeverReused | backend/backend_manager.py:367-372 | later calls draw greater ids, across restarts |
| JsonRpc.StepSettles | backend/backend_manager.py:214-408 | a request settles at most once, and only by a message with its id, the first transport failure, or its own call leaving |
| JsonRpc.ResponseIsTaken | backend/backend_manager.py:254-274 | a well-formed response to an open request is always taken |
| JsonRpc.AnswersAreCorrelated | backend/backend_manager.py:214-408 | in every run, a returned answer comes from exactly one message, with that call's id, while it was open |
| JsonRpc.FailureReaches | backend/backend_manager.py:306-313 | the first failure settles every open request with itself |
| JsonRpc.FirstFailureEndsEveryCall | backend/backend_manager.py:306-408 | what becomes of every call open at the first failure, over every later run: it still runs, or its ending event decides, and it ends with the first failure exactly for the stated endings |
| JsonRpc.SentCallsGetFirst | backend/backend_manager.py:306-408 | a call already waiting for its answer ends with the first failure or by its caller's cancellation |
| JsonRpc.OneRegisteredIsReached | backend/backend_manager.py:353-375 | a new client reaches the state from which the next two runs start |
| JsonRpc.RegisteredCallMissesFirst | backend/backend_manager.py:315-320 | a run in which a registered call ends with "not running" although another failure is recorded |
| JsonRpc.WritingCallMissesFirst | backend/backend_manager.py:321-331 | a run in which a call's own broken write is reported although another failure is recorded |
| JsonRpc.NoSuccessAfterFailure | backend/backend_manager.py:315-408 | before a restart no call succeeds that was not answered before the failure |
| JsonRpcMeaning.LineMeans | backend/backend_manager.py:214-304 | what each line does: which failure it brings, what that does to reading, error and open requests, which answer it carries to which request, and that any other changes nothing |
| JsonRpcMeaning.StepMeans | backend/backend_manager.py:127-408 | what each event does to fields, requests and calls: lines, the steps of a call with their refusals and outcomes, start, stop, exit |
| JsonRpcMeaning.FlagsOfRun | backend/backend_manager.py:127-179 | over every run the client is initialized, stopping or alive as the last event of its kind left it |
| JsonRpcClient.StdioJsonRpcClient.FailPending | backend/backend_manager.py:306-313 | the loop over pending futures equals the specified failure |
| JsonRpcClient.StdioJsonRpcClient.HandleLine | backend/backend_manager.py:214-287 | one line of server output has exactly the specified effect |
| JsonRpcClient.StdioJsonRpcClient.RegisterRequest | backend/backend_manager.py:367-372 | the id is the old counter and the request is open under it |
| JsonRpcClient.StdioJsonRpcClient.OnDeadline | backend/backend_manager.py:392-399 | at the deadline an answer that came in time still wins |
| Queries.ReadQueryLimit | backend/graph_query_engine.py:10-34 | an accepted query has between 1 and 500 results and at most 16 includes |
| QueryMeaning.ReadQueryMeans | backend/graph_query_engine.py:10-34 | a query object is accepted exactly when it stands for a query, members absent or of the stated shapes and within every limit, and that query is run |
| Queries.IncludeRelations | backend/graph_query_engine.py:53-84 | the edge scan with its early break yields the first 200 relations |
| Queries.ExecuteGraphQuery | backend/graph_query_engine.py:36-87 | the nested loops with early breaks yield the first results, each with its first relations |
| Queries.ResultsAreBounded | backend/graph_query_engine.py:36-87 | results respect both limits and match type and filter |
| Queries.ResultsAreComplete | backend/graph_query_engine.py:36-87 | a matching record is among the results unless the limit is reached |
| Queries.RelationsMean | backend/graph_query_engine.py:52-77 | a relation is listed exactly when an include asks for its edge type and other end |
| QueryMeaning.ResultsMean | backend/graph_query_engine.py:36-87 | the results are the matching rows in table order, the first of them up to the limit; each shows the row and, include by include and edge by edge, the edges asked for with the record at the other end, the first 200 of them |
| QueryMeaning.FilterMeans | backend/graph_query_engine.py:46-47 | every result has exactly the value asked for under each filter key, or lacks the key and the value is null; a row that has them all is among the results or the limit is reached |
| SkipRule.ContributionKept | backend/graph_subscription.py:99-114 | an edge that feeds a skipped query feeds it alike after the mutation |
| SkipRule.SkippedQueryIsUnchanged | backend/graph_subscription.py:99-114 | if the mutated types cover the change, a skipped query has the same result before and after |
| SkipRule.EdgesMustBeCovered | backend/graph_subscription.py:99-114 | a concrete change whose edge is not covered: the skipped query differs |
| Subscriptions.RegisterKeeps | backend/graph_subscription.py:42-57 | registration keeps the tables aligned and the limit of 32 |
| SubscriptionMeaning.RegisterAccepts | backend/graph_subscription.py:32-49 | accepted exactly for an id of 1 to 200 characters, a readable query, and an id already there or fewer than 32 |
| SubscriptionMeaning.RegisterMeans | backend/graph_subscription.py:42-57 | the answer is what the query means; it and the subscription are entered, and no other entry changes |
| SubscriptionMeaning.UnregisterAllMeans | backend/graph_subscription.py:64-68 | a disconnect takes away the connection's subscriptions and their results, and nothing else |
| SubscriptionMeaning.VisitMeans | backend/graph_subscription.py:78-126 | one turn: a subscription no longer allowed is taken away and told so, a query over untouched types is left alone, any other is evaluated and sent if the result is new |
| Subscriptions.VisitKeepsKeys | backend/graph_subscription.py:78-126 | a visit keeps the tables aligned exactly when its subscription is refused, skipped or still there |
| Subscriptions.LeavingMidPassLeaksEntry | backend/graph_subscription.py:78-126 | leaving while a pass is suspended breaks the alignment |
| Subscriptions.RegisteringMidPassKeepsOldResult | backend/graph_subscription.py:78-126 | registering anew while a pass is suspended leaves the subscriber with the result of its old query: current exactly when both queries have equal results |
| Subscriptions.OldResultCanDiffer | backend/graph_query_engine.py:36-87 | a store and two queries for which it is not current |
| Subscriptions.PassMirrors | backend/graph_subscription.py:115-123 | sending only changed results keeps every subscriber's view equal to the last results |
| SubscriptionRuns.PassRefreshes | backend/graph_subscription.py:70-126 | a pass of single turns among registrations, leavings, disconnects and other passes' turns: at its end each live subscription is current exactly when its last evaluation used a query of equal result, and so if its last visit saw the subscription still there or it was registered after |
| SubscriptionRuns.QuietPassRefreshes | backend/graph_subscription.py:70-126 | after an uninterrupted pass every live subscription holds plain re-evaluation |
| SubscriptionRuns.RunStaysFresh | backend/graph_subscription.py:21-126 | over every interleaved run, commits included: a live subscription is within the limit, has a result, and is current exactly when its last evaluation used a query of equal result, unless a commit touched it since |
| SubscriptionRuns.KeysMatchAtEnd | backend/graph_subscription.py:59-126 | over every interleaved run the tables end aligned exactly when every turn that evaluated a subscription already gone was followed by its leaving, registering anew or refusal |
| SubscriptionRuns.RunMirrors | backend/graph_subscription.py:21-126 | over every interleaved run each subscriber holds its entry of the result table |
| SubscriptionService.SubscriptionManager.Subscribe | backend/graph_subscription.py:21-57 | the call refuses without a change or enters exactly the specified entry |
| SubscriptionService.SubscriptionManager.UnregisterTarget | backend/graph_subscription.py:64-68 | a connection's entries and results are all removed, and no others |
| SubscriptionService.SubscriptionManager.BroadcastUpdates | backend/graph_subscription.py:70-126 | the loop equals the specified pass and sends the specified messages |
| Catalog.MergeNativeCatalog | backend/llm_discovery.py:30-71 | the two loops over one dictionary equal the specified merge |
| Catalog.MergeKeepsModels | backend/llm_discovery.py:30-71 | the result holds every catalog id and every existing id, each once |
| Catalog.MergeKeepsDetails | backend/llm_discovery.py:48-70 | source, capabilities and hand-typed names survive; an unlisted model changes only its availability |
| Catalog.MergeTwice | backend/llm_discovery.py:30-71 | merging the same catalog again changes nothing |
| CatalogMeaning.MergeAccepts | backend/llm_discovery.py:37-47 | a catalog is accepted exactly with at most 1000 entries, one if required, each with a visible id of at most 256 characters |
| CatalogMeaning.MergeMeans | backend/llm_discovery.py:38-71 | listed models come first, in the order of their first entries, with that entry's availability and name unless typed by hand; a new one is discovered; the others follow in their order, marked as missing |
| ProviderMeaning.CreateMeans | backend/llm_config.py:602-617 | a new profile needs a new id, is stored at the end with the first model of each id, and counts as a lifecycle event |
| ProviderMeaning.UpdateMeans | backend/llm_config.py:619-655 | an edit is refused exactly when a setting would lose its model; it writes one profile and counts exactly if it brings credentials or changes how the profile connects |
| ProviderMeaning.DeleteMeans | backend/llm_config.py:657-673 | a profile is deleted unless a setting names it; the others keep their order |
| ProviderMeaning.SettingsMean | backend/llm_config.py:678-690 | settings are accepted exactly when each selected model is in an enabled profile and, if native, not known to lack inference; then both are set |
| ProviderMeaning.CommitWrites | backend/llm_discovery.py:182-219 | a sync merges the catalog into the profile it began with, or the first enabled native one, and changes nothing else; without a native profile it adds one |
| ProviderMeaning.FreeNameIsFirst | backend/llm_discovery.py:205-210 | a new connection gets the first free name of the series |
| Providers.FreeNameIsFree | backend/llm_discovery.py:205-210 | the suffix search ends at a name no profile has |
| Sync.RunKeepsStoreOk | backend/llm_config.py:602-690 | profile ids stay distinct and every selection names a stored model of a stored profile |
| SyncProofs.GenerationCounts | backend/llm_config.py:593-600 | a generation counts exactly the profile's lifecycle events |
| SyncProofs.NativeCounts | backend/llm_config.py:593-600 | the shared counter counts exactly the lifecycle events of native profiles |
| SyncProofs.CheckedCommits | backend/llm_discovery.py:201-204 | past its checks a sync cannot be refused for a model in use |
| SyncProofs.CommitsIffUndisturbed | backend/llm_discovery.py:159-204 | a sync that began with a profile commits exactly when no lifecycle event met it since the snapshot |
| SyncProofs.CommitsIffAtMostOneCreation | backend/llm_discovery.py:159-219 | a sync that began without a native profile commits exactly when nothing happened to native profiles since, or only one was created and it is enabled |
| SyncProofs.ConcurrentSyncsShareOneProfile | backend/llm_discovery.py:159-219 | syncs alone, in any interleaving, create at most one native profile and none of them is refused |
| ProviderStore.LLMConfigStore.UpdateProvider | backend/llm_config.py:619-655 | the update in place equals the specification, lifecycle included |
| ProviderStore.LLMConfigStore.DeleteProvider | backend/llm_config.py:657-673 | the deletion equals the specification or is refused without a change |
| ProviderStore.LLMConfigStore.NextNativeId | backend/llm_discovery.py:205-210 | the loop ends, with the first free name |
| ProviderStore.LLMConfigStore.CommitSync | backend/llm_discovery.py:182-219 | the end of a sync equals the specification |
| Budget.FitStringToBudget | backend/graph_visualization.py:125-137 | the binary search returns the longest fitting cut |
| Budget.FitTextMeans | backend/graph_visualization.py:125-137 | an over-long text is really cut, and no longer beginning of it fits |
| Budget.CutObjectMeans | backend/graph_visualization.py:145-164 | an object keeps its longest fitting beginning in order and one marker under a new key |
| Budget.CutListMeans | backend/graph_visualization.py:165-175 | so does a list, with one marker at its end |
| Budget.FitValueFits | backend/graph_visualization.py:140-176 | every result serialises within the budget |
| Budget.FitValueToBudget | backend/graph_visualization.py:140-176 | the loops equal the specification and the result fits |
| JsonText.SizeIsLength | backend/graph_visualization.py:92-102 | the size of a value is the number of UTF-8 bytes of its compact JSON text, and none exactly when that text cannot be encoded |
| JsonText.FitValueMeans | backend/graph_visualization.py:140-176 | a value of at most 8192 bytes is shown as it is; of any other a beginning with an ellipsis or the marker; the text shown always has at most 8192 bytes |
| Detail.BoundedMeetsLimits | backend/graph_visualization.py:179-232 | every result fits 8192 bytes, depth 4, 32 members and 512 characters |
| Detail.NothingIsLostSilently | backend/graph_visualization.py:179-232 | if no truncation is counted, the whole value is shown exactly when keys that differ stay different as text |
| Detail.RepeatedKeyIsDropped | backend/graph_visualization.py:194-198 | two keys with one text: the second is dropped and not counted |
| DetailMeaning.VisitMeans | backend/graph_visualization.py:179-226 | what is shown of each value in terms of its members - texts and keys cut to 512 characters, numbers that are not finite named, the first 32 members, entries in the order of their keys with each shown key once, a marker below four levels - and every counter is the sum over the parts |
| DetailMeaning.BoundedMeans | backend/graph_visualization.py:227-232 | the whole is shortened once more, and this counted, exactly if it is over the budget |
| Detail.DetailVisitor.Bounded | backend/graph_visualization.py:179-232 | the recursive visit with its counters equals the specification |
| Deduplication.UniqueRows | backend/graph_visualization.py:322-385 | sorting and keeping the first of each name equals the specification |
| Deduplication.OrderDoesNotMatter | backend/graph_visualization.py:322-385 | every permutation of the rows gives the same output |
| Deduplication.UniqueMeans | backend/graph_visualization.py:322-385 | each name appears once, in order, with its least candidate |

## Left out

- Request fields of the wrong JSON shape: the graph calls take typed actions and proposals; uuids, default types and timestamps are filled in before them.
- `created_at` of graph rows: it is not restored by a reverse batch, and states are compared without it.
- Python's equality of `1`, `1.0` and `True`, and of NaN with itself: evidence, filters and ledger inputs are compared structurally.
- The order in which several errors of one call are reported where a dictionary's order decides it.
- Database.GraphDatabase.ApplyActionsAtomic: `snapshot_before`, ticket history, sessions and pinning are not part of the result; the older reverse computation of mutation tickets is not modelled.
- Neo4jDatabase.CommitBatch: the loop alone; Neo4jDatabase.ApplyActionsAtomic adds the evidence, and the second adapter's ledger, which has the shape of the first one's, is not modelled.
- GraphUndo.RunUndo: restoring a record over an existing one by a caller is not covered; undo is stated for the public actions and for generated reverse batches.
- GraphPreflight.PreflightAgrees: updates that name another type are not covered; preflight does not look at that field, and the commit follows it.
- Acyclicity of parent types: the code refuses only a parent that is the type itself.
- SQL and Cypher are maps and sets, a transaction is all or nothing, legacy migration and seeding are not modelled.
- Deduplication.UniqueRows: projection and canonical JSON are a parameter; de-duplication takes sort keys that determine what is shown, and a key digest is any function.
- Diff.GitPatchProvesChange: the file header lines of a patch (names, modes, quoting) are one truth value, and lines arrive classified; range headers are read and printed by parameters.
- Several outstanding promotion journals for one App, link and junction checks, and errors after the commit other than a crash.
- Rollback.AppRecordTransaction.RollbackFilesystem: a hook that raises does nothing here; one that raises half-way may have put some of its own files back.
- JsonRpcClient.StdioJsonRpcClient.HandleLine: writing the reply to a server request is one outcome with the line, without a suspension in between.
- The launcher catalog is a list of distinct ids that do not begin with `folder:`; how items are collected is not modelled.
- Network, subprocesses, timeouts as clock values, stderr, and the initialize exchange beyond its success.
- SubscriptionRuns.RunMirrors: sends succeed; a send that raises is logged, and its subscriber misses that result until the next change.
- SubscriptionService.SubscriptionManager.BroadcastUpdates: one listing of all subscriptions without suspension, and no error while a query runs; the code lists each connection when it comes to it. Interleaving is the subject of SubscriptionRuns.
- SkipRule.SkippedQueryIsUnchanged: the scan order of edges is a position stored with each row, since the query has no order of its own.
- JsonText.SizeIsLength: the texts of numbers, booleans and null are a parameter; members are counted in insertion order, since sorting keys changes no length.
- Budget.FitTextMeans: lone surrogates count as refused by the serialiser, as in the program; their error text is not modelled.
- ProviderStore.LLMConfigStore.UpdateProvider: validation of profiles, credentials and presets and the writing of credentials are outside; profiles arrive validated, and the whitespace of ids in a model edit is not modelled.
- Catalog.MergeNativeCatalog: refusals by the validation of a merged model are not modelled.
- Model ids of a selection are checked against stored models; the credential store and secrets file are not modelled.
- HTTP and WebSocket routing, chat handling, installers, login and provider tables.
