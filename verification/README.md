# Verified model of safe-migrate's analysis core

safe-migrate simulates what a chain of SQL migrations does to a PostgreSQL schema and reports
what is dangerous about them. This project models the parts of that simulation whose
correctness is not visible in any single function, in Dafny, and proves what they promise:

- the **dependency graph**: typed edges with a mirror set and a lazily built index, rename
  aliases, two cycle guards, relation and schema renames, and the cascade closure of a drop
  (`GraphModel`, `GraphRename`, `GraphRenameBack`, `GraphSchema`, `GraphLineage`,
  `DependencyGraph`, `GraphRuns`, `CascadeClosure`, `GraphMeaning`);
- the **privilege matrix**: grants, targeted revokes and the cascading revoke, against a plain
  ledger of who gave what to whom (`PrivilegeLedger`, `PrivilegeCascade`, `PrivilegeMatrix`,
  `LedgerMachine`, `PrivilegeRuns`, `PrivilegeDiamond`, `PrivilegeMeaning`);
- **transactions**: undo logs, savepoints and statement checkpoints, against a machine that
  simply saves copies (`Transactions`, `AnalysisSession`, `Savepoints`);
- **three-valued decisions**: index attachment, search-path lookup and the certainty of a
  finding, against the set of worlds the partial information leaves open (`IndexAttachment`,
  `SearchPath`, `Evidence`, `EvidenceRuns`);
- **type declarations**: parsing, packing, printing, and the "no rewrite" judgement, against
  the values a declaration admits (`TypeText`, `TypeCatalogue`, `DataType`, `TypeRoundTrip`,
  `TypeMeaning`, `TypeSpelling`, `TypeChange`, `TypeLossy`, `TypeSafe`, `TypeTraps`);
- the **statement loop** with its atomic statements and deduplication keys (`StatementLoop`, `StatementAtomicity`);
- the **column actions** of a relation (`ColumnActions`, `ColumnMeaning`).

Objects that the program changes in place are classes (`DependencyGraph`, `PrivilegeMatrix`,
`AnalysisSession`, `EvidenceLog`, `RelationState`); each method is tied to a function of the
old value, and the laws are proved about those functions. `dafny verify dfyconfig.toml` checks
everything.

## Properties that do not hold as one would state them

Six statements a reader might expect are false of the code. Each has lemmas with concrete
inputs, and a theorem that says what does hold for every input.

- *A cascading revoke leaves no grant whose grantor lost the option.* The loop visits each pair
  once and passes over a role that still has an option at that moment.
  `PrivilegeRuns.TwoGrantorsCanLeaveAnOrphan` is a run where the order of the receivers leaves an
  orphan; `PrivilegeDiamond.DiamondAlwaysOrphans` shows a shape where every order does.
  `PrivilegeCascade.EveryCascade` proves that an orphan's grantor is never the revoked role and
  lost two distinct sources, both downstream of the revoked role; so there is no orphan when
  every role has at most one source.
- *A type change judged safe keeps every value.* `TypeTraps.BpcharTrapOccurs`,
  `TypeTraps.ArrayTrapOccurs` and `TypeTraps.WidthTrapOccurs` are three families where it does
  not; `TypeChange.SafeChangeIsExact` proves that there is no fourth.
- *A type change is called lossy exactly when it loses values.* Between numeric types
  `TypeTraps.IntegerDigitsTrapOccurs` shows a loss that goes unnoticed, more scale at the same
  precision (src/_internal/model/data_type.rs:553-555 says that a larger scale only pads), and `TypeLossy.NumericLossyExactly` that there is no other disagreement; between text
  types `TypeLossy.TextLossyExactly` names the two unnoticed losses and the one false alarm.
- *The certainty of a finding is settled when its file ends.* `Evidence.RepeatedFileNameTaints`
  undoes it by a repeated file name, and `EvidenceRuns.RollbackInLaterFileClears` by a transaction
  that one file opens and the next rolls back, taking its evidence along.
  `EvidenceRuns.CertaintyIsSettledExactly` says for every reachable state when it is settled.
- *A bare character type has length one.* src/_internal/model/data_type.rs:92-98 says so of the
  character production whenever it reduces to `bpchar`, but lists `char` and `character` only.
  `TypeTraps.CharacterSpellings` shows `nchar`, `national char` and `national character`
  unlimited; `TypeTraps.ParsedLengthOneExactly` says for every declaration when the length is one.
- *A name follows its object through every rename.* src/_internal/analysis/graph.rs:494-496 calls
  renaming back valid, but it closes the alias chain into a cycle.
  `GraphRenameBack.EarlierNameIsCutOff` is an instance, and `GraphRenameBack.NamesAfterGoingBack`
  shows every other name cut off;
  `GraphRename.NamesAfterAnyRename` says for any graph and any two names which names follow, and
  `GraphRenameBack.LookupAfterGoingBack` when the current name keeps its dependencies.

## Model

| member | source | states |
|---|---|---|
| GraphModel.ResolveMeaning | src/_internal/analysis/graph.rs:251-267 | following rename aliases returns the end of the chain, and the name itself exactly when the chain has no end, that is when it runs into a rename cycle |
| GraphModel.FirstRenameIsAlias | src/_internal/analysis/graph.rs:229-249 | the rename index holds exactly the renamed names, each at its earliest rename edge, which is the alias resolution follows |
| GraphModel.ResolvedPositionsLookup | src/_internal/analysis/graph.rs:229-249 | the reverse index lists, in edge order, exactly the edges whose referenced end resolves to the key |
| GraphModel.PickedIsSelected | src/_internal/analysis/graph.rs:269-311 | an indexed lookup returns the same edges in the same order as a scan that resolves every edge |
| GraphRename.RenameMergesNothing | src/_internal/analysis/graph.rs:614-670 | renaming a current name to one that no dependency is written with collapses no edges, keeps them distinct, and adds one alias |
| GraphRename.OldNameIsGone | src/_internal/analysis/graph.rs:614-670 | after the rename no relation end is written with the old name, while index, sequence, trigger, routine, type and publication ends keep theirs |
| GraphRename.ResolveAfterRename | src/_internal/analysis/graph.rs:251-267 | after a rename to a name never renamed away every name that resolved to the old one resolves to the new one and every other resolution is unchanged |
| GraphRename.SelectedAfterRename | src/_internal/analysis/graph.rs:269-311 | every lookup by resolved name answers with the renamed image of its earlier answer |
| GraphRename.RenameTransport | src/_internal/analysis/graph.rs:614-670 | when the new name was never renamed away and no dependency leads to it, resolution, cascade edges and partitions of every name are the renamed images of the earlier answers, in the same order, and the new name answers as the old one does |
| GraphRename.NamesAfterAnyRename | src/_internal/analysis/graph.rs:494-499 | for any graph and any two names: a name resolves to the moved image if and only if it did not denote the old name, or the old name is renamed for the first time and the new one was never renamed away or is the very name asked for |
| GraphRenameBack.RenameTransportExactly | src/_internal/analysis/graph.rs:614-670 | all names keep their answers if and only if the new name was never renamed away |
| GraphRenameBack.NamesAfterGoingBack | src/_internal/analysis/graph.rs:494-499 | renamed back, every name the object had resolves to itself alone |
| GraphRenameBack.EarlierNameIsCutOff | src/_internal/analysis/graph.rs:494-499 | after x to a to b and back to a, the name x resolves to itself |
| GraphRenameBack.LookupAfterGoingBack | src/_internal/analysis/graph.rs:279-311 | renamed back, the current name keeps its cascade edges if and only if none was written with another of its earlier names |
| GraphSchema.ResolveAfterSchemaRename | src/_internal/analysis/graph.rs:569-605 | schema rename commutes with alias resolution |
| GraphSchema.SchemaRenameMergesNothing | src/_internal/analysis/graph.rs:569-605 | a schema rename to an unused name collapses no edges |
| GraphSchema.SchemaRenameRoundTrip | src/_internal/analysis/graph.rs:569-605 | renaming a schema to an unused name and back restores every edge, payload identities included |
| GraphSchema.MatchingImage | src/_internal/analysis/graph.rs:979-1025 | the view-by-routine, view-by-type and trigger-by-function lookups answer with the remapped image |
| GraphSchema.SchemaRenameCommutes | src/_internal/analysis/graph.rs:569-605 | a schema rename to an unused name maps resolution, cascade edges and all three exact lookups to their remapped images |
| GraphSchema.PublicationNodesStay | src/_internal/analysis/graph.rs:569-605 | publication nodes are not renamed with a schema |
| GraphLineage.PartitionGuardIsExact | src/_internal/analysis/graph.rs:502-534 | on single-parent acyclic ancestry the partition guard rejects if and only if the child is the parent or one of its ancestors |
| GraphLineage.MalformedAncestryIsRejected | src/_internal/analysis/graph.rs:502-534 | ancestry that never reaches a top is always rejected, so the climb cannot loop |
| GraphLineage.AcceptedClimbEnds | src/_internal/analysis/graph.rs:502-534 | an accepted climb came to a top without meeting the child |
| GraphLineage.RenameKeepsAcyclic | src/_internal/analysis/graph.rs:614-670 | renaming to an unused name keeps ancestry acyclic and single-parent |
| GraphLineage.SchemaRenameKeepsAcyclic | src/_internal/analysis/graph.rs:569-605 | renaming a schema to an unused name keeps ancestry acyclic and single-parent |
| GraphLineage.StepKeepsSound | src/_internal/analysis/graph.rs:502-564 | every admitted attach, inherit, rename, schema rename or removal keeps both alias-resolved ancestries acyclic and partitions single-parent |
| GraphLineage.RunsStayAcyclic | src/_internal/analysis/graph.rs:502-564 | the same over every run |
| DependencyGraphs.ResolveRenameWith | src/_internal/analysis/graph.rs:251-267 | the alias walk over the index terminates and computes the resolution of the alias relation |
| DependencyGraphs.BuildIndexes | src/_internal/analysis/graph.rs:229-249 | the built index equals the index specification of the edge list |
| DependencyGraphs.DependencyGraph.AddEdge | src/_internal/analysis/graph.rs:155-164 | set semantics on an ordered list; mirror and cached index stay in step |
| DependencyGraphs.DependencyGraph.RetainEdges | src/_internal/analysis/graph.rs:166-173 | keeps exactly the chosen edges in order; the cached index survives if and only if nothing was removed |
| DependencyGraphs.DependencyGraph.Truncate | src/_internal/analysis/graph.rs:179-186 | keeps a prefix; mirror and index stay in step |
| DependencyGraphs.DependencyGraph.ReplaceEdges | src/_internal/analysis/graph.rs:188-192 | installs the given edges without repetitions, from any earlier state |
| DependencyGraphs.DependencyGraph.DeduplicateEdges | src/_internal/analysis/graph.rs:204-208 | keeps each first occurrence and rebuilds the mirror |
| DependencyGraphs.DependencyGraph.MutateEdges | src/_internal/analysis/graph.rs:194-198 | any in-place rewriting ends in a valid graph of the rewritten edges |
| DependencyGraphs.DependencyGraph.PropagateRelationRename | src/_internal/analysis/graph.rs:614-670 | the in-place loop rewrites every edge as its kind demands |
| DependencyGraphs.DependencyGraph.RemapSchemaNamespace | src/_internal/analysis/graph.rs:569-605 | the in-place loop rewrites every edge into the new schema |
| DependencyGraphs.DependencyGraph.CurrentIndexes | src/_internal/analysis/graph.rs:224-227 | the cached index is always the one a rebuild would give |
| DependencyGraphs.DependencyGraph.ResolvedReferencedEdges | src/_internal/analysis/graph.rs:269-277 | the indexed branch returns the scan's answer |
| DependencyGraphs.DependencyGraph.ScanReferencedEdges | src/_internal/analysis/graph.rs:279-311 | the scanning branch returns the same answer, the partition scan's extra test for the written name included |
| DependencyGraphs.DependencyGraph.CascadeEdges | src/_internal/analysis/graph.rs:279-311 | both sides of the size threshold give one answer |
| DependencyGraphs.DependencyGraph.Partitions | src/_internal/analysis/graph.rs:468-492 | both sides of the size threshold give the resolved children in edge order |
| DependencyGraphs.DependencyGraph.CheckPartitionCycle | src/_internal/analysis/graph.rs:502-534 | the climb terminates and answers the partition guard |
| DependencyGraphs.DependencyGraph.CheckInheritanceCycle | src/_internal/analysis/graph.rs:539-564 | true if and only if the child is the parent or reachable upward through any number of parents and diamonds; terminates on every graph |
| GraphRuns.TakeStep | src/_internal/analysis/graph.rs:502-564 | the mutable graph takes a step exactly when its guards admit it, and otherwise is unchanged |
| GraphRuns.GuardedRun | src/_internal/analysis/graph.rs:502-564 | from the empty graph, exactly the requests the guards admit are taken, in order, and the run ends in a valid graph with acyclic single-parent partitions and acyclic inheritance |
| CascadeClosure.WalkCascade | src/_internal/analysis/state/cascade.rs:50-73 | the recursive walk visits each relation once and terminates on cyclic graphs; what it adds is closed and reachable |
| CascadeClosure.GetCascadeClosure | src/_internal/analysis/state/cascade.rs:4-123 | the closure is exactly what is reachable from the target over live view, inheritance and partition dependencies: edge by edge nothing that depends on a dropped relation stays and nothing is dropped without such an edge; with it go exactly the indexes on dropped relations and the named foreign keys that reference them |
| CascadeClosure.ClosureIsDrop | src/_internal/analysis/state/cascade.rs:75-123 | reachability implies the edge-by-edge reading, kind by kind |
| GraphMeaning.CascadeLookupMeaning | src/_internal/analysis/graph.rs:279-311 | which edges a cascade lookup returns, by kind and resolved name, pending detaches included |
| GraphMeaning.PartitionLookupMeaning | src/_internal/analysis/graph.rs:468-492 | which children a partition lookup returns, pending detaches included |
| GraphMeaning.AncestryMeaning | src/_internal/analysis/graph.rs:502-564 | which edges make up the two ancestries |
| GraphMeaning.SchemaRenameMeaning | src/_internal/analysis/graph.rs:569-605 | end by end and field by field: what a schema rename moves, trigger and written-routine identities included, and what stays |
| GraphMeaning.BareNameMeaning | src/_internal/analysis/graph.rs:994-999 | the bare name of a routine is what stands before the first parenthesis |
| GraphMeaning.ViewsForFunctionMeaning | src/_internal/analysis/graph.rs:979-991 | views found for a routine: those resolved to it, and those that know its schema and bare name |
| GraphMeaning.ExactLookupMeaning | src/_internal/analysis/graph.rs:1002-1025 | views found for a type and triggers found for a function |
| PrivilegeLedger.HoldsWhatTheLedgerSays | src/_internal/model/relation.rs:100-112 | a role holds a privilege or a grant option if and only if a ledger entry for it survives |
| PrivilegeLedger.EffectKeepsCoherent | src/_internal/model/relation.rs:25-40 | every change keeps options within grants, option sources within grant sources, no empty provenance, and provenance only for what is held |
| PrivilegeMeaning.AllStandsForEvery | src/_internal/model/relation.rs:100-112 | a stored ALL stands for every privilege |
| PrivilegeMeaning.GrantMeaning | src/_internal/model/relation.rs:43-81 | cell by cell: a grant gives what it names, the option only when asked, records its grantor for both, and touches nothing else |
| PrivilegeMeaning.RevokeMeaning | src/_internal/model/relation.rs:83-98 | nothing is left of what an untargeted revoke names, and ALL names everything |
| PrivilegeMeaning.OptionRevokeMeaning | src/_internal/model/relation.rs:174-199 | the option and its sources go, the privilege and its sources stay |
| PrivilegeMeaning.TargetedRevokeMeaning | src/_internal/model/relation.rs:253-317 | one source goes; the privilege with its last source, the option with its last recorded source or, when it had none, with the privilege; ALL means what the role holds |
| PrivilegeMeaning.ProvenanceMeaning | src/_internal/model/relation.rs:203-251 | sources go, what is held stays |
| PrivilegeMeaning.TargetedOptionRevokeMeaning | src/_internal/model/relation.rs:361-402 | the option stays only with another recorded source, the privilege stays, the option's provenance is forgotten |
| PrivilegeLedger.GrantRefinesLedger | src/_internal/model/relation.rs:55-81 | a grant from a known grantor adds exactly its entries |
| PrivilegeLedger.RevokeRefinesLedger | src/_internal/model/relation.rs:83-98 | an untargeted revoke removes exactly the role's requested entries |
| PrivilegeLedger.OptionRevokeRefinesLedger | src/_internal/model/relation.rs:174-199 | revoking the option removes exactly the option entries and no grant |
| PrivilegeLedger.TargetedRevokeRefinesLedger | src/_internal/model/relation.rs:271-317 | a targeted revoke removes that grantor's entries and nothing another grantor gave |
| PrivilegeMatrices.PrivilegeMatrix.Grant | src/_internal/model/relation.rs:43-45 | the requested cells become held, all others stay |
| PrivilegeMatrices.PrivilegeMatrix.GrantWithOption | src/_internal/model/relation.rs:47-53 | the requested cells become held with option, all others stay |
| PrivilegeMatrices.PrivilegeMatrix.GrantFrom | src/_internal/model/relation.rs:55-81 | records privilege, option and both provenances; refines the ledger grant |
| PrivilegeMatrices.PrivilegeMatrix.Revoke | src/_internal/model/relation.rs:83-98 | clears the requested cells; refines the ledger revoke |
| PrivilegeMatrices.PrivilegeMatrix.RevokeGrantOption | src/_internal/model/relation.rs:174-199 | clears options and their provenance only |
| PrivilegeMatrices.PrivilegeMatrix.RemoveGrantProvenance | src/_internal/model/relation.rs:203-251 | removes one source, or all, without touching what is held; keeps coherence |
| PrivilegeMatrices.PrivilegeMatrix.RevokeFrom | src/_internal/model/relation.rs:271-317 | a privilege goes with its last source and an option with its last option source; refines the ledger |
| PrivilegeMatrices.PrivilegeMatrix.RevokeGrantOptionFrom | src/_internal/model/relation.rs:361-402 | removes the grantor's options and then all option provenance of the request; keeps coherence |
| PrivilegeMatrices.PrivilegeMatrix.RevokeFromCascade | src/_internal/model/relation.rs:321-359 | terminates for any delegation graph; only removes, only requested privileges of roles downstream of the revoked one, and only sources downstream of it; an orphan's grantor is not the revoked role and lost two sources downstream of it; with single sources there is no orphan; the result is a run of the documented loop |
| PrivilegeCascade.EveryCascade | src/_internal/model/relation.rs:319-359 | the same of every complete run of the loop, in whatever order the receivers come |
| PrivilegeDiamond.DiamondAlwaysOrphans | src/_internal/model/relation.rs:336-357 | when two roles below the revoked one both gave to a third, every complete run orphans what the third gave on |
| PrivilegeDiamond.DiamondsExist | src/_internal/model/relation.rs:25-40 | such matrices exist, coherent and fully sourced |
| PrivilegeCascade.PairProcessed | src/_internal/model/relation.rs:338-357 | stripping one lost grantor keeps the whole worklist invariant |
| PrivilegeCascade.PairKeepsOption | src/_internal/model/relation.rs:342-344 | passing over a role that still has an option keeps the worklist invariant |
| LedgerMachine.StepRefinesLedger | src/_internal/model/relation.rs:338-357 | one iteration on the four maps is one iteration on the plain ledger |
| LedgerMachine.TargetedRevokeRefines | src/_internal/model/relation.rs:321-359 | the whole targeted revoke, cascading or not, is the ledger's own targeted revoke |
| PrivilegeRuns.Apply | src/_internal/model/relation.rs:43-402 | every public mutator keeps coherence, and every ledger operation is one step of the ledger machine |
| PrivilegeRuns.Replay | src/_internal/model/relation.rs:43-402 | every run of mutators keeps coherence; a run of ledger operations is a run of the plain ledger, at whose end a role holds exactly what its entries say |
| PrivilegeRuns.TwoGrantorsCanLeaveAnOrphan | src/_internal/model/relation.rs:339-344 | a five-state run of the loop in which a role with two grantors is passed over, loses its option later and leaves an orphan |
| Transactions.UndoTakesBack | src/_internal/analysis/state/snapshots.rs:4-52 | undoing what was recorded before a change restores the state: object snapshots, truncation after adds, replaced edges, and whole-namespace snapshots |
| Transactions.RollbackToSimulates | src/_internal/analysis/state/apply_transaction.rs:110-137 | rolling back to a savepoint restores what was saved there and keeps the savepoint |
| Transactions.ReleaseSimulates | src/_internal/analysis/state/apply_transaction.rs:152-191 | releasing merges the inner logs so that outer rollbacks still restore their own start |
| Transactions.StepSimulates | src/_internal/analysis/state/apply_transaction.rs:10-191 | every command keeps the undo-log machine in step with the machine that saves copies |
| Transactions.UndoLogsRefineCopies | src/_internal/analysis/state/apply_transaction.rs:10-191 | over every run of commands both machines hold the same state and abort flag |
| Savepoints.RollbackToReturnsToSavepoint | src/_internal/analysis/state/apply_transaction.rs:110-137 | in every reachable state: after setting a savepoint and any commands that do not pop it, when no later savepoint bears its name, rolling back to the name gives back the state at that savepoint, revives the transaction and keeps the savepoint as innermost |
| Savepoints.ReleaseKeepsWork | src/_internal/analysis/state/apply_transaction.rs:152-191 | releasing the innermost savepoint of a name keeps the state, drops it with all later frames, and leaves every earlier frame's start as it was |
| Savepoints.UnknownSavepointAborts | src/_internal/analysis/state/apply_transaction.rs:114-128 | a name no savepoint bears aborts the transaction |
| Savepoints.OperationMeaning | src/_internal/analysis/state/snapshots.rs:4-52 | what each recorded operation changes and what it leaves |
| AnalysisSessions.AnalysisSession.Snapshot | src/_internal/analysis/state/rollback.rs:4-18 | an undo entry goes to the innermost frame only |
| AnalysisSessions.AnalysisSession.RollbackUndoLog | src/_internal/analysis/state/rollback.rs:24-200 | entries are undone newest first |
| AnalysisSessions.AnalysisSession.ApplyBegin | src/_internal/analysis/state/apply_transaction.rs:10-17 | begins only outside a transaction |
| AnalysisSessions.AnalysisSession.ApplyCommit | src/_internal/analysis/state/apply_transaction.rs:19-41 | an aborted transaction rolls back on commit; chaining opens a new one |
| AnalysisSessions.AnalysisSession.ApplyRollback | src/_internal/analysis/state/apply_transaction.rs:93-108 | rolls back every frame, innermost first |
| AnalysisSessions.AnalysisSession.FindSavepoint | src/_internal/analysis/state/apply_transaction.rs:114-119 | the innermost savepoint of the name, or that there is none |
| AnalysisSessions.AnalysisSession.ApplySavepoint | src/_internal/analysis/state/apply_transaction.rs:139-150 | pushes an empty frame inside a live transaction |
| AnalysisSessions.AnalysisSession.ApplyRollbackTo | src/_internal/analysis/state/apply_transaction.rs:110-137 | finds the innermost savepoint of the name, or aborts |
| AnalysisSessions.AnalysisSession.ApplyRelease | src/_internal/analysis/state/apply_transaction.rs:152-191 | appends the released logs in order to the frame below, or aborts |
| AnalysisSessions.AnalysisSession.ApplyOperation | src/_internal/analysis/state/snapshots.rs:4-52 | the undo entry is recorded before the change, and nothing happens in an aborted transaction |
| AnalysisSessions.AnalysisSession.RestoreCheckpoint | src/_internal/analysis/state/rollback.rs:209-227 | refuses a changed depth or a shorter log, and otherwise undoes exactly the newer entries |
| AnalysisSessions.CheckpointRestoresStatement | src/_internal/engine/engine.rs:25-68 | whatever mutations a statement ran inside a transaction, restoring its checkpoint succeeds and gives back every tracked object, the graph, the frames and the logs it started from |
| StatementAtomicity.FailedStatementLeavesNothing | src/_internal/engine/engine.rs:375-403 | a statement of a live transaction that conflicts at its n-th action ends as if it had found the transaction aborted and only that action's rules had spoken |
| IndexAttachment.AttachEquivalence | src/_internal/model/index.rs:373-420 | the running verdict with its early exit computes the declarative verdict, for key lists of any length |
| IndexAttachment.VerdictIsSymmetric | src/_internal/model/index.rs:373-467 | the verdict does not depend on which index is asked |
| IndexAttachment.VerdictIsSound | src/_internal/model/index.rs:373-467 | in every way of filling in what the descriptions leave open, identical means equal facts and different means unequal facts |
| IndexAttachment.VerdictIsExact | src/_internal/model/index.rs:288-467 | identical if and only if no open world tells the indexes apart, different if and only if every open world does, so unknown exactly when open worlds disagree |
| SearchPath.ResolveUnqualified | src/_internal/analysis/namespace.rs:74-97 | the loop with its shadowing flag computes the path scan, system catalog first unless it is listed |
| SearchPath.ResolutionIsCertain | src/_internal/analysis/namespace.rs:67-97 | an answer is the server's answer however the unsearchable entries turn out |
| SearchPath.NoAnswerIsJustified | src/_internal/analysis/namespace.rs:67-97 | no answer is given if and only if the server finds nothing in any world or its answer varies with what unsearchable entries hold |
| SearchPath.NoAnswerMeansOpen | src/_internal/analysis/namespace.rs:74-97 | the scan gives no answer if and only if no searched schema has the name or an unsearchable entry precedes the first that does |
| SearchPath.CatalogComesFirst | src/_internal/analysis/namespace.rs:74-85 | a system catalog without a place on the path answers first |
| SearchPath.FirstSearchedSchemaAnswers | src/_internal/analysis/namespace.rs:85-97 | otherwise the first searched schema that has the name answers, the system catalog at its written place included |
| SearchPath.BuiltinCollations | src/_internal/model/collation.rs:74-83 | three collations exist in the system catalog whatever was loaded, and only there |
| SearchPath.CollationsMove | src/_internal/model/collation.rs:57-72 | a renamed schema takes exactly its own collations along |
| SearchPath.LookupAfterRename | src/_internal/model/collation.rs:57-83 | remapping a schema moves exactly its collations |
| SearchPath.CollationRenameCommutes | src/_internal/model/collation.rs:57-100 | renaming a non-system schema to an unused name commutes with resolving every written collation |
| SearchPath.HasMeansLookup | src/_internal/model/collation.rs:26-83 | membership and lookup agree, built-in collations included |
| Evidence.EvidenceLog.Insert | src/_internal/analysis/evidence.rs:113-120 | the log stays ordered and duplicate-free, gains exactly the record, and reports whether it was new |
| Evidence.LogIsCanonical | src/_internal/analysis/evidence.rs:96-120 | two logs of the same records are the same sequence, whatever the order and repetition of insertion |
| Evidence.CertaintyForStatement | src/_internal/report/violations.rs:199-231 | tainted if and only if some record counts against the finding, or the finding has no place and there is any record; otherwise assumed or exact as the version was asserted or not |
| Evidence.TaintMeaning | src/_internal/report/violations.rs:194-237 | position by position: an unplaceable record or finding always taints, a placed chain record exactly statements strictly after it, a placed statement record exactly its own |
| Evidence.CertaintyMeaning | src/_internal/report/violations.rs:194-231 | each of the three certainties as an if-and-only-if over the records that count |
| Evidence.EvidenceNeverRaisesCertainty | src/_internal/report/violations.rs:194-231 | more evidence never raises certainty |
| Evidence.LaterRecordsAreHarmlessExactly | src/_internal/report/violations.rs:199-237 | records of later files leave every finding of a file alone if and only if none of those files bears a name already seen |
| EvidenceRuns.CertaintyIsSettledExactly | src/_internal/engine/engine.rs:132-181 | in every reachable state the certainty a finding has when its file ends is final under all that later files can record or roll back if and only if: no file follows; or it is tainted and no transaction is open, or was tainted when the open one began; or it is not tainted and no later file bears a name already seen |
| EvidenceRuns.CertaintySurvives | src/_internal/engine/engine.rs:132-181 | with no transaction open at the end of the file and no name used again, every finding of the file keeps its certainty through every continuation |
| EvidenceRuns.RollbackInLaterFileClears | src/_internal/analysis/state/rollback.rs:194-196 | a taint recorded in a transaction that the next file rolls back is gone: tainted becomes exact |
| Evidence.RepeatedFileNameTaints | src/_internal/report/violations.rs:233-237 | with a repeated file name a later record can taint an exact finding |
| StatementAtomicity.AbortedStatementIsSilent | src/_internal/analysis/state/apply.rs:9-20 | a statement that meets an aborted transaction changes nothing and reports nothing |
| StatementLoop.EvaluateRules | src/_internal/engine/engine.rs:410-530 | rules run in order, and what is pushed is what deduplication leaves |
| StatementLoop.PushFindings | src/_internal/engine/engine.rs:489-529 | a key already warned about, in the file or in the statement, suppresses; unkeyed findings and the engine's own always pass |
| StatementLoop.AnalyzeStatement | src/_internal/engine/engine.rs:346-547 | state, findings and keys of a statement are those of its atomic reading |
| StatementLoop.AnalyzeFile | src/_internal/engine/engine.rs:263-551 | a file reports one file-wide deduplication of what its statements finally raised |
| StatementLoop.ConflictContributesItsActionOnly | src/_internal/engine/engine.rs:377-403 | a statement that conflicts at its n-th action contributes exactly the findings and keys that action raises on the restored state |
| StatementLoop.NoConflictNoFailure | src/_internal/engine/engine.rs:377-403 | without a conflict every action takes effect in turn |
| StatementLoop.DedupedKeys | src/_internal/engine/engine.rs:489-495 | deduplication reports every unseen key and no seen one |
| StatementLoop.FileFindingsMeaning | src/_internal/engine/engine.rs:346-547 | rule findings of a file carry pairwise distinct keys, every key of a surviving action is reported, so no rolled-back action ever suppressed one, every unkeyed finding and every finding of the engine's own is reported, and nothing is made up |
| TypeText.FoldUnquotedIdentifierCase | src/_internal/model/data_type.rs:437-457 | the look-ahead for doubled quotes makes no difference: the loop folds outside quotes, each quote toggling |
| TypeCatalogue.New | src/_internal/model/builtin_type.rs:146-150 | sorted, one entry per name, and each name keeps its first entry |
| TypeCatalogue.SameNamesSameEntries | src/_internal/model/builtin_type.rs:146-150 | catalogues that answer every name alike hold the same entries |
| TypeCatalogue.CatalogueIsCanonical | src/_internal/model/builtin_type.rs:146-150 | catalogues of the same entries are the same sequence |
| TypeCatalogue.FindByName | src/_internal/model/builtin_type.rs:166-177 | binary search finds the entry of a name, or that there is none |
| TypeCatalogue.Resolve | src/_internal/model/builtin_type.rs:166-177 | binary search by aliased name, then a scan by canonical spelling, finds what the declarative lookup finds |
| DataType.Parse | src/_internal/model/data_type.rs:222-293 | the stripping loop terminates and parses as the declarative reading does |
| DataType.PackedWord | src/_internal/model/data_type.rs:490-501 | on 32-bit words shifting, masking and joining are the product, remainder and sum of the arithmetic form, stay positive, and shifting back and sign-extending recover both parts |
| DataType.EncodingRoundTrips | src/_internal/model/data_type.rs:477-511 | the stored modifier is a positive 32-bit integer, never takes the overflow exit, decodes to exactly the declared limits, and exists exactly for declarations with established limits |
| TypeMeaning.IntTextReadsBack | src/_internal/model/data_type.rs:361-435 | a decimal numeral reads back as its number exactly when it fits in 32 bits |
| TypeMeaning.DeclaredNumericIsStored | src/_internal/model/data_type.rs:361-511 | a written numeric(p,s) of any dimension is accepted if and only if p is 1 to 1000 and s is -1000 to 1000, and then what is stored decodes to p and s |
| TypeMeaning.DeclaredLengthIsStored | src/_internal/model/data_type.rs:361-501 | a written character length is accepted if and only if it is 1 to 10485760, and is stored with its four-byte header |
| TypeMeaning.DeclaredFloatSelectsType | src/_internal/model/data_type.rs:258-352 | float(p) selects the single or double type by precision and keeps no modifier; outside 1 to 53 it stays the float spelling with its modifier kept |
| TypeSpelling.FoldMeaning | src/_internal/model/data_type.rs:437-457 | character by character: capitals behind an even number of quotes become small, all else stays |
| TypeSpelling.SpaceIsIgnored | src/_internal/model/data_type.rs:222-228 | white space around a declaration makes no difference |
| TypeSpelling.QualifiedParsesAlike | src/_internal/model/data_type.rs:354-358 | the system catalog's qualifier, quoted or not, makes no difference, whatever name, modifier and dimension follow |
| TypeSpelling.SerialDeclaresInteger | src/_internal/model/data_type.rs:258-293 | each of the six serial names declares the integer type of its size |
| TypeSpelling.ModifierRules | src/_internal/model/data_type.rs:78-90 | ten types take a modifier, each in its own way; every other type rejects one |
| TypeSpelling.BareRules | src/_internal/model/data_type.rs:92-98 | what the absence of a modifier means for every type |
| TypeSpelling.PrecisionAlone | src/_internal/model/data_type.rs:396-418 | numeric(p) has precision p and no scale, in range or rejected |
| TypeSpelling.IntegerAliases | src/_internal/model/builtin_type.rs:96-135 | the integer spellings |
| TypeSpelling.RealAliases | src/_internal/model/builtin_type.rs:96-135 | the floating-point and decimal spellings |
| TypeSpelling.StringAliases | src/_internal/model/builtin_type.rs:96-135 | the character and varying spellings |
| TypeSpelling.TimeAliases | src/_internal/model/builtin_type.rs:96-135 | the time-zone spellings |
| TypeSpelling.OtherNamesAreNoAliases | src/_internal/model/builtin_type.rs:130-135 | every other name stands for itself |
| TypeRoundTrip.ModifierIsStable | src/_internal/model/data_type.rs:222-293 | the modifier of a recognised declaration is trimmed and unchanged by folding |
| TypeRoundTrip.RenderedParsesTo | src/_internal/model/data_type.rs:633-663 | a rendering parses to its own name, modifier and dimension, time-zone suffix behind the modifier included |
| TypeRoundTrip.PrintParseRoundTrip | src/_internal/model/data_type.rs:633-663 | printing any declaration that named a built-in and parsing it again yields the same built-in, modifier class and dimension, rejected modifiers included |
| TypeRoundTrip.PrintingIsIdempotent | src/_internal/model/data_type.rs:633-663 | a printed declaration is a normal form |
| TypeChange.SafeChangeIsExact | src/_internal/rules/destructive.rs:686-740 | a change judged safe keeps every admitted value if and only if it stays array or stays scalar, is not from unlimited `bpchar` to a limited spelling of it, and does not put longer text into a fixed width |
| TypeChange.SafeChangeIsLossyOnlyByDimension | src/_internal/model/data_type.rs:536-588 | a change judged safe is called lossy if and only if the number of dimensions changes or a fixed width gives way to a smaller one |
| TypeChange.WrittenChangeIsExact | src/_internal/rules/destructive.rs:586-740 | both, for any two written declarations of valid text or numeric types |
| TypeLossy.DimensionChangeIsLossy | src/_internal/model/data_type.rs:536-551 | a different number of dimensions is always lossy |
| TypeLossy.TextLossIsShorterBound | src/_internal/model/data_type.rs:570-580 | text is lost if and only if the longest text that fits gets shorter |
| TypeLossy.TextLossyExactly | src/_internal/model/data_type.rs:536-588 | between any text types of equal dimension: called lossy if and only if a value is lost, but for two losses that go unnoticed (a length implied by spelling, a fixed width) and one false alarm (a limit that holds the whole fixed width) |
| TypeLossy.DigitsDecideLoss | src/_internal/model/data_type.rs:553-562 | numbers are lost if and only if there are fewer digits behind or before the point |
| TypeLossy.NumericLossyExactly | src/_internal/model/data_type.rs:536-562 | between any numeric types of equal dimension: a number is lost if and only if the change is called lossy, or precision and scale grow at the expense of the integer digits |
| TypeLossy.IntegerLossyExactly | src/_internal/model/data_type.rs:564-568 | between integer types: lossy if and only if some integer no longer fits |
| TypeLossy.FamilyChangeIsLossyForLimitedText | src/_internal/model/data_type.rs:582-588 | leaving text for another family is called lossy if and only if the text had a length |
| TypeSafe.TextSafeExactly | src/_internal/rules/destructive.rs:704-723 | between text types without fixed width, `character` aside: judged safe if and only if every value fits |
| TypeSafe.CharacterSafeExactly | src/_internal/rules/destructive.rs:695-714 | a change from or to `character` is judged safe if and only if type, arrayness and written modifier stay |
| TypeSafe.NumericSafeExactly | src/_internal/rules/destructive.rs:725-739 | between numeric types: judged safe if and only if nothing changes, or the server is version 12 or newer and every number fits at its own scale |
| TypeSafe.FamilyChangeIsNotSafe | src/_internal/rules/destructive.rs:686-740 | text never turns into numbers safely, nor back |
| TypeChange.SomeCatalogueIsKnown | src/_internal/sync/load_types.rs:158-190 | a catalogue with a fixed-width text type among its entries meets every assumption made of catalogues |
| TypeTraps.BpcharTrapOccurs | src/_internal/rules/destructive.rs:686-740 | `bpchar` to `char` is judged safe though it narrows |
| TypeTraps.ArrayTrapOccurs | src/_internal/rules/destructive.rs:686-740 | a text array to `text` is judged safe though it leaves the array type |
| TypeTraps.WidthTrapOccurs | src/_internal/rules/destructive.rs:586-740 | `varchar(n)`, n above one, to a one-byte string type is judged safe and not lossy |
| TypeTraps.ShorterVarcharIsLossy | src/_internal/model/data_type.rs:570-580 | `varchar(n)` to `varchar(m)` is lossy if and only if m is smaller |
| TypeTraps.IntegerDigitsTrapOccurs | src/_internal/model/data_type.rs:553-562 | `numeric(p,s)` with more scale at the same precision is not called lossy, though numbers are lost |
| TypeTraps.CharacterSpellings | src/_internal/model/data_type.rs:92-98 | five spellings denote `bpchar`, and a bare one has length one if and only if it is `char` or `character`; the national spellings are unlimited |
| TypeTraps.ParsedLengthOneExactly | src/_internal/model/data_type.rs:361-394 | for every written declaration without modifier that denotes `bpchar`: length one if and only if the name looked up is `char` or `character`, else unlimited |
| ColumnActions.ActionKeepsConsistent | src/_internal/model/relation.rs:777-940 | every action keeps column names unique and the inheritance, identity and generated maps within the columns |
| ColumnActions.RunsKeepConsistent | src/_internal/model/relation.rs:777-940 | the same over every run |
| ColumnActions.RenameRoundTrip | src/_internal/model/relation.rs:828-880 | renaming to a free name and back restores columns and maps, apart from rewritten text |
| ColumnActions.AddDropRoundTrip | src/_internal/model/relation.rs:779-827 | adding an absent column and dropping it restores the relation |
| ColumnActions.RelationState.ApplyColumnAction | src/_internal/model/relation.rs:777-940 | the in-place update is the value-level one |
| ColumnActions.SetterChangesOneColumn | src/_internal/model/relation.rs:881-938 | a setter changes the first column of its name, in its own fields, and no other column, field or map; a type change voids exactly what was derived from the old type |
| ColumnMeaning.SetterValues | src/_internal/model/relation.rs:881-938 | the value of every field each setter is about, for the first column of the name: nullability, type with everything derived from it voided, default with a null literal meaning none, storage with the word default in any case meaning none, compression, target, options key by key; an unknown name changes nothing |
| ColumnMeaning.AddMeaning | src/_internal/model/relation.rs:779-821 | an absent column is appended: never null when declared so or serial, with the serial's integer type and sequence default, nothing known from a catalogue; a present one stays |
| ColumnMeaning.DropMeaning | src/_internal/model/relation.rs:822-827 | the name is gone from the columns and every map, all else stays in order |
| ColumnMeaning.RenameMeaning | src/_internal/model/relation.rs:828-880 | the first such column changes its name and nothing else, its entries move in every map, every generated expression is rewritten; otherwise nothing happens |
| ColumnActions.SettersCommute | src/_internal/model/relation.rs:881-938 | setters of different columns can be exchanged |

## Left out

- `inferred_schema` of an object identity: it plays no part in identity, equality or lookup.
- The index, sequence, trigger, function, type, view-reference, constraint, column and publication renames of the graph: they are further per-edge rewritings, covered through `MutateEdges` only.
- The single-kind lookups the graph offers to its tests, and updating or remapping index definitions in place.
- The liveness test of an edge (generations and overlays): a parameter of the cascade walk.
- DependencyGraphs.DependencyGraph.MutateEdges: the rewriting closure is a function of the whole edge list that keeps its length.
- PrivilegeMatrices.PrivilegeMatrix.RevokeFromCascade: the order in which a hash map yields receivers is left open. The orphan condition is necessary for every order and, on a diamond, sufficient for every order; whether one particular matrix orphans somebody in one particular order is not characterised further, because it can depend on that order.
- PrivilegeMatrices.PrivilegeMatrix.RevokeGrantOptionFrom: not part of the ledger refinement, because it drops the option provenance of every grantor at the end; it keeps coherence.
- PrivilegeRuns.Replay: the ledger reading assumes that the literal ALL is requested but never stored.
- Role context, ON COMMIT actions, generation counters and the confidence entries of the undo log: undo entries that put back one saved value, as the object snapshots do.
- AnalysisSessions.CheckpointRestoresStatement: the records of rules that were not evaluated (src/_internal/analysis/state/accessors.rs:84-95) have no undo entry, so inside a transaction a failed statement keeps those it added; they are not part of the session modelled here.
- The full-copy statement checkpoint outside transactions: it restores a clone.
- The error exit when a checkpoint cannot be restored: `CheckpointRestoresStatement` shows that it is not reached.
- Parsing, resolving, what a mutation changes and what a rule finds: parameters of the statement loop.
- What a change between other types of fixed width loses (dates, floating point, network addresses): only the comparison of widths is modelled.
- Unicode case folding and white space: folding and trimming are modelled for ASCII.
- DataType.EncodingRoundTrips: masking, shifting and joining bits are written as remainder, product and sum of integers; `DataType.PackedWord` relates the two on 32-bit words.
- TypeChange.SafeChangeIsExact: text is measured in characters and a fixed width in bytes, so a value counts as fitting a fixed width when each of its characters takes one byte.
- Object identifiers, array identifiers and the preferred flag of catalogue entries, and the generated fallback catalogue.
- Partition keys, extended statistics and the partition bounds of a relation under column renames; rewriting names inside expression text is an opaque function that may fail.
- Index keys built from a statement, and the collation catalogue's single-entry moves and drops.
- Settings, the SQL parser, baseline reading and synchronisation, reporting, the command line and the interactive viewer.
