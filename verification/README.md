# termin-core in Dafny

A model of the framework-free logic of termin-core, with proofs of what it promises. Storage, the CEL
evaluator, sockets, clocks and hooks are parameters: a function that may answer anything, or fail.
Code that changes things step by step is a class or a method with loops, tied by its postcondition to a
function of the old state; the properties are lemmas about those functions.

| file | models |
|---|---|
| `Basics.dfy` | values, records, sequences without repetition, sorted sets of strings |
| `Storage.dfy`, `StorageLaws.dfy` | the Predicate AST, its meaning, the conditional update |
| `StateMachine.dfy`, `Protocol.dfy`, `EventLaws.dfy` | one state transition; any number of them interleaving with deletes, creates and ordinary writes; what is refused and what is announced |
| `Events.dfy` | the event bus |
| `Crud.dfy`, `HandlerLaws.dfy`, `CrudLaws.dfy`, `UpdateLaws.dfy`, `AcceptanceLaws.dfy`, `OwnershipLaws.dfy` | the list, read, create, update, delete and transition handlers as atomic steps; what each stores and answers; what a PUT leaves behind; which rows the validators accept; who changes and who sees an owned row; whole runs |
| `Transactions.dfy` | staging, journal, commit and retry |
| `Classifier.dfy`, `TierLaws.dfy`, `Widening.dfy`, `RoundTrip.dfy` | the migration diff, when each of its tiers is given, what the tiers mean for stored data, and its inverse |
| `Renames.dfy`, `RenameLaws.dfy`, `FoldSoundness.dfy`, `Acks.dfy`, `AckLaws.dfy` | rename folding and what a folded diff says about stored data, the empty-table downgrade, the acknowledgement gate |
| `Literals.dfy`, `TokenLaws.dfy`, `CelTrees.dfy`, `PredicateCompiler.dfy`, `PredicateMeaning.dfy`, `RefusalLaws.dfy`, `PredicatePrinting.dfy` | CEL literals and trees compiled to predicates; meaning preserved; only the documented refusal; print and compile back |
| `Materialize.dfy`, `TurnLaws.dfy` | conversation entries to provider messages |
| `Redaction.dfy`, `VisibilityLaws.dfy` | confidential fields |
| `Connections.dfy`, `DeliveryLaws.dfy` | channel names, the connection registry, the session loop |
| `Bindings.dfy` | effective deploy configuration |

`dafny verify dfyconfig.toml` checks everything.

## Where the code does less than it says

Each of these is proved with the exact condition under which the code does meet the promise. The lemma in
brackets states the condition for all inputs; a second one, where named, is an input that fails.

- **The gate is true of the snapshot, not of the write.** The compare-and-set re-checks only the state
  column. Whatever others write in between, the gate still holds at the write exactly when the edge has
  neither a condition nor entered expressions (`GateHoldsAtWriteIff`; `GateOutrun`). In `Protocol` that is
  `StateChangesAreGatedMoves` for the snapshot and `ScopeGatesHoldAtTheWrite` for the write.
- **"Exactly one" caller wins a race, unless the edge is a loop.** The first to write wins
  (`WriterWinsIff`); the next one wins too exactly when the first took a declared edge back to the same
  state (`SecondWinnerIff`, `AtMostOneWinner`).
- **An entered assignment may overwrite the target state.** The target is sure to be written exactly when
  no entered assignment names the state column (`TargetWrittenIffNotAssigned`). The protocol and CRUD
  results assume that none does.
- **A failing PUT may leave moves behind**, already announced on the bus. Past the access checks it leaves
  the store as it was exactly when the body asks no machine for a new state, or the first machine it asks
  has no declared edge there whose gate holds of the row read (`FailedUpdateLeavesNoTraceIff`, `FailedUpdateAnnouncesIff`; `RefusedBodyLeavesTheMove`).
- **The transition handler never asks who owns the row, and a cascade never does.** A stranger's request
  changes an owned row exactly when it is a transition that its edge and gate let through, and deletes one
  exactly when it deletes another row that cascades to it (`StrangerChangesRowIff`,
  `StrangerDeletesRowIff`; `StrangerFinishesATask`, `StrangerCascadesToATask`). Over whole runs an owned row
  is otherwise changed and deleted by its creator alone (`RunsChangeOwnedRowsByRight`).
- **The list handler drops the ownership filter for an empty id**, so that a user without one is listed rows
  the read handler refuses; it lists only readable rows exactly when there is no filter or the id is not
  empty (`ListedIsReadableIff`, `ListedIff`; `AnonymousListsAnOwnedRow`).
- **The enum and bound validators do not guard what is stored.** An update never runs them: a valid row stays
  valid exactly when they accept the body and what the last entered expression for each other field yields
  (`UpdateKeepsRowAcceptedIff`; `UpdateStoresARefusedNumber`). A create runs them before dependent values are
  filled in: the row is valid exactly when those and the initial states are (`CreatedRowAcceptedIff`;
  `CreateStoresARefusedNumber`).
- **Giving up after a failed commit does not undo it.** Production is as before exactly when each key of the
  writes applied so far already held what they left at it; for any production at all, exactly when the very
  first write failed (`AbortIsAtomicIff`, `AbortIsAlwaysAtomicIff`).
- **A first enum list is only "medium"**, and rejects stored values (`BelowHighKeepsEnumIff`;
  `FirstEnumIsOnlyMedium`).
- **The tightening flag is raised against an empty old interval too**, where no number was accepted
  (`TighteningIsRejection`).
- **A folded rename is "low" whatever it renames onto**: folding runs before the acknowledgement gate, the
  type-changed flag is never raised on a computed diff, and the two fields, or the fields of the two
  contents, are not compared. A diff folded to nothing above "medium" keeps stored rows valid exactly when
  every renamed field and content loosens, no kept column gains a first enum list, and every column the rows
  have no value for is optional or has a default (`BelowHighFoldIsSoundIff`, `RenameHidesTypeChange`;
  `LowFoldThatBreaksData`, `AnySingleFieldRenameIsLow`, `AnyContentRenameIsLow`, `UnfillableFieldIsMedium`).
  A foreign key added to a table with rows, which is blocked, goes unnoticed exactly in a renamed content
  (`BelowHighFoldAddsNoReferenceIff`; `LowFoldHidesABlockedField`).
- **Content renames are folded first because they may change the names field renames target, but a field
  rename of a renamed content is always refused** (`FieldRenameOfRenamedContentFails`).
- **After the downgrade a dropped field of an empty table needs no acknowledgement**, although the change
  is "low": the gate recomputes the field's tier, finds "blocked" and skips it
  (`GateAsksForEverythingRequiredIff`; `DroppedFieldOfEmptyTableNeedsNoAck`).
- **Not every literal is read as CEL reads it.** Of the integers, booleans, null and strings exactly the
  plain ones are: hexadecimal and unsigned integers, raw and triple-quoted strings, escapes between single
  quotes and escapes JSON does not have become some other text (`LiteralsReadRightIff`,
  `JsonReadsAsCelIff`). A bare name on the right compiles exactly when Python reads it as a constant
  (`PythonConstantsAreMisread`), and `.Contains` compiles to contains (`ContainsIsCaseBlind`).
- **A conditional expression, which should be refused, compiles to its condition.** Wherever the walker meets
  one the branches are dropped (`ErasedCompilesAlike`, `MeaningIsPreserved`). It is refused exactly when its
  condition does not compile, and only then read right for every choice of branches
  (`TernaryReadsRightIff`; `TernaryIsReadAsItsNegation`).
- **A repeated tool_call id leaves a call without a result**, which the provider rejects
  (`EveryUseIsAnsweredIff`; `RepeatedIdGoesUnanswered`).
- **Owned content "never leaks to anonymous subscribers" holds for loading only**: a broadcast reaches an
  anonymous connection exactly when the row's owner value is the empty string
  (`AnonymousReceivesIffOwnerIsEmpty`). The whole-run result therefore says that a pushed row carries the
  receiver's id, and of loaded rows also that this id is not empty.

## Model

| member | source | states |
|---|---|---|
| `Storage.Store.UpdateIfMatches` | termin_core/providers/storage_contract.py:725-760 | the patch lands exactly when the row is there and meets the predicate at the moment of the write; the three terminal results tell which; no other row moves |
| `StorageLaws.NumbersCompare` | termin_core/providers/storage_contract.py:96-120 | on two numbers the four comparisons are those of the numbers |
| `StorageLaws.StringsCompare` | termin_core/providers/storage_contract.py:96-120 | on two strings they are those of code-point order, told by the first place where the strings differ |
| `StorageLaws.ContainsIff` | termin_core/providers/storage_contract.py:136-139 | a text contains exactly the strings that stand between a beginning and an end of it |
| `StateMachine.FindMachineFindsFirst` | termin_core/state/machine.py:133-137 | the machine used is the first of that name, and none is found exactly when no machine has it |
| `StateMachine.ReadThenGate` | termin_core/state/machine.py:130-302 | everything up to the write is one function of the snapshot read, with every error branch |
| `StateMachine.EvaluateEntered` | termin_core/state/machine.py:268-302 | the entered loop patches left to right and fails as soon as one expression raises |
| `StateMachine.AssignEnteredExact` | termin_core/state/machine.py:283-302 | the assignments succeed exactly when every expression evaluates, touch only the fields they name, and the last one to a field decides it |
| `StateMachine.ReadAndGateExact` | termin_core/state/machine.py:140-302 | a call gets as far as the write exactly when the record is there and a declared edge with its gate (scope, or CEL condition, and entered expressions) holds of the snapshot |
| `StateMachine.ReadyPatch` | termin_core/state/machine.py:268-285 | the patch sets the state column and the entered fields and nothing else |
| `StateMachine.TargetWrittenIffNotAssigned` | termin_core/state/machine.py:268-285 | the write is sure to set the target state, whatever the expressions yield, exactly when no entered assignment names the state column |
| `StateMachine.GateHoldsAtWriteIff` | termin_core/state/machine.py:304-311 | for every evaluator, user, snapshot and store at the write: whenever the compare-and-set applies the gate still holds of the record written, exactly when the edge has neither a condition nor entered expressions |
| `StateMachine.GateOutrun` | termin_core/state/machine.py:304-311 | for every other edge an input: the gate holds of the snapshot, another task adds a column, the write applies and the gate no longer holds |
| `StateMachine.DoStateTransition` | termin_core/state/machine.py:130-383 | with anything done to the store between the read and the write: the final store, the result and the events published are those of read, gate and compare-and-set; a refused call writes and publishes nothing |
| `StateMachine.PublishAll` | termin_core/state/machine.py:368-381 | exited, entered and updated are published in that order, stamped |
| `EventLaws.NoEdgeRefuses` | termin_core/state/machine.py:130-168 | which error comes before any gate: no such table or machine, no such row, no declared edge from the state the row says it is in |
| `EventLaws.ScopeGateRefusesIff` | termin_core/state/machine.py:179-190 | a scope string is refused exactly for a caller without that scope, and the error names it |
| `EventLaws.FullGateRefuses` | termin_core/state/machine.py:192-302 | a full gate asks its condition and, only without one, its scope; which error each outcome is, down to an entered expression that raises |
| `EventLaws.LateWriteRefuses` | termin_core/state/machine.py:307-342 | a write that comes too late says the row is gone, or tells the state it finds |
| `EventLaws.SuccessAnnounces` | termin_core/state/machine.py:346-381 | the three events of a call that succeeds: channels and payloads, written out |
| `EventLaws.AnnouncedIff` | termin_core/state/machine.py:368-381 | an event goes on the exited channel of a state exactly when the call succeeds and the row it read was in it, on the entered channel exactly when it succeeds and that is its target, on the updated channel exactly when it succeeds |
| `EventLaws.PostsMatchMoves` | termin_core/state/machine.py:304-381 | at any moment of any run at which every caller is done: per column of each record, each state was announced as entered exactly as often as the column moved into it, and as exited as often as it moved out |
| `Protocol.StepKeepsInv` | termin_core/state/machine.py:139-383 | every step of any caller, delete, create or ordinary write keeps the protocol invariant |
| `Protocol.RunsKeepInv` | termin_core/state/machine.py:139-383 | the invariant holds at every moment of every interleaving |
| `Protocol.StateChangesAreGatedMoves` | termin_core/state/machine.py:139-311 | a state column changes only by a compare-and-set of a caller whose gate held of its snapshot, from the state it read to its target, along a declared edge of that machine |
| `Protocol.ScopeGatesHoldAtTheWrite` | termin_core/state/machine.py:304-311 | and on an edge without condition and entered expressions the gate holds of the very record that is moved, in every interleaving |
| `Protocol.PathConservesFlow` | termin_core/state/machine.py:304-311 | a path of moves enters each state as often as it leaves it, up to where it starts and ends |
| `Protocol.FlowIsConserved` | termin_core/state/machine.py:304-342 | per record life and state, at every moment of every run: (1 if initial) + applied moves in - applied moves out = (1 if the column is now there) |
| `Protocol.AtMostOneWinner` | termin_core/state/machine.py:304-342 | while nothing moves the record back into a state, at most one caller racing out of it wins |
| `Protocol.WriterWinsIff` | termin_core/state/machine.py:304-342 | a caller at its write wins exactly when the record is still there in the state it read, so the first of the racing callers does |
| `Protocol.SecondWinnerIff` | termin_core/state/machine.py:112-118 | of two callers that read one state, the second to write wins as well, nothing else having moved the record, exactly when the first took a declared loop back to that state |
| `Protocol.CallersPublishExactlyTheirMove` | termin_core/state/machine.py:313-383 | a caller has moved a record exactly when its write applied; only then has it published anything; when done it has published exactly its three events in order |
| `Protocol.SnapshotWasStored` | termin_core/state/machine.py:139-140 | the snapshot a gated or applied caller holds is the record that was stored under its key at an earlier moment of the run, while it was waiting |
| `Protocol.TransitionIsReadThenWrite` | termin_core/state/machine.py:140-383 | the single-call function and the interleaved steps agree: read in one state, write in any later one |
| `Protocol.WriteIsCompareAndSet` | termin_core/state/machine.py:307-344 | the write step leaves exactly the store, result and events owed that the conditional update reports |
| `Protocol.UpdateOnTheStore` | termin_core/providers/storage_contract.py:710-722 | an ordinary write puts its fields over the row it is for and touches no other row; the lemmas beside it say the same of create, delete and the steps that only read or publish |
| `Events.MatchingKeepsExactlyMatches` | termin_core/events.py:44-51 | a subscriber is owed exactly the events its prefix pattern matches |
| `Events.MatchingSplits` | termin_core/events.py:44-51 | what is owed over two stretches of history is what is owed over each, in order |
| `Events.MatchesIff` | termin_core/events.py:44-51 | a pattern matches exactly the non-empty channels that continue it |
| `Events.EventBus.Subscribe` | termin_core/events.py:28-32 | a fresh queue joins at the end and is owed events from now on; the log and the other queues stay |
| `Events.EventBus.Unsubscribe` | termin_core/events.py:34-35 | removes exactly the subscription of this queue and keeps the others up to date |
| `Events.EventBus.Publish` | termin_core/events.py:37-51 | appends one stamped event; the log stays the last 1000 published and every live queue has received exactly the matching events since it subscribed |
| `Events.EventBus.FanOut` | termin_core/events.py:44-51 | each subscription gets one copy exactly when its pattern is absent or a prefix of a non-empty channel |
| `Events.EventBus.GetEventLog` | termin_core/events.py:53-54 | the last min(1000, n) of the n events ever published |
| `Transactions.Transaction.Write` | termin_core/transaction.py:118-140 | refused with nothing changed when the transaction is over; otherwise journalled, and staging map and tombstones keep acting like the journal replayed |
| `Transactions.StagingFollowsJournal` | termin_core/transaction.py:130-140 | one staged write keeps "staging and tombstones act on any store like the journal" |
| `Transactions.Transaction.Read` | termin_core/transaction.py:142-161 | what the journal replayed over production holds at the key |
| `Transactions.Transaction.ReadAll` | termin_core/transaction.py:163-192 | lists the rows of that content type in the replayed store, each exactly once |
| `Transactions.ListingsAreUnique` | termin_core/transaction.py:163-192 | two listings of the same content type are equal as multisets, so the answer is fixed and the caller's order does not matter |
| `Transactions.Transaction.GetSnapshot` | termin_core/transaction.py:194-206 | groups by content type exactly what the journal alone would build |
| `Transactions.Transaction.Commit` | termin_core/transaction.py:208-225 | on success production is the journal replayed; a failure at k leaves exactly the first k entries applied and the transaction active |
| `Transactions.Transaction.Rollback` | termin_core/transaction.py:227-232 | forgets everything staged and ends the transaction; production is not in its frame |
| `Transactions.ReplaySplits` | termin_core/transaction.py:221-223 | replaying a journal is replaying its parts one after the other |
| `Transactions.ReplayDecidesItsKeys` | termin_core/transaction.py:221-223 | a journal decides the keys it writes whatever was there, and leaves the rest |
| `Transactions.ReplayAbsorbsPartial` | termin_core/transaction.py:221-223 | replaying over a partly applied journal gives what one replay gives |
| `Transactions.FailedCommitsAreAbsorbed` | termin_core/transaction.py:118-140 | after any number of failed commits and further staged writes, later replays see no difference |
| `Transactions.RetriedCommitIsOneReplay` | termin_core/transaction.py:208-225 | a commit that fails anywhere, any number of times, with more writes staged in between, ends in one successful replay |
| `Transactions.AbortIsAtomicIff` | termin_core/transaction.py:208-232 | a commit that failed at k and is then rolled back leaves production as it was exactly when each key of the first k writes already held what they left at it |
| `Transactions.AbortIsAlwaysAtomicIff` | termin_core/transaction.py:208-232 | and whatever production holds, exactly when it failed at the very first write |
| `Transactions.SummaryCommitsTheSame` | termin_core/transaction.py:135-140 | applying only the final staging map and tombstones, in any key order, gives the same store as the journal |
| `Classifier.WorstIsLeastUpperBound` | termin_core/providers/storage_contract.py:372-382 | the worst tier bounds every tier given, is one of them, and is safe for none |
| `Classifier.WorstOfSameElements` | termin_core/providers/storage_contract.py:372-382 | order and repetition of the tiers do not matter |
| `Classifier.DiffOneFieldMembers` | termin_core/migrations/classifier.py:307-385 | a field yields exactly one change for each of the seven attributes that differs |
| `Classifier.DiffFieldsMembers` | termin_core/migrations/classifier.py:279-304 | which changes are in a field diff: removed, added, and per-attribute changes of kept fields |
| `Classifier.DiffFieldsLoop` | termin_core/migrations/classifier.py:288-304 | the three loops in sorted order build the field diff |
| `Classifier.CompareContent` | termin_core/migrations/classifier.py:252-274 | a kept content yields one modified change with the worst tier of its field changes, or none |
| `Classifier.ComputeMigrationDiff` | termin_core/migrations/classifier.py:226-276 | the three content loops in sorted order build the diff; no current schema is an empty one |
| `TierLaws.DiffHoldsIff` | termin_core/migrations/classifier.py:230-274 | the diff holds exactly: a blocked removal per content only the old side has, a safe addition per content only the new side has, one modification per content whose fields differ |
| `TierLaws.DiffIsOrdered` | termin_core/migrations/classifier.py:232-250 | removals, additions, modifications, each in ascending order of the names |
| `TierLaws.FieldDiffIsOrdered` | termin_core/migrations/classifier.py:292-303 | the same for fields, and the changes of one field in the order its attributes are compared in |
| `TierLaws.LastFieldWins` | termin_core/migrations/classifier.py:288-289 | of two fields of one name the later counts |
| `TierLaws.TierOfModifiedIff` | termin_core/migrations/classifier.py:56-201 | the tier of a modified content read off its two schemas, each of the five by an exact condition: blocked when a field is lost, an added one is a reference, a type change loses values or a reference is added or redirected, and so on down to safe; never low |
| `TierLaws.RenamedTier` | termin_core/migrations/classifier.py:81-92 | a renamed field is low unless it says its type changed; then medium exactly when nothing is lost, else high |
| `Widening.TighteningIsRejection` | termin_core/migrations/classifier.py:341-345 | the tightening flag says "some accepted number is now rejected" for every new field exactly when the old interval is not empty |
| `Widening.BelowHighExactlyWhenLoosening` | termin_core/migrations/classifier.py:56-147 | a modified change is below high exactly when no field is lost, no added field carries a foreign key and every kept field only loosens |
| `Widening.BelowHighKeepsNumbers` | termin_core/validation/dependents.py:125-147 | below high every number the old bounds accepted is accepted by the new ones |
| `Widening.BelowHighKeepsEnumIff` | termin_core/validation/dependents.py:110-122 | below high every value the old enum check accepted stays accepted exactly when the field had an enum or has none |
| `Widening.WideningIsSound` | termin_core/migrations/classifier.py:178-201 | with enum values exactly on enum fields: below high no stored value is rejected, no rule was added, and a type change is lossless |
| `Widening.FirstEnumIsOnlyMedium` | termin_core/migrations/classifier.py:120-125 | a field gaining its first enum list is medium and yet rejects a value it used to accept |
| `RoundTrip.FieldDiffRoundTrips` | termin_core/migrations/classifier.py:279-385 | applying a field diff to the old fields yields the new ones on the seven attributes |
| `RoundTrip.EmptyFieldDiffIff` | termin_core/migrations/classifier.py:279-385 | the field diff is empty exactly when the names and the seven attributes, enum order included, agree |
| `RoundTrip.DiffRoundTrips` | termin_core/migrations/classifier.py:207-276 | applying the whole diff to the current schemas yields the target |
| `RoundTrip.EmptyDiffIff` | termin_core/migrations/classifier.py:207-276 | the diff is empty exactly when content names, field names and the seven attributes, enum order included, agree |
| `Renames.ValidateContentRenames` | termin_core/migrations/classifier.py:436-464 | accepts exactly: distinct non-empty ends, no repeated source or target, no chain |
| `Renames.ValidateFieldRenames` | termin_core/migrations/classifier.py:466-489 | accepts exactly: non-empty content and distinct ends, per content no repeated source or target |
| `Renames.ApplyRenameMappings` | termin_core/migrations/classifier.py:415-429 | a bad mapping is refused first; otherwise the content folds and then the field folds |
| `Renames.OneContentRename` | termin_core/migrations/classifier.py:492-523 | a content fold succeeds exactly when the pair is there, replaces it by one low rename, and conserves the rest |
| `Renames.ContentRenamesExact` | termin_core/migrations/classifier.py:421-423 | all content folds: success exactly when every pair is in the original diff, and the closed form of the result |
| `Renames.ContentRenamesCommute` | termin_core/migrations/classifier.py:421-423 | permuting the content mappings gives the same multiset |
| `Renames.OneFieldRename` | termin_core/migrations/classifier.py:552-593 | a field fold succeeds exactly when the pair is there, replaces it by one rename, conserves the rest |
| `Renames.FieldRenamesExact` | termin_core/migrations/classifier.py:425-427 | all field folds: success exactly when every pair is in the original diff, and the closed form of every content |
| `RenameLaws.FoldingSucceedsIff` | termin_core/migrations/classifier.py:415-429 | on a computed diff with valid mappings folding succeeds exactly when every mapping names a removed/added pair of the original diff |
| `RenameLaws.FieldRenameOfRenamedContentFails` | termin_core/migrations/classifier.py:419-427 | a field mapping inside a renamed content is always refused |
| `RenameLaws.FieldRenamesCommute` | termin_core/migrations/classifier.py:425-427 | permuting the field mappings gives, content by content, the same changes and tier |
| `RenameLaws.FoldingIsOrderFree` | termin_core/migrations/classifier.py:391-429 | permuting both kinds of mappings: same success, same changes, same tiers |
| `RenameLaws.FoldingNeverWorsens` | termin_core/migrations/classifier.py:602-608 | folding never raises a content's tier |
| `RenameLaws.ContentRenameStandsLast` | termin_core/migrations/classifier.py:498-523 | a content fold takes out the first removal and the first addition of its names, keeps the order of the rest, and puts the rename at the end |
| `RenameLaws.FieldRenameStandsLast` | termin_core/migrations/classifier.py:583-593 | a field fold does the same in the list of field changes |
| `RenameLaws.FieldRenameStaysInPlace` | termin_core/migrations/classifier.py:594-611 | it happens in the first modification of its content, which keeps its place and schema and is classified anew |
| `FoldSoundness.RenameHidesTypeChange` | termin_core/migrations/classifier.py:573-579 | every folded rename of a computed diff says the type did not change and is low; that is the tier the two types deserve exactly when they are the same |
| `FoldSoundness.StaysValidIff` | termin_core/migrations/classifier.py:56-147 | rows valid under one column stay valid under another exactly when type, rules, bounds and enum list loosen |
| `FoldSoundness.BelowHighFoldIsSoundIff` | termin_core/migrations/classifier.py:391-429 | a diff folded to nothing above medium keeps every stored row valid exactly when every renamed field and every renamed content loosens, no kept column gains a first enum list, and every column the rows have no value for is optional or has a default |
| `FoldSoundness.BelowHighFoldAddsNoReferenceIff` | termin_core/migrations/classifier.py:168-168 | the same diff adds no foreign key to a table with rows exactly when no renamed content does: the rule that blocks one is not applied there |
| `FoldSoundness.AnySingleFieldRenameIsLow` | termin_core/migrations/classifier.py:552-593 | renaming the only field folds to low whatever the two specs are; stored data stays valid exactly when the new one loosens |
| `FoldSoundness.LowFoldThatBreaksData` | termin_core/migrations/classifier.py:552-593 | an input: a free number column renamed onto a required, unique one with a minimum, low and unsound |
| `FoldSoundness.UnfillableFieldIsMedium` | termin_core/migrations/classifier.py:153-173 | a kept content that gains any required field without a default is medium, and its rows are not valid |
| `FoldSoundness.AnyContentRenameIsLow` | termin_core/migrations/classifier.py:517-522 | a content rename folds to low whatever the two schemas are; stored data stays valid exactly when every old field loosens and every new one can be filled, and no reference is added exactly when none of the new ones is one |
| `FoldSoundness.LowFoldHidesABlockedField` | termin_core/migrations/classifier.py:517-522 | an input: the new content has a further required, unique foreign key; all is low, though added to a kept content the field would be blocked |
| `Acks.DowngradeForEmptyTables` | termin_core/migrations/classifier.py:648-695 | the pass maps every change as specified, given which tables are empty |
| `Acks.DowngradeOnlyLowers` | termin_core/migrations/classifier.py:637-734 | no tier is raised and no change that was not safe becomes safe |
| `Acks.DowngradeIsIdempotent` | termin_core/migrations/classifier.py:637-734 | a second pass changes nothing |
| `AckLaws.DowngradeSparesTheRest` | termin_core/migrations/classifier.py:648-669 | every change of a table that is not empty, and every addition and rename, comes back as it went in, in its place |
| `AckLaws.RemovedEmptyTableIsLow` | termin_core/migrations/classifier.py:656-664 | a blocked removal of an empty table becomes low |
| `AckLaws.ModifiedEmptyTableIff` | termin_core/migrations/classifier.py:718-734 | a modification of an empty table keeps all but its tier, which is the highest of the changes that also count there, and low where only harmless ones are left |
| `AckLaws.TierOfEmptyTableIff` | termin_core/migrations/classifier.py:718-734 | the same read off the two schemas, each tier by an exact condition |
| `AckLaws.StillBlockedIff` | termin_core/migrations/classifier.py:637-734 | what is blocked after the pass over a computed diff: exactly the removal of a table with rows, a modification of one that is blocked, and for an empty table an added reference, a type change that loses values, or a reference added or redirected |
| `AckLaws.GateOpensIff` | termin_core/migrations/ack.py:148-224 | for any diff the gate opens exactly when every low, medium or high change, of a modification each field change by its own tier, is accepted by fingerprint, or is low with both flags set |
| `AckLaws.RequiredIff` | termin_core/migrations/ack.py:125-145 | what the collector lists |
| `Acks.MissingAcks` | termin_core/migrations/ack.py:194-224 | the loop collects, as a multiset, the uncovered fingerprints, sorted |
| `Acks.AckCovers` | termin_core/migrations/ack.py:185-185 | the gate opens exactly when nothing is missing |
| `Acks.AckCoversIffEverythingCovered` | termin_core/migrations/ack.py:161-185 | on a classified diff without blocked changes the gate opens exactly when each low, medium or high change is accepted, or is low with both flags |
| `Acks.MissingIsTheLeastAcceptance` | termin_core/migrations/ack.py:188-224 | for any diff the gate opens exactly for the configurations that accept at least what is missing with nothing accepted |
| `Acks.GateAsksForEverythingRequiredIff` | termin_core/migrations/ack.py:125-145 | the gate asks for all that is listed as required exactly when no listed field change is safe or blocked on its own |
| `Acks.DroppedFieldOfEmptyTableNeedsNoAck` | termin_core/migrations/ack.py:209-215 | dropping a field of an empty table is low and yet asks for no acknowledgement at all |
| `PredicateCompiler.ExtractFieldName` | termin_core/expression/predicate.py:254-304 | the loop drills down to the field the specification names, or fails as it says |
| `PredicateCompiler.ExtractLiteralValue` | termin_core/expression/predicate.py:307-345 | the loop drills down to the literal, or fails |
| `PredicateCompiler.ExtractListLiteral` | termin_core/expression/predicate.py:348-370 | the loop drills down to the list of literals, or fails |
| `TokenLaws.StripIs` | termin_core/expression/predicate.py:376-376 | blanks, tabs, line ends and the four separators go from both ends and from nowhere else |
| `TokenLaws.JsonEscapeIs` | termin_core/expression/predicate.py:387-390 | each short escape of JSON stands for its character; any other letter is refused |
| `TokenLaws.JsonUnicodeIs` | termin_core/expression/predicate.py:387-390 | four hexadecimal digits stand for the character of that number, but for half a surrogate pair |
| `TokenLaws.WordsAre` | termin_core/expression/predicate.py:377-382 | the six words that are constants and their values, as tokens and as bare names; no other bare name is a value |
| `TokenLaws.TokenIs` | termin_core/expression/predicate.py:383-399 | every other token: the inside of its quotes, decoded if they are double and JSON accepts it, else a signed decimal number, else, unless Python might read a number, itself |
| `LiteralLaws.JsonReadsAsCelIff` | termin_core/expression/predicate.py:383-390 | between double quotes JSON reads what CEL reads exactly when the text has no control character and only escapes both languages share; otherwise it refuses |
| `LiteralLaws.PlainLiteralsAgree` | termin_core/expression/predicate.py:373-399 | decimal integers, booleans, null, strings without escapes, and double-quoted strings with shared escapes are read with their CEL value |
| `PredicateMeaning.FieldMeaning` | termin_core/expression/predicate.py:254-304 | an extracted field is what the subtree evaluates to on every record, and is known |
| `PredicateMeaning.LiteralValueMeaning` | termin_core/expression/predicate.py:307-345 | an extracted literal is the value of the subtree |
| `PredicateMeaning.ListMeaning` | termin_core/expression/predicate.py:348-370 | an extracted list is the value of the subtree |
| `PredicateMeaning.MeaningIsPreserved` | termin_core/expression/predicate.py:96-251 | for every well-formed tree that compiles, conditionals anywhere, the predicate means on every record what the tree means without the branches of its conditionals; that is the tree itself when none stands where the walker goes |
| `PredicateMeaning.ErasedCompilesAlike` | termin_core/expression/predicate.py:101-102 | dropping the branches of every conditional where the walker goes never changes what a tree compiles to |
| `PredicateMeaning.StraightIffErased` | termin_core/expression/predicate.py:101-102 | a well-formed tree has nothing to drop exactly when no conditional stands where the walker goes |
| `PredicateMeaning.ConditionalOperandsAreRefused` | termin_core/expression/predicate.py:254-370 | in an operand a conditional is refused: no field, literal or list is extracted from it |
| `PredicateMeaning.OnlyKnownFields` | termin_core/expression/predicate.py:270-289 | every field of a compiled predicate is in the given field names |
| `RefusalLaws.CompilesOrRefuses` | termin_core/expression/predicate.py:70-94 | a well-formed tree compiles or is refused with the exception of the compiler; no such tree crashes it |
| `RefusalLaws.LiteralsInOrder` | termin_core/expression/predicate.py:360-361 | of the children of a list only the expressions count, in order, and the first that fails decides |
| `LiteralLaws.LiteralsReadRightIff` | termin_core/expression/predicate.py:373-399 | of all CEL literals that are integers (signed, unsigned, hexadecimal), booleans, null or strings (quoted, triple-quoted, raw, with any escape) exactly the plain ones are read right; the rest become some other text |
| `PredicateMeaning.TernaryReadsRightIff` | termin_core/expression/predicate.py:39-102 | a conditional expression compiles to its condition; it is read right for every choice of branches exactly when it is refused, that is, when its condition does not compile |
| `PredicateMeaning.TernaryIsReadAsItsNegation` | termin_core/expression/predicate.py:101-102 | for every condition c that compiles, c ? false : true is accepted and read as its own negation |
| `PredicatePrinting.PythonConstantsAreMisread` | termin_core/expression/predicate.py:323-332 | a comparison of any kind with a bare name on the right compiles exactly when the name is None, True or False, and then means something else |
| `PredicatePrinting.PrintedValueReadsBack` | termin_core/expression/predicate.py:373-399 | every integer, boolean, null and string, any characters included, survives printing and parsing |
| `PredicatePrinting.PrintCompilesBack` | termin_core/expression/predicate.py:96-251 | a printed predicate compiles to exactly itself when its fields are known and is refused otherwise |
| `PredicatePrinting.CompiledIsPrintable` | termin_core/expression/predicate.py:96-251 | whatever a well-formed tree compiles to can be printed |
| `PredicatePrinting.CompilableIffPrintable` | termin_core/expression/predicate.py:96-251 | the predicates some well-formed tree compiles to are exactly the printable ones over known fields |
| `PredicatePrinting.PrintingNormalises` | termin_core/expression/predicate.py:96-251 | compile, print, compile again: same predicate, and the same meaning on every record, branches of conditionals apart |
| `PredicatePrinting.ContainsIsCaseBlind` | termin_core/expression/predicate.py:236-239 | a call compiles whatever the case and blanks around contains, and means something exactly when it is spelled so |
| `Materialize.BuildContentBlocks` | termin_core/compute/materialize.py:148-201 | the blocks of one entry, attachments included |
| `Materialize.AttachmentBlocksExact` | termin_core/compute/materialize.py:184-199 | the attachment blocks are exactly the images and PDF documents among the attachments |
| `Materialize.FirstPass` | termin_core/compute/materialize.py:236-243 | the ids some tool_result refers to |
| `Materialize.MaterializeToAnthropic` | termin_core/compute/materialize.py:228-284 | raises exactly when some tool_result has an empty id or no strictly earlier tool_call with its id; otherwise the merge of the kept entries |
| `MaterializeLaws.MessagesSayExactlyTheKept` | termin_core/compute/materialize.py:245-284 | the messages alternate, none is empty, and block by block they say the kept entries in order |
| `MaterializeLaws.MaterialisationIsTheOnlyAlternation` | termin_core/compute/materialize.py:224-226 | a message list is the result exactly when it alternates, has no empty message and says the kept entries |
| `TurnLaws.MessagesByKind` | termin_core/compute/materialize.py:124-201 | kind by kind: the result is the one alternating list that says, in order, a tool use of the assistant for each answered call, a tool result of the user for each result, the text of agent and assistant entries as the assistant and of all others as the user, the source in front exactly on system events, attachments behind a user's text |
| `TurnLaws.BlocksInTheirRole` | termin_core/compute/materialize.py:148-201 | every tool_use stands in an assistant message, every tool_result, image and document in a user message |
| `TurnLaws.AttachmentsInOrder` | termin_core/compute/materialize.py:184-199 | attachments are shown one by one, in order: images, PDF documents, nothing else |
| `TurnLaws.RefusedIff` | termin_core/compute/materialize.py:264-271 | a conversation is refused exactly when some result has no id, or no call before it with its id |
| `MaterializeLaws.EveryResultIsAsked` | termin_core/compute/materialize.py:264-271 | on success every tool_result is preceded by a tool_use of its id |
| `MaterializeLaws.EveryUseIsAnsweredIff` | termin_core/compute/materialize.py:257-263 | on success every tool_use is answered exactly when calls carry an id and none comes after the last result that uses its id |
| `MaterializeLaws.DistinctIdsAreAnswerable` | termin_core/compute/materialize.py:216-222 | non-empty pairwise distinct call ids are enough |
| `MaterializeLaws.RepeatedIdGoesUnanswered` | termin_core/compute/materialize.py:257-263 | call, result, call with one id: the last call goes out with no result |
| `MaterializeLaws.AppendIsOnePush` | termin_core/compute/materialize.py:248-284 | appending anything but a tool_result is one merge, one new message, or nothing |
| `MaterializeLaws.ResultIsOnePushIff` | termin_core/compute/materialize.py:236-263 | appending a tool_result is one push exactly when its id was answered before |
| `Redaction.EffectiveScopes` | termin_core/confidentiality/redaction.py:36-45 | the union of content and field scopes |
| `Redaction.RedactRecord` | termin_core/confidentiality/redaction.py:95-127 | the two loops build the specified map: markers for hidden keys, present or absent, and everything else unchanged |
| `Redaction.AbsentFields` | termin_core/confidentiality/redaction.py:113-127 | the second loop alone: markers for the hidden declared fields the record does not have |
| `Redaction.RedactRecords` | termin_core/confidentiality/redaction.py:130-132 | record by record |
| `Redaction.CheckWriteAccess` | termin_core/confidentiality/redaction.py:140-154 | passes exactly when no key of the payload is hidden; otherwise names a hidden key |
| `Redaction.CheckTaintIntegrity` | termin_core/confidentiality/redaction.py:175-194 | passes exactly when no record holds an unredacted value under a hidden key |
| `VisibilityLaws.HiddenIff` | termin_core/confidentiality/redaction.py:99-107 | a key is hidden exactly when the caller lacks a scope of the content or of the last field declared under it |
| `VisibilityLaws.RedactedRecordIs` | termin_core/confidentiality/redaction.py:95-127 | the redacted record key by key: markers written out with the first missing scope in sorted order, visible values as they are, absent keys padded exactly where a field of that name is hidden |
| `VisibilityLaws.GuardFindsIff` | termin_core/confidentiality/redaction.py:221-240 | the guard finds a marker exactly when some path into the value, through dictionaries and lists, ends at a dictionary whose __redacted entry is truthy |
| `RedactionLaws.HiddenFieldsDoNotInterfere` | termin_core/confidentiality/redaction.py:65-127 | records that agree, in presence and value, on what is not hidden redact to equal maps |
| `RedactionLaws.VisibleFieldsAreTold` | termin_core/confidentiality/redaction.py:99-127 | and conversely: equal redactions come only from such records |
| `RedactionLaws.RedactingTwiceIsRedactingOnce` | termin_core/confidentiality/redaction.py:65-127 | redacting for S1 and then for a subset S2 is redacting for S2 |
| `RedactionLaws.RedactedDataIsUntainted` | termin_core/confidentiality/redaction.py:175-194 | redacted data passes the taint check for the same scopes |
| `RedactionLaws.HiddenFieldsAreMarked` | termin_core/confidentiality/redaction.py:48-62 | a hidden declared field is there, marked, and the marker names a required scope the caller lacks |
| `RedactionLaws.WritableIffLeftVisible` | termin_core/confidentiality/redaction.py:140-154 | a payload without markers may be written exactly when redaction leaves its keys as they are |
| `RedactionLaws.GuardTripsIff` | termin_core/confidentiality/redaction.py:221-240 | the guard trips on a redacted record exactly when some declared field is hidden, or a visible value brought its own marker |
| `Channels.SplitRoundTrip` | termin_core/routing/channel_dispatch.py:75-75 | splitting at dots loses nothing and leaves no dot |
| `Channels.ParsersAgree` | termin_core/routing/connection_manager.py:76-89 | the registry's channel parser and the session loop's agree on every string |
| `Channels.FilterOwnedRows` | termin_core/routing/connection_manager.py:55-73 | the filter passes unowned content, nothing for the empty id, and otherwise the rows of the user |
| `Channels.OwnedByKeepsExactlyTheOwned` | termin_core/routing/connection_manager.py:73-73 | exactly the user's rows come through, each as often as it was there |
| `Connections.ConnectionManager.Connect` | termin_core/routing/connection_manager.py:130-140 | a fresh connection without subscriptions; its first frame is the identity |
| `Connections.ConnectionManager.Disconnect` | termin_core/routing/connection_manager.py:142-144 | forgets exactly this connection; unknown ids are no-ops |
| `Connections.ConnectionManager.AddSubscription` | termin_core/routing/connection_manager.py:146-148 | adds one pattern to a known connection |
| `Connections.ConnectionManager.RemoveSubscription` | termin_core/routing/connection_manager.py:150-152 | removes one pattern from a known connection |
| `Connections.ConnectionManager.MatchAndGate` | termin_core/routing/connection_manager.py:202-205 | in whatever order patterns are tried: a hit exactly when one is a prefix and the owner gate passes |
| `Connections.ConnectionManager.BroadcastToSubscribers` | termin_core/routing/connection_manager.py:182-222 | every receiving connection gets exactly one frame; exactly those whose send failed are dropped; nobody else changes |
| `Connections.ConnectionManager.LoadInitialRows` | termin_core/routing/channel_dispatch.py:81-94 | the stored rows through the ownership filter, or the storage error |
| `Connections.ConnectionManager.HandleFrame` | termin_core/routing/channel_dispatch.py:120-167 | what one inbound frame does to the registry and what is answered |
| `Connections.ConnectionManager.DispatchSession` | termin_core/routing/channel_dispatch.py:97-167 | a session is its connect and its frames, one after the other |
| `DeliveryLaws.ContentNameIff` | termin_core/routing/channel_dispatch.py:70-78 | the content of a channel is what stands between "content." and the next dot or the end |
| `DeliveryLaws.ReceivesIff` | termin_core/routing/connection_manager.py:168-205 | a connection receives exactly what one of its subscriptions is a beginning of and what, on a channel of an owned content, carries its id in the owner column |
| `DeliveryLaws.BroadcastReaches` | termin_core/routing/connection_manager.py:200-222 | a broadcast pushes one frame, its body written out, to exactly those, drops exactly the ones whose send fails, and leaves every other connection alone |
| `DeliveryLaws.AnswersByFrame` | termin_core/routing/channel_dispatch.py:126-167 | the answer to each kind of frame: confirmation, rows of the content the user may see, loading error, or nothing |
| `DeliveryLaws.OwnedInOrder` | termin_core/routing/connection_manager.py:73-73 | the user's rows keep their order |
| `DeliveryLaws.ReceiveConcernsOne` | termin_core/routing/channel_dispatch.py:120-167 | a frame changes the subscriptions and the log of its own connection only, by exactly the channel it names and its answer |
| `ConnectionLaws.StepIsSafe` | termin_core/routing/connection_manager.py:154-222 | every step keeps the safety of all frames sent |
| `ConnectionLaws.RunsAreSafe` | termin_core/routing/connection_manager.py:154-222 | over any run every pushed or loaded row of owned content carries the receiver's principal id |
| `ConnectionLaws.RunsAreSeenLocally` | termin_core/routing/connection_manager.py:182-222 | what one connection is sent depends only on its own frames, the broadcasts and its own failed sends |
| `ConnectionLaws.SessionIsARun` | termin_core/routing/channel_dispatch.py:120-167 | a session alone is a run of the registry |
| `ConnectionLaws.AnonymousReceivesIffOwnerIsEmpty` | termin_core/routing/connection_manager.py:168-180 | loading shows an anonymous user no owned row; a broadcast reaches it exactly when the owner value is the empty string |
| `Bindings.MergeNamedMap` | termin_core/providers/binding.py:112-133 | keys of both sides; where both have one, the leaf's provider and the overlaid config |
| `Bindings.Merge` | termin_core/providers/binding.py:71-109 | the pairwise merge, category by category |
| `Bindings.ResolveEffectiveBindings` | termin_core/providers/binding.py:41-65 | empty chain and mixed versions are refused, otherwise the fold of the chain |
| `Bindings.LeafWins` | termin_core/providers/binding.py:136-145 | at every path the merge has the leaf's setting if there is one, else the parent's |
| `Bindings.LastConfigWins` | termin_core/providers/binding.py:55-58 | every provider and every config key under every name is what the last config that sets it says |
| `Bindings.SameSettingsSameConfig` | termin_core/providers/binding.py:71-85 | a config is determined by its settings |
| `Bindings.MergeIsAssociative` | termin_core/providers/binding.py:71-85 | the pairwise merge is associative |
| `Bindings.FoldSplits` | termin_core/providers/binding.py:55-58 | the fold of a concatenated chain is the merge of the folds |
| `Bindings.ResolutionSplits` | termin_core/providers/binding.py:41-65 | resolving a concatenated chain is merging the two resolutions, and fails exactly when a part fails or the versions differ |
| `Crud.CreateContent` | termin_core/routing/crud.py:345-406 | the create handler: gate, owner stamp, defaults, validation, strip, insert; success stores exactly the answer under the new key, failure nothing |
| `Crud.UpdateContent` | termin_core/routing/crud.py:475-572 | the update handler as one step, with the transition events it puts on the bus |
| `Crud.MoveTouched` | termin_core/routing/crud.py:519-533 | the loop over the touched machines stops at the first failure; what was announced before stays announced |
| `Crud.WriteBack` | termin_core/routing/crud.py:537-572 | validation of the merged view, then the write or the read-back: success stores row plus body and answers it, failure changes nothing |
| `Crud.DeleteContent` | termin_core/routing/crud.py:607-663 | succeeds exactly when the addressed row is there, is not somebody else's and storage lets it go; then exactly that row and those its foreign keys cascade to are gone, otherwise nothing |
| `Crud.TransitionContent` | termin_core/routing/crud.py:691-726 | the transition handler with its fallback to the first machine: success stores the answer in the addressed row and announces it, failure changes nothing |
| `HandlerLaws.CreateAnswers` | termin_core/routing/crud.py:345-406 | what a create answers and stores for every hook, told from the body without naming the steps: denied, refused, or the row |
| `HandlerLaws.CreatedRowHoldsTheBody` | termin_core/validation/dependents.py:150-186 | after a create a known field that is no state or owner column and that the dependent values leave alone holds the value sent, or its default if none was sent, or is absent |
| `HandlerLaws.CreatedRowHasNoOtherKey` | termin_core/validation/dependents.py:182-186 | a created row has no key but known fields and state columns |
| `HandlerLaws.ReadAnswers` | termin_core/routing/crud.py:267-291 | a read answers the addressed row unless the filter makes it somebody else's |
| `HandlerLaws.UpdateRefuses` | termin_core/routing/crud.py:484-509 | an update that may not write a field is denied, one of somebody else's row is told there is none; neither announces anything |
| `HandlerLaws.UpdateAnswers` | termin_core/routing/crud.py:500-576 | an update of a row that is there: the body without the owner column moves the machines it names in order; then the rest is validated over the row as it was read and written over the row as it is; every error |
| `HandlerLaws.UpdateOfNothingAnswers` | termin_core/routing/crud.py:537-572 | an update of a row that is not there moves nothing and is validated alone |
| `HandlerLaws.TouchedInOrder` | termin_core/routing/crud.py:518-519 | the machines touched are those the body names, in the order of the table |
| `HandlerLaws.OneMoveIs` | termin_core/routing/crud.py:523-533 | one touched machine: nothing, a conflict, or one transition with its events |
| `HandlerLaws.ChainRunsInOrder` | termin_core/routing/crud.py:523-533 | a chain is its front and then, if that did not fail, its back |
| `HandlerLaws.ChainAnnouncesInOrder` | termin_core/routing/crud.py:523-533 | and it announces what they do, in that order |
| `HandlerLaws.DeleteAnswers` | termin_core/routing/crud.py:607-663 | what a delete answers and takes, with every error |
| `HandlerLaws.MoveAnswers` | termin_core/routing/crud.py:697-726 | a transition request is one transition of the addressed row, of the machine it names or else the first, with every error |
| `CrudLaws.CreateStartsInitial` | termin_core/routing/crud.py:361-387 | a created row starts in the initial state of every machine and is owned by its creator |
| `CrudLaws.TransitionMovesOneColumn` | termin_core/state/machine.py:268-311 | run alone, a transition moves at most its own column of its own row, along a declared edge; beside it only fields assigned on entry may differ |
| `CrudLaws.MoveMovesOneColumn` | termin_core/routing/crud.py:523-533 | the same for one machine a PUT touches |
| `CrudLaws.ChainMovesEachColumnOnce` | termin_core/routing/crud.py:523-533 | a PUT moves each touched machine at most once, along a declared edge; every field that is neither such a column nor assigned on entry stays as it was |
| `UpdateLaws.ChainStopsAt` | termin_core/routing/crud.py:523-533 | where the chain stops: all before moved, the failing one changed nothing |
| `UpdateLaws.FailedUpdateKeepsEarlierMoves` | termin_core/routing/crud.py:515-572 | an update that fails leaves exactly the moves before the failing machine, or all of them when only the later validation or write fails |
| `CrudLaws.UpdateMovesEachColumnOnce` | termin_core/routing/crud.py:515-548 | an update never writes a state or owner column outside a declared edge |
| `UpdateLaws.ChainReachesTargets` | termin_core/routing/crud.py:523-533 | when no transition fails every touched machine is in the state the body asked for |
| `UpdateLaws.SuccessfulUpdateWritesTheBody` | termin_core/routing/crud.py:515-576 | after a successful update every field of the body, state columns included, holds the value asked for and the answer is the stored row |
| `UpdateLaws.SuccessfulUpdateKeepsTheRest` | termin_core/routing/crud.py:515-576 | and every field that is neither in the body nor assigned on entry is as it was |
| `UpdateLaws.FirstAskIsFirst` | termin_core/routing/crud.py:523-527 | the first touched machine whose asked value differs from the one read |
| `UpdateLaws.ChainChangesIff` | termin_core/routing/crud.py:523-533 | a chain changes the row exactly when the first machine that is asked for a new state may move |
| `UpdateLaws.MoveRefusedIff` | termin_core/routing/crud.py:523-533 | on the row that was read, a machine asked for another state is refused exactly when no declared edge leads there whose gate holds of that row |
| `UpdateLaws.FailedUpdateLeavesNoTraceIff` | termin_core/routing/crud.py:515-572 | a PUT that fails past the access checks leaves the store unchanged exactly when no machine is asked for a new state, or the first that is has no declared edge there whose gate holds of the row read |
| `UpdateLaws.RefusedBodyLeavesTheMove` | termin_core/routing/crud.py:519-543 | an input: an open row is moved to done, then validation refuses the body |
| `UpdateLaws.FailedUpdateAnnouncesIff` | termin_core/routing/crud.py:528-533 | a PUT that fails past the access checks has put transition events on the bus exactly when it has changed the store |
| `AcceptanceLaws.MoveEnters` | termin_core/routing/crud.py:523-533 | one move leaves in each field it enters what the last expression for it yields on the row before, and every other field but its column alone |
| `AcceptanceLaws.ChainEnters` | termin_core/routing/crud.py:523-533 | after a chain that succeeds a field holds what the last entered expression for it yielded on the row as it then was, or what it held before |
| `AcceptanceLaws.UpdateKeepsRowAcceptedIff` | termin_core/routing/crud.py:475-572 | a row the enum and bound validators accepted stays accepted by an update, which never runs them, exactly when they accept the body and, elsewhere, what the last expression the asked edges enter for a field yields on the row as the moves before leave it |
| `AcceptanceLaws.CreatedRowAcceptedIff` | termin_core/routing/crud.py:375-383 | a created row is accepted exactly when its initial states are and every known field the dependent values filled in after the validators ran is |
| `AcceptanceLaws.CreateStoresARefusedNumber` | termin_core/routing/crud.py:375-383 | an input: a number below the declared minimum is filled in and stored |
| `AcceptanceLaws.UpdateStoresARefusedNumber` | termin_core/routing/crud.py:537-572 | an input: a number below the declared minimum is stored |
| `CrudLaws.DeleteTakesIff` | termin_core/routing/crud.py:579-663 | a row is gone after a delete exactly when the delete goes through and addresses it or cascades to it |
| `CrudLaws.HandlersFollowEdges` | termin_core/routing/crud.py:306-726 | every handler, on every row: a row appears only by its own create, in initial states; disappears only by a delete that goes through and addresses it or cascades to it; changes only by the update or transition that addresses it, machine columns along declared edges |
| `CrudLaws.StepKeepsStatesReachable` | termin_core/routing/crud.py:306-726 | every handler keeps "each state column is reachable from its initial state" |
| `OwnershipLaws.StepKeepsOwners` | termin_core/routing/crud.py:367-371 | every handler keeps "each owner column is the creator's id" |
| `OwnershipLaws.RunsKeepStatesAndOwners` | termin_core/routing/crud.py:306-726 | over any run from an empty store both hold |
| `OwnershipLaws.MoveChangesIff` | termin_core/routing/crud.py:691-726 | a transition request changes its row exactly when an edge from the row's state to the target is declared, its gate holds, and taking it leaves the state or changes an entered field; other rows never change |
| `OwnershipLaws.StrangerChangesRowIff` | termin_core/routing/crud.py:484-726 | under an ownership filter another principal's request about an existing row changes the store exactly when it is a transition that goes through; its update or delete fails |
| `OwnershipLaws.StrangerFinishesATask` | termin_core/routing/crud.py:691-726 | an input: Bob finishes a row Ann owns |
| `OwnershipLaws.OwnedRowsChangeByRight` | termin_core/routing/crud.py:306-726 | whatever the call, an owned row disappears only by its creator's delete or by the cascade of a delete that goes through elsewhere, and changes only by its creator's update or by a transition that goes through |
| `OwnershipLaws.StrangerDeletesRowIff` | termin_core/routing/crud.py:590-663 | somebody else deletes an owned row exactly by a delete that addresses another row, is let through there, and cascades to this one |
| `OwnershipLaws.StrangerCascadesToATask` | termin_core/routing/crud.py:590-596 | an input: Bob deletes an unowned project, and the row Ann owns goes with it |
| `OwnershipLaws.RunsChangeOwnedRowsByRight` | termin_core/routing/crud.py:306-726 | the same for every call of every run from an empty store |
| `OwnershipLaws.OwnersPassTheFilter` | termin_core/routing/crud.py:503-512 | for the owner the filter only drops the owner column from the body |
| `OwnershipLaws.ListedIff` | termin_core/routing/crud.py:159-173 | a row is listed exactly when it meets every filter of the request and, unless the caller's id is empty, is the caller's own |
| `OwnershipLaws.ListedIsReadableIff` | termin_core/routing/crud.py:163-167 | whatever is stored and asked for, a user is listed only rows the read handler would show, exactly when there is no ownership filter or the user's id is not empty |
| `OwnershipLaws.AnonymousListsAnOwnedRow` | termin_core/routing/crud.py:163-167 | an input: the row Ann owns is listed to a user without an id, who may not read it |

## Left out

- HTTP and WebSocket transport, retries, form parsing, response shapes, log text and error wording: only the kind of error and what was written or published.
- celpy, JSON, clocks, uuid, SHA-256: a fingerprint, an evaluation or an id is a parameter. Connection ids are taken to be unused.
- Markdown sanitising, presentation, colour arithmetic, SQLite introspection, deploy-file loading, registries, schedules, IR dataclasses: easy members, or code over libraries that are not part of this model.
- Compute access checks and output taint, tool-schema builders, purpose truncation, append-to-field, dependent-value rules themselves: they would only add easy members.
- `Protocol` publishes are single steps; a crash between the write and the publishes is not modelled.
- `Crud` handlers are atomic steps, so the read-then-update race inside a PUT is not visible; interleaving is the subject of `Protocol`. Host hooks (boundary check, write access, defaults, validators, lookup by column, storage errors) are arbitrary functions; the laws assume what `WellConfigured` says, in particular that defaults and dependent values never name a state or owner column, that a machine's name is its column, and that the state-column gate is installed. Which rows a delete cascades to is one of them.
- Records leave out their primary key: it is part of the storage key.
- `Transactions.Transaction.ReadAll` takes the production rows as a listing by id; rows whose `id` column differs from their key are not modelled.
- `Classifier`: bounds are reals, and the current and target schemas are read by name, so a repeated name means the last one, as in the code; the business types are those of the lossless table plus one for the rest.
- `Renames`: a mapping entry always has its keys; a missing key is an empty string.
- `Acks`: whether a table is empty is a function of its name that does not change during the pass.
- StateMachine.DoStateTransition: between the read and the write others may change the store only; what they publish meanwhile is the subject of `Protocol.CallersPublishExactlyTheirMove`.
- StateMachine.GateOutrun: the failing evaluator is any function of the context; one written in CEL would have to test for the added column.
- Crud.CreateContent: the created event, the content's event handlers and the redaction of the answer are hooks of the host and `Redaction`'s subject.
- Crud.UpdateContent: the transition events are modelled; the updated event, the content's event handlers and the redaction of the answer are not.
- Crud.WriteBack: the updated event, the content's event handlers and the redaction of the answer are left out.
- Crud.DeleteContent: the rows a cascade takes are any function of the store and the row; the deleted event is a hook of the host.
- FoldSoundness.BelowHighFoldIsSoundIff: a column with a default counts as filled; whether the default meets the column's own bounds, enum list or uniqueness is not asked, as it is an expression of the host.
- OwnershipLaws.ListedIff: over all pages; the request errors of the list handler, its order and its limit are left out.
- AcceptanceLaws.UpdateKeepsRowAcceptedIff: assumes a well-configured site and reachable states; the value of an entered expression is taken on the row as the moves before it leave it.
- UpdateLaws.FailedUpdateLeavesNoTraceIff: assumes a well-configured site and reachable states, which every run from an empty store keeps.
- `PredicateCompiler`: floats, `int()` oddities such as underscores and non-ASCII digits, and half surrogate pairs are the outcome `Unmodelled`; identifiers and white space are ASCII.
- PredicateMeaning.MeaningIsPreserved: for well-formed trees whose literals are plain, `LiteralsReadRightIff` says what happens otherwise; float literals are not modelled, and values of kinds that do not compare are unordered, where CEL raises.
- RefusalLaws.CompilesOrRefuses: for well-formed trees whose literals are plain; a float or an oddly written numeral is the outcome `Unmodelled`.
- PredicatePrinting.PrintCompilesBack: the printed form puts every operand in parentheses and strings between double quotes.
- `Materialize`: a `tool_call_id`, name or source that is absent or null is the empty string; JSON payloads are opaque.
- RedactionLaws.RedactingTwiceIsRedactingOnce: assumes distinct field names; noninterference does not.
- RedactionLaws.VisibleFieldsAreTold: assumes distinct field names, since a repeated name can pad an absent key that its last declaration does not hide.
- RedactionLaws.GuardTripsIff: assumes distinct field names and no field or column called `__redacted`; the path in the guard's message is left out.
- Widening.WideningIsSound: assumes that a field lists enum values exactly when its type is enum; `BelowHighKeepsEnumIff` says what happens otherwise.
- MaterializeLaws.DistinctIdsAreAnswerable: one direction, the sufficient condition; `EveryUseIsAnsweredIff` is exact.
- VisibilityLaws.RedactedRecordIs: where a name is declared twice and an absent key is padded, which of its hidden declarations the marker is for is left open.
- HandlerLaws.CreatedRowHoldsTheBody: a field the dependent values do change is the subject of `HandlerLaws.CreateAnswers`.
- Redaction.CheckWriteAccess: with several hidden keys any one of them may be named, since a record's key order is not modelled.
- Connections.ConnectionManager.BroadcastToSubscribers: a broadcast is one step; a registry changed by another task while the loop awaits a send is not modelled.
- Connections.ConnectionManager.HandleFrame: answering does not fail; the error frame for a response that could not be sent is left out.
- Connections.ConnectionManager.DispatchSession: no broadcast interleaves with a lone session and its sends do not fail; `ConnectionLaws.RunsAreSafe` and `RunsAreSeenLocally` interleave sessions and broadcasts.
- `Connections`: the ownership table is set before the run.
- `Bindings`: configuration values are opaque, as the merge never looks inside them.
