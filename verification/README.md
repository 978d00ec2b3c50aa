# Verified model of the bridge's durable ledgers and audits

This Dafny project models the parts of the bridge that other parts have to trust
without looking: the ledger of late App Server responses, the canonical JSON that
schema locks and migration audits compare, the schema-18 migration with the audit
that predicts it, the completion barrier of an Activity, the background work budget,
the linked test transport, and the percentile code.

| file | models |
|---|---|
| `Utf16.dfy`, `Json.dfy` | JavaScript strings as UTF-16 code units, `JSON.stringify`, `JSON.parse` (RFC 8259, string escapes of its section 7) |
| `CanonicalJson.dfy` | `stableJson` and `canonical`, and the finite trees they stand for |
| `SchemaFingerprint.dfy`, `GeneratedTypeScript.dfy` | directory fingerprints, `assertExactKeys`, TypeScript normalisation |
| `RowSnapshots.dfy`, `Joining.dfy` | sorted, newline-joined row digests |
| `LateResponses.dfy`, `LateResponseJournal.dfy` | interpretation, readers and writers, and the journal over whole runs |
| `WireLayer.dfy` | the checks on requests and responses before a late response reaches the journal |
| `LegacyMigration.dfy`, `RestartAudit.dfy` | the audit's prediction, the SQL migration, and when the audit's three modelled comparisons pass |
| `ActivityBarrier.dfy` | the barrier, job counts, sealing and the completion outbox |
| `WorkBudget.dfy`, `LinkedTransports.dfy`, `Percentiles.dfy` | the smaller components |
| `Sorting.dfy`, `Arithmetic.dfy`, `PropertyNames.dfy`, `Wrappers.dfy` | shared definitions |

SHA-256 is taken as the identity on what it is fed. A database is a set of finite maps
by primary key, a transaction either writes its one metadata cell or leaves it alone, the
store may drop any write of the cell and delete the cell (project retirement does both),
clock readings are parameters, and rows, files and set elements are visited in any order.

## Where the code does not do what its text suggests

* **`observe` relies on the wire layer.** Taken alone it can store what it later rejects:
  `safeIdentifier` keeps unpaired surrogates, `JSON.stringify` writes them as `\uXXXX`, and
  the strict reader of `src/textIntegrity.ts` refuses them.
  `LateResponseJournal.SurrogateIsStoredAndRejected` is such an input,
  `LateResponseJournal.UnreadableStaysUnreadable` what follows from it, and
  `LateResponseJournal.InputsDecide` the exact condition over every run of arbitrary inputs.
  In the program it does not happen: `write` checks every outbound request
  (`src/jsonRpcProcess.ts:488-497`), `handleLine` every inbound message (lines 367-371), and
  each caller takes the thread id of its late-response context from the parameters it
  sends. `WireLayer.ProgramReadsBack` proves from these that the journal always reads back
  what it has written.
* **The audit and the SQL migration differ on some rows.** An agent thread without a
  session whose sandbox fails the CHECK of the new table is skipped by `INSERT OR
  IGNORE`; a boolean `policyRevision` or timestamp and a `sessionId` or
  `forkedFromThreadId` that is no text, or a text with an unpaired surrogate, is stored by
  SQLite as something else than the audit prints; an empty current thread id is a value to
  SQL and no id to the audit. `RestartAudit.Verdict` states that the three modelled
  comparisons pass exactly when none of these occurs. A payload that repeats a key is read
  two ways (`LegacyMigration.RepeatedKeyIsReadTwoWays`); the store writes payloads with
  `JSON.stringify`, so a valid database has none.
* **The audit script expects schema 20** (`scripts/card-state-restart-audit.ts:109`),
  while the store of this tree migrates on to schema 32, so the script as a whole stops at
  that assertion. The model covers the three comparisons and the step from 18 to 19.
* **NUL-framed TypeScript fingerprints can collide when both texts hold a NUL.**
  `SchemaFingerprint.TypeScriptNulCollision` is a pair of directories that differ and share
  a fingerprint. A directory without NUL shares its fingerprint only with directories of
  the same paths and normalised texts (`SchemaFingerprint.FingerprintDecides`), and JSON
  documents never contain one.
* **`assertExactKeys` compares joined keys**, so one key that holds a NUL can pass for two
  expected ones (`SchemaFingerprint.OneKeyForTwo`), and `[]` for `[""]`.
  `SchemaFingerprint.AssertExactKeysAccepts` says exactly what it accepts.

## Model

| member | source | states |
|---|---|---|
| Json.ParseStringify | scripts/app-server-schema.ts:264 | reading printed JSON gives back the value, member order included, for every value whose objects have distinct keys |
| Json.StringifySafe | scripts/app-server-schema.ts:264 | printed JSON is non-empty, has no control character, and is well-formed UTF-16 even when the strings are not |
| Json.PlainUnitReads | scripts/app-server-schema.ts:251-257 | raw control characters in a string are refused, other units stand for themselves |
| Json.ShortEscapeReads | scripts/app-server-schema.ts:251-257 | the eight escapes of two characters are read, and no other |
| Json.UnicodeEscapeReads | scripts/app-server-schema.ts:251-257 | four hexadecimal digits in either case name their unit, anything else is refused |
| Json.BuildWellKeyed | scripts/app-server-schema.ts:251-257 | parsed objects have distinct keys, a repeated key overwriting the earlier member |
| Utf16.CodeUnitLeqIs | scripts/app-server-schema.ts:262 | the default sort order of strings: a proper prefix first, otherwise the first different code unit decides |
| Utf16.WellFormedExactly | src/textIntegrity.ts:82-106 | a text is well formed exactly when every surrogate in it, wherever it stands, is half of a pair |
| Utf16.TrimDrops | src/appServerLateResponses.ts:338 | trimming removes all white space of ECMAScript at both ends and nothing else |
| Json.ShortEscapesAre | scripts/app-server-schema.ts:264 | the seven units with an escape of two characters, as in section 7 of RFC 8259 |
| Json.OtherEscapesAre | scripts/app-server-schema.ts:264 | other controls and lone surrogates are spelt out with four lower-case hexadecimal digits, every other unit stands for itself |
| Json.EscapeConcat | scripts/app-server-schema.ts:264 | a string is escaped unit by unit, except that a surrogate pair stands for itself |
| Json.NumbersAre | scripts/app-server-schema.ts:264 | integers are printed in decimal, with a minus sign exactly for negative ones and no leading zero |
| Json.WordsAre | scripts/app-server-schema.ts:264 | the three words of JSON |
| Json.PrintsCompactly | scripts/app-server-schema.ts:264 | no white space, commas between the parts, a colon after each quoted key |
| CanonicalJson.StableJsonIsStringify | scripts/app-server-schema.ts:259-267 | looking up each sorted key prints what sorting the members and printing would |
| CanonicalJson.StableJsonReadsBack | scripts/app-server-schema.ts:259-267 | every value is recovered from stableJson up to key order; the text has no NUL |
| CanonicalJson.StableJsonDecides | scripts/app-server-schema.ts:259-267 | stableJson texts are equal exactly when the values are equal with objects as finite maps |
| CanonicalJson.StableJsonIncreases | scripts/app-server-schema.ts:259-267 | stableJson prints, compactly, the value of the same meaning in which the keys of every object increase in code unit order |
| CanonicalJson.CanonicalIsStringify | scripts/card-state-restart-audit.ts:933-948 | canonical prints the value with the members of every object sorted |
| CanonicalJson.CanonicalReadsBack | scripts/card-state-restart-audit.ts:933-948 | the reader recovers the meaning from canonical text, whatever the key comparison |
| CanonicalJson.CanonicalDetermines | scripts/card-state-restart-audit.ts:933-948 | equal canonical texts imply equal meanings even if the comparison is no order |
| CanonicalJson.CanonicalDecides | scripts/card-state-restart-audit.ts:933-948 | under a total order of keys, equal texts exactly for equal meanings |
| SchemaFingerprint.FingerprintGeneratedDirectory | scripts/app-server-schema.ts:38-57 | the loop feeds the digest the frames of the sorted files, counts them, and fails on an empty directory or on the first file that does not parse |
| SchemaFingerprint.FingerprintIs | scripts/app-server-schema.ts:42-57 | a readable directory gives its file count and, in increasing code unit order of the paths, each path and its canonical document or normalised text, every one followed by a NUL |
| SchemaFingerprint.FeedFails | scripts/app-server-schema.ts:46-51 | otherwise the first path in that order that does not parse is reported |
| SchemaFingerprint.EnumerationIndependent | scripts/app-server-schema.ts:42-56 | the outcome, errors included, does not depend on the enumeration of the directory |
| SchemaFingerprint.FingerprintDecides | scripts/app-server-schema.ts:38-57 | against a directory without NUL any other one has the same fingerprint exactly when paths and normalised texts agree; without NUL on both sides the digest input alone decides |
| SchemaFingerprint.JsonFingerprintDecides | scripts/app-server-schema.ts:38-57 | against a JSON directory any other one has the same fingerprint exactly when it is a JSON directory and the maps from path to document are equal |
| SchemaFingerprint.TypeScriptNulCollision | scripts/app-server-schema.ts:48-54 | two TypeScript directories with a NUL in both can differ and share a fingerprint |
| SchemaFingerprint.AssertExactKeysAccepts | scripts/app-server-schema.ts:294-300 | for any actual keys: accepted exactly when the sorted keys, cut at every NUL, are the sorted expected list |
| SchemaFingerprint.AssertExactKeysDecides | scripts/app-server-schema.ts:294-300 | accepted with no NUL in an actual key exactly for the expected key set, for expected lists without NUL other than `[]` and `[""]` |
| SchemaFingerprint.OneKeyForTwo | scripts/app-server-schema.ts:275 | one key with a NUL passes for the two keys of a fingerprint, and no key for the empty key |
| GeneratedTypeScript.NormalizeIsNormal | scripts/app-server-schema.ts:269-271 | results have no CR, no blank before a line end and one final newline; such texts are exactly the fixed points; idempotence |
| GeneratedTypeScript.LineEndInvariant | scripts/app-server-schema.ts:269-271 | LF and CRLF checkouts normalise alike |
| GeneratedTypeScript.NormalizeKeepsVisible | scripts/app-server-schema.ts:269-271 | only white space changes |
| GeneratedTypeScript.NormalizeRewrites | scripts/app-server-schema.ts:269-271 | the rewriting laws that determine the result: CRLF and CR count as LF, a blank at a line end and white space at the end do not count, and a text with none of them is left alone |
| Joining.JoinInjective | scripts/card-state-restart-audit.ts:950-952 | joining texts free of the separator is injective but for the empty list and the one empty text |
| RowSnapshots.SnapshotDecides | scripts/card-state-restart-audit.ts:525-528 | two row lists have one preimage exactly when they are equal as multisets of rows |
| RowSnapshots.SnapshotDetermines | scripts/card-state-restart-audit.ts:933-952 | equal preimages imply equal multisets whatever the key comparison |
| RowSnapshots.SnapshotIs | scripts/card-state-restart-audit.ts:525-528 | the preimage is the printed rows in increasing code unit order with newlines between them |
| RowSnapshots.TableSnapshotDecides | scripts/card-state-restart-audit.ts:525-528 | two keyed tables have one snapshot exactly when they hold the same rows under the same keys |
| RowSnapshots.TableSnapshotDetermines | scripts/card-state-restart-audit.ts:933-952 | for any comparison of keys equal table snapshots imply the same rows under the same keys |
| RowSnapshots.TableListedTwice | scripts/card-state-restart-audit.ts:525-528 | for any comparison of keys the snapshot of a table does not depend on the enumeration of its rows |
| LateResponses.InterpretLateResponse | src/appServerLateResponses.ts:190-249 | the branches compute the interpretation, and throw on unsafe numbers |
| LateResponses.SuccessIsIdentified | src/appServerLateResponses.ts:212-231 | a success of a thread request has a thread id, of turn/start both ids, and a known method |
| LateResponses.SuccessNamesItsSources | src/appServerLateResponses.ts:203-231 | which side of the exchange the ids of a success come from, without disagreement |
| LateResponses.ErrorKeepsContext | src/appServerLateResponses.ts:193-211 | an error has an error object and no result, keeps the request's thread id and no turn id |
| LateResponses.OutcomeIs | src/appServerLateResponses.ts:190-231 | from the response alone: a success exactly without an error object, with a result, a known method and the ids its family needs; an error exactly with an error object and no result |
| LateResponses.IdsAre | src/appServerLateResponses.ts:203-231 | which thread and turn id is recorded in every case, malformed ones included |
| LateResponses.FieldsAre | src/appServerLateResponses.ts:233-249 | every other field comes from the field of its name, the latency is clipped at 0, and exactly unsafe numbers are refused |
| LateResponses.SafeIdentifierIs | src/appServerLateResponses.ts:336-341 | which values are identifiers, told from the trimmed text |
| LateResponses.MethodNameIs | src/appServerLateResponses.ts:323-328 | which texts are method names, by their letters |
| LateResponses.IdentifierProperties | src/appServerLateResponses.ts:336-341 | validated identifiers are trimmed, bounded, free of controls, and validate to themselves |
| LateResponses.DecodeEncode | src/appServerLateResponses.ts:159-187 | the readers accept every valid state as written and return it field for field |
| LateResponses.RecordReadsBack | src/appServerLateResponses.ts:283-314 | readRecord returns every valid record unchanged, absent fields included |
| LateResponses.SavedRecordIs | src/appServerLateResponses.ts:9-33 | a record is saved with each value under its own name and with the words of its outcome and reconciliation |
| LateResponseJournal.LoadOfSave | src/appServerLateResponses.ts:159-187 | a valid state loads back after saving exactly when no identifier in it holds an unpaired surrogate |
| LateResponseJournal.LoadIsValid | src/appServerLateResponses.ts:159-176 | whatever is accepted satisfies every writer-side bound |
| LateResponseJournal.LoadSaveLoad | src/appServerLateResponses.ts:159-187 | load, save, load equals load for every accepted stored text |
| LateResponseJournal.AppServerLateResponseJournal.Open | src/appServerLateResponses.ts:73-94 | opening validates the limit, compacts what is stored, and writes nothing when it throws, nothing is stored or the store refuses |
| LateResponseJournal.AppServerLateResponseJournal.Observe | src/appServerLateResponses.ts:96-117 | an observation returns the record and writes it unless the store refuses, or throws and leaves the cell; Agents are outside its frame |
| LateResponseJournal.AppServerLateResponseJournal.Append | src/appServerLateResponses.ts:101-114 | load, count, push, compact and save, all or nothing |
| LateResponseJournal.AppServerLateResponseJournal.ReadStatus | src/appServerLateResponses.ts:119-135 | the status reports the loaded ledger and its last record |
| LateResponseJournal.WorkingState.Count | src/appServerLateResponses.ts:102-112 | the in-place increments and the push |
| LateResponseJournal.CountedIs | src/appServerLateResponses.ts:102-112 | which counters a record moves, by one and never beyond 2^53 - 1 |
| LateResponseJournal.WorkingState.Compact | src/appServerLateResponses.ts:178-183 | the oldest excess records go and are counted |
| LateResponseJournal.ObservedIsProduced | src/appServerLateResponses.ts:141-157 | reconciliation is malformed exactly when the outcome is, and never an Agent archive or restore |
| LateResponseJournal.ObservedRecordIs | src/appServerLateResponses.ts:141-157 | an archived or unarchived thread is a state conflict exactly when an Agent owns it and untracked exactly when none does; other successes are identifier-recorded exactly when they keep an id; an error is not applicable |
| LateResponseJournal.NewestIsObserved | src/appServerLateResponses.ts:96-117 | a written observation appends its record to the history and stores the text that goes with it |
| LateResponseJournal.ObserveFails | src/appServerLateResponses.ts:96-117 | an observation fails exactly for an unsafe number or a ledger that does not load |
| LateResponseJournal.OpenFails | src/appServerLateResponses.ts:73-94 | opening fails exactly for a limit outside 1 to 128 or a ledger that does not load |
| LateResponseJournal.LedgerLaw | src/appServerLateResponses.ts:73-117 | after every run of openings, observations, refused writes and deletions the cell holds the clipped exact counts of what was written since the last deletion, and its most recent suffix, within the last limit |
| LateResponseJournal.ReadableExactly | src/appServerLateResponses.ts:159-176 | after every run the journal reads its ledger exactly when no written identifier holds an unpaired surrogate |
| LateResponseJournal.TotalsBalance | src/appServerLateResponses.ts:101-113 | below the clip, observed = success + error + malformed = retained + evicted, and stateReconciled is 0 |
| LateResponseJournal.StepKeeps | src/appServerLateResponses.ts:96-117 | every step keeps the ledger invariant, and one that throws or is refused changes nothing |
| LateResponseJournal.InputsDecide | src/appServerLateResponses.ts:159-187 | the same told from the inputs alone, for arbitrary inputs of observe: readable exactly when no recordable one since the last deletion yields an unpaired surrogate |
| LateResponseJournal.CheckedResponse | src/appServerLateResponses.ts:203-231 | for a response that passed the inbound check, what observe keeps has none exactly when the worker id and the request thread id, if kept, are well formed once trimmed |
| LateResponseJournal.CheckedRunsDecide | src/jsonRpcProcess.ts:367-371 | with the inbound check alone the cell loads exactly when every recordable response meets that condition |
| LateResponseJournal.CheckedRunsReadBack | src/appServerLateResponses.ts:159-187 | with intact request thread ids and worker ids as well the cell always reads back as its ledger, field for field |
| WireLayer.SentThreadIntact | src/jsonRpcProcess.ts:488-497 | the check on the outbound message covers the thread id of the context, which callers take from the parameters (src/appServerUpstream.ts:1270-1278) |
| WireLayer.ReportedIsChecked | src/jsonRpcProcess.ts:516-526 | whatever is reported to the journal is intact on both sides |
| WireLayer.ReportedExactly | src/jsonRpcProcess.ts:488-526 | a response is reported exactly when parameters, method and response are intact and the context entry is acceptable, and what it then carries |
| WireLayer.ProgramReadsBack | src/runtimeProcess.ts:1498-1502 | over every sequence of openings, exchanges, refused writes and deletions the journal reads back what it has written, field for field |
| WireLayer.SurrogateIsNeverReported | src/jsonRpcProcess.ts:253-271 | no exchange reports the response of SurrogateIsStoredAndRejected |
| LateResponseJournal.UnreadableStaysUnreadable | src/appServerLateResponses.ts:162-167 | once an unpaired surrogate is stored no operation succeeds again until the cell is deleted |
| LateResponseJournal.SurrogateIsStoredAndRejected | src/appServerLateResponses.ts:336-341 | called directly, observe stores a concrete response that is then rejected; its request thread id is the text no request could be sent with |
| LegacyMigration.AcceptedLegacyContexts | scripts/card-state-restart-audit.ts:377-404 | the loops compute the accepted sessions and agent threads |
| LegacyMigration.SessionContextRows | scripts/card-state-restart-audit.ts:746-776 | the loop adds a row for each accepted agent thread without a session |
| LegacyMigration.AuditRulesAgree | scripts/card-state-restart-audit.ts:406-426 | acceptedLegacyProjectContext and hasUnmatchedProjectMetadata are one rule on every database, and the SQL condition on agent threads is the same |
| LegacyMigration.RulesAgree | src/stateStore.ts:5862-5865 | so is the SQL condition on sessions, for payloads without repeated keys |
| LegacyMigration.RepeatedKeyIsReadTwoWays | src/stateStore.ts:5838 | with a repeated sessionId the migration stores the first and the audit prints the last |
| LegacyMigration.StoredTextDecides | src/stateStore.ts:5838-5839 | a text comes back from a TEXT column unchanged exactly when it has no unpaired surrogate |
| LegacyMigration.SessionSurvives | scripts/card-state-restart-audit.ts:406-426 | told from the columns: project_uuid decides if it is set, then project_id, then the absence of every other trace of a project; the row keeps the project it names, in the prediction and in the migration |
| LegacyMigration.ThreadSurvives | src/stateStore.ts:5869-5928 | the same for agent threads, which also need their session, and for the sessions made for them |
| LegacyMigration.PayloadIs | scripts/card-state-restart-audit.ts:701-742 | each payload property is the member of its own name |
| LegacyMigration.PredictedSessionIs | scripts/card-state-restart-audit.ts:721-744 | what each column of a predicted session takes from the row and its payload |
| LegacyMigration.PredictedPersistenceIs | scripts/card-state-restart-audit.ts:711-719 | persistence comes from the payload, then from the connection, then from visibility |
| LegacyMigration.PredictedThreadIs | scripts/card-state-restart-audit.ts:746-776 | what a session made for an agent thread, and its relationship row, take from the thread |
| LegacyMigration.DigestThreadsAgree | scripts/card-state-restart-audit.ts:687-776 | sessionContextDigest and acceptedLegacyContexts agree on the surviving threads of every database |
| LegacyMigration.SessionKeysAgree | src/stateStore.ts:5824-5888 | the SQL keeps the predicted sessions exactly when no needed sandbox is invalid |
| LegacyMigration.ThreadKeysAgree | src/stateStore.ts:5920-5928 | and then exactly the predicted agent threads |
| LegacyMigration.LinksAgree | scripts/card-state-restart-audit.ts:428-442 | the same for whole agent_threads rows |
| LegacyMigration.SessionAgrees | src/stateStore.ts:5829-5857 | the columns of a migrated session are the predicted ones exactly when its payload is typed as both sides expect and its session ids have no unpaired surrogate |
| LegacyMigration.SessionsAgree | scripts/card-state-restart-audit.ts:694-776 | the migrated sessions table is the predicted one exactly under both conditions |
| LegacyMigration.AgentsAgree | scripts/card-state-restart-audit.ts:477-514 | INSERT and both UPDATEs give the Agents of agentStateDigest exactly when no Agent has for its own current thread the empty id, or one that the sandbox CHECK drops (both at once cancel out) |
| LegacyMigration.InvalidSandboxIsDropped | src/stateStore.ts:5869-5888 | a row that fails the CHECK is predicted and not migrated |
| LegacyMigration.NothingDangles | src/stateStore.ts:5911-5941 | surviving threads are surviving sessions, current threads survive and belong to their Agent, working Agents have one |
| LegacyMigration.PredictionDoesNotDangle | scripts/card-state-restart-audit.ts:477-514 | the same closure for the rows the audit predicts, whether or not the two agree |
| LegacyMigration.VersionsAccountForOrphans | scripts/card-state-restart-audit.ts:477-514 | in the migration and in the prediction versions grow by one exactly for Agents that the rule orphans; identity and reasons are kept |
| LegacyMigration.PredictedAgentIs | scripts/card-state-restart-audit.ts:477-514 | which current thread a predicted Agent keeps, and its lifecycle and reason in every case |
| LegacyMigration.ThreadDropsPartition | scripts/card-state-restart-audit.ts:574-585 | agent threads are the disjoint union of kept, without valid project, and rejected with their session, with counts |
| LegacyMigration.SessionDropsPartition | scripts/card-state-restart-audit.ts:568-573 | sessions are the disjoint union of accepted and invalid ones, with counts |
| LegacyMigration.RejectedWithItsSession | scripts/card-state-restart-audit.ts:581-584 | an acceptable thread is rejected exactly when its session is dropped |
| LegacyMigration.RemovedCountsApproved | src/stateStore.ts:6085-6090 | the sessions removed are the ones approved, and the agent threads removed are as many as approved exactly when no needed sandbox is invalid |
| LegacyMigration.ReapplyingDropsNothing | scripts/card-state-restart-audit.ts:377-404 | the rule applied again to jointly surviving sessions and threads drops nothing |
| RestartAudit.SessionRowIs | scripts/card-state-restart-audit.ts:664-680 | each value of a session stands under its own name |
| RestartAudit.LinkRowIs | scripts/card-state-restart-audit.ts:432-439 | each value of a relationship stands under its own name |
| RestartAudit.AgentRowIs | scripts/card-state-restart-audit.ts:499-512 | each value of an Agent stands under its own name |
| RestartAudit.SessionCheck | scripts/card-state-restart-audit.ts:114-118 | for every comparison of keys the session comparison passes exactly under the sandbox and payload conditions |
| RestartAudit.LinkCheck | scripts/card-state-restart-audit.ts:119-123 | the relationship comparison passes exactly when no needed sandbox is invalid |
| RestartAudit.AgentCheck | scripts/card-state-restart-audit.ts:128-129 | the Agent comparison passes exactly under the condition of AgentsAgree |
| RestartAudit.Verdict | scripts/card-state-restart-audit.ts:114-129 | the three comparisons pass together exactly on the databases that meet all three conditions, whatever the comparison of keys |
| ActivityBarrier.CountsDecide | src/stateStore.ts:7002-7024 | the counted columns decide whether all jobs are terminal and whether all of at least one completed |
| ActivityBarrier.CountsAddUp | src/stateStore.ts:7002-7024 | every counted column counts its own statuses, and the columns add up |
| ActivityBarrier.DerivedSays | src/activity.ts:129-194 | waitingOn, verification, attention, channel and lifecycle of a decision, each told exactly from the jobs |
| ActivityBarrier.IncrementalIsOneShot | src/activity.ts:129-194 | deriving after every job change ends as one derivation on the final jobs |
| ActivityBarrier.DerivedIsFixed | src/activity.ts:129-194 | deriving again on the same jobs changes nothing |
| ActivityBarrier.NotifyExactlyWhenDue | src/stateStore.ts:6930-7000 | a notify row is written exactly when the sealed Activity's jobs all completed, and completes it |
| ActivityBarrier.VerifyExactlyWhenDue | src/stateStore.ts:6933-6999 | a verify row is written exactly when due and not already asked for |
| ActivityBarrier.NotifyAtMostOnce | src/stateStore.ts:6930-7000 | over every run at most one notify row, one exactly when completed, rows numbered consecutively |
| ActivityBarrier.NotifyWhenFirstDue | src/activity.ts:162-177 | a run has a notify row exactly when one of its events makes it due |
| ActivityBarrier.FinalIsAbsorbing | src/activity.ts:136-143 | a final Activity and its outbox never change again |
| ActivityBarrier.ReconcileIdempotent | src/stateStore.ts:6930-7000 | reconciling twice writes nothing more, on either channel |
| ActivityBarrier.SealingIs | src/stateStore.ts:3368-3396 | sealing takes effect exactly on an open Activity with a job |
| WorkBudget.BackgroundWorkSlice.Take | src/backgroundWorkBudget.ts:28-32 | the new fields and the grant |
| WorkBudget.BackgroundWorkSlice.Reserve | src/backgroundWorkBudget.ts:34-39 | the new round trips and the grant |
| WorkBudget.BackgroundWorkSlice.YieldIfNeeded | src/backgroundWorkBudget.ts:41-46 | the span restarts when a multiple of yieldEvery is reached |
| WorkBudget.BudgetHolds | src/backgroundWorkBudget.ts:28-39 | over every run targets and round trips equal what was granted and stay within their limits |
| WorkBudget.SpanIsLastTurn | src/backgroundWorkBudget.ts:41-55 | after every run the stored span start is the time of the last await, or due yield, of that run |
| WorkBudget.GrantedExactly | src/backgroundWorkBudget.ts:28-39 | a charge is granted exactly by what the whole history granted and when its last turn began; a refusal changes nothing |
| WorkBudget.GrantsAreInSpan | src/backgroundWorkBudget.ts:34-39 | under a monotone clock every charge granted after the first target lies less than maxContinuousMs after the begin of its turn and after every operation in it |
| WorkBudget.SpansAreShort | src/backgroundWorkBudget.ts:41-46 | a caller that yields after each granted take never has more than yieldEvery targets in a span |
| WorkBudget.CapacityIsExact | src/backgroundWorkBudget.ts:28-39 | takes of one cost are granted exactly up to min(maxTargets, maxRoundTrips / cost), with yields and awaits in between and any clock readings that stay inside the turns |
| WorkBudget.ShippedLimits | src/backgroundWorkBudget.ts:14-19 | what the two shipped limits grant at any time |
| WorkBudget.ShippedCapacities | src/backgroundWorkBudget.ts:14-19 | what the two shipped limits admit at the costs their callers charge |
| LinkedTransports.LinkedPair.Send | scripts/current-mcp-test-harness.ts:75-85 | sending queues a delivery exactly when started and neither end is closed |
| LinkedTransports.LinkedPair.Close | scripts/current-mcp-test-harness.ts:87-91 | closing fires onclose once |
| LinkedTransports.LinkedPair.RunMicrotask | scripts/current-mcp-test-harness.ts:79-84 | the oldest delivery reaches its target |
| LinkedTransports.Conservation | scripts/current-mcp-test-harness.ts:50-92 | in every interleaving received then in flight is what the peer sent, in order, and onclose fired once per closed end |
| LinkedTransports.ClosedIsQuiet | scripts/current-mcp-test-harness.ts:75-91 | once an end is closed nothing is sent either way and the queue only drains |
| LinkedTransports.QueuedMessagesArrive | scripts/current-mcp-test-harness.ts:79-84 | messages already queued arrive although an end is closed |
| LinkedTransports.SendersHaveStarted | scripts/current-mcp-test-harness.ts:70-78 | only started ends have sent anything |
| Percentiles.NearestRank | scripts/issue-242-fixture.ts:16-20 | at least k samples are at most the result and fewer than k below it, k the ceiling of n times the fraction |
| Percentiles.NearestRankMonotone | scripts/issue-242-fixture.ts:18 | those counts leave one value, and larger ranks never give smaller ones |
| Percentiles.PercentileMonotone | scripts/issue-242-fixture.ts:18 | a larger fraction never gives a smaller percentile |
| Percentiles.SummaryIs | scripts/issue-242-fixture.ts:16-20 | p50, p95 and p99 are nearest ranks for the least k with 100 k at least 50 n, 95 n and 99 n |
| Percentiles.SummaryOrdered | scripts/issue-242-fixture.ts:16-20 | p50 <= p95 <= p99 <= max and max is the largest sample |
| Percentiles.ImplementationsAgree | scripts/database-storage-audit.ts:518-521 | both percentile implementations agree |

## Left out

- LateResponseJournal.LedgerLaw: which writes the store refuses, and when it deletes the cell, is arbitrary here (`setMeta` of `src/stateStore.ts:4561-4567`, `src/projectLifecycle.ts:517-533`); project retirement itself is not modelled.
- WireLayer.ProgramReadsBack: the other entries of a late-response context, the process itself, timers and pipes are not modelled; a request with another thread id in its context than in its parameters occurs nowhere.
- Json.ParseStringify: numbers are integers printed in decimal; fractions, exponents, non-finite numbers and negative zero are not modelled, so stored texts that use them read as invalid here.
- CanonicalJson.CanonicalDecides: the locale order of keys is an arbitrary total order, although `localeCompare` may call distinct keys equal; CanonicalDetermines and RestartAudit.Verdict need no such assumption. `undefined` and other non-JSON values are left out.
- LegacyMigration.SessionAgrees: integers are unbounded, so a JSON integer beyond SQLite's 64 bits is not modelled; payloads are valid JSON objects without repeated keys (`ValidDatabase`), as the store writes them.
- RestartAudit.Verdict: covers the session, relationship and Agent snapshots of the step from schema 18 to 19; later steps, scope, activity, job, history and critical-table snapshots are the same construction over other columns.
- LinkedTransports.Conservation: handlers act in later steps of the interleaving; the promise that `send` returns is not modelled.
- The order in which JavaScript enumerates integer-like keys: no result depends on it.
- SQLite, foreign keys and the other tables of the migration.
- Explicit completion, cancellation, abandonment and verification actions on an Activity, and completion times.
- The rounding and the total of `summarize` in the storage audit, and floating-point fractions.
- Path handling on Windows: relative paths with `/` are compared as the code compares full paths.
- Text of error messages, connection setup, schema generation and file access.
