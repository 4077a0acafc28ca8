# OpenMuse: verified models of its audit chain, scheduler, delegation, approvals, memory and host events

OpenMuse is a local agent host. It keeps a keyed, hash-chained audit log; runs cron jobs under durable
leases; lets subagents act under delegated grants; asks a person to approve each risky action once; and
reconciles its memory file with the audit log. This project models that logic in Dafny and proves what
the rest of the system relies on, for all inputs and for whole runs.

| file | what it is about |
|---|---|
| `Values` | JSON values, records, ideal digests (`Zero`, `Sha`, `Mac`) and key fingerprints, `Option` and `Result` |
| `AuditChain` | redaction, sealing a record, `verify_chain`, head binding |
| `JsonText`, `JsonRecord` | JSON strings, numbers and records as they are written and read: one record is one line, reads back, and no beginning of it reads |
| `AuditFile` | the file in the units JSON writes: backward tail scan, one locked append with its faults, four attempts |
| `AuditAnchor` | signed checkpoints |
| `KeyringProtocol` | `KeyringAuditKeys` and keyed appends as an interleaving of any number of processes |
| `KeyCalls` | every call of `current`, `rotate` and a locked append gets what it asks for |
| `CurrentKey` | which key is current, and exactly when it stays so |
| `Calendar`, `Cron`, `FieldParser` | the Gregorian calendar, the cron search and its five-year bound, field parsing |
| `IsoTime` | ISO texts of UTC instants and their string order |
| `Scheduler`, `LeaseRuns` | the job table and whole runs of its lease machine |
| `Grants`, `GrantLedger`, `Delegation` | the order of grants, the quota ledger shared by a tree of delegates, a delegate's own check |
| `Approvals` | one-time tokens, the policy, approval rows |
| `ChatPipeline`, `ChatSession` | from planner proposals to tool effects, over messages, decisions, faults and restarts |
| `Memory` | the memory store, its log, and the independent replay |
| `HostEvents` | signed host events and the replay store that forgets them |

How the parts fit: objects whose methods update fields are classes (`AuditLog`, `JobStore`, `Ledger`,
`ApprovalAuthority`, `ApprovalService`, `Agent`, `ChatHost`, `MemoryStore`, `ReplayStore`), and loops of the
source are loops with invariants. Each method is proved equal to a specification function or predicate of
its inputs and the old state. What such a function means is then stated without it, in the fields, rows and
lines it leaves; invariants and main results are lemmas over arbitrary event sequences. Clocks, random identifiers, keys, planner answers and failures are parameters, so the
results hold for every choice of them. Identifiers that the source draws as uuids are handed in and assumed
new; that assumption is the `Legal` or `Fresh` predicate of each module.

Where a claim is false of the code, the code is kept and the exact condition is proved. The five-year search
does not suffice for schedules that fire only on February 29 (`Cron.FiveYearsSufficeExactly`). Grants
with null constraint values break the order of grants and can widen authority
(`Grants.SubsetIsTransitiveExactly`, `Grants.StrictIsStrictPartExactly`,
`Grants.AuthorityNeverWidensExactly`). A use limit below one admits one use
(`GrantLedger.LimitHoldsExactly`). A run recorded before the minute that made it due is due again, so the
minute can be completed twice (`LeaseRuns.RecordedRunMovesOnExactly`,
`LeaseRuns.EarlyRecordRepeatsMinute`). A writer that stops partway leaves a torn file that no append
extends; `verify_chain` still accepts it when only the last line break is missing
(`KeyringProtocol.EveryRunVerifies`, `AuditFile.WrittenPart`). A migration overtaken by a whole rotation makes
the retired key current again (`CurrentKey.StaleMigrationUndoesRotation`); a key is sure to stay current until
the next rotation exactly in steady states (`CurrentKey.PointerStaysExactly`). `verify_chain` alone accepts
every whole-record prefix (`AuditChain.PrefixIsOk`), which is what checkpoints are for
(`AuditAnchor.AnchorRecognizesFile`).

## Model

| member | source | states |
|---|---|---|
| `AuditChain.RedactIsExact` | src/openmuse/audit.py:440-446 | after redaction no field with a sensitive name keeps its value at any depth, and redaction is the identity exactly on values that had none |
| `AuditChain.CaseDoesNotMatter` | src/openmuse/audit.py:443 | names that differ only in the case of ASCII letters are equally sensitive |
| `AuditChain.RedactLeavesTheRest` | src/openmuse/audit.py:440-446 | wherever no sensitive name is on the way into a value, redaction keeps what is there: the same names, lengths and scalars |
| `AuditChain.RedactReplacesSecrets` | src/openmuse/audit.py:440-446 | and a sensitive name at the end of such a way holds the fixed marker afterwards |
| `AuditChain.CheckLine` | src/openmuse/audit.py:584-611 | the per-line checks pass exactly the records that continue the chain (linked, right digest under a known key, unkeyed only before keyed), and the objection raised is true of the line |
| `AuditChain.OneObjection` | src/openmuse/audit.py:584-611 | a bad line has exactly one objection, the first check it fails, and a good line none |
| `AuditChain.VerifyChain` | src/openmuse/audit.py:564-617 | accepts exactly the files that meet the declarative chain condition; otherwise reports the least bad record index with an objection that holds of that record |
| `AuditChain.GoodFileInFields` | src/openmuse/audit.py:578-612 | a file is good exactly when every record names the hash of the one before, the first one zeros; unkeyed records come first and carry the digest of the rest of themselves; keyed ones name a known key and carry its MAC |
| `AuditChain.RequireKeyedExactly` | src/openmuse/audit.py:591-593 | asking for keyed records throughout refuses exactly the files with an unkeyed one |
| `AuditChain.PrefixIsOk` | src/openmuse/audit.py:578-617 | a line is judged by the lines up to it only, so every whole-record prefix of a good file is good |
| `AuditChain.SealCarriesItsHash` | src/openmuse/audit.py:534-542 | a sealed record carries its link, its algorithm and key id, and the digest of exactly the rest of itself |
| `AuditChain.SealIsAppended` | src/openmuse/audit.py:534-542 | a sealed record is free of secrets at every depth, has the fields of the data and of its mode and no others, the marker in every sensitive field and every clean field as it was |
| `AuditChain.SealExtendsChain` | src/openmuse/audit.py:534-546 | appending a sealed record to a good file gives a good file if and only if the record is keyed or the file has no keyed record yet |
| `AuditChain.MoreKeysKeepChain` | src/openmuse/audit.py:597-607 | a verifier that learns more keys still accepts what it accepted |
| `AuditChain.HeadBindsFile` | src/openmuse/audit.py:578-617 | two files that verify, under whatever keys, with the same final digest hold the same records, across legacy and keyed parts and rotations |
| `AuditChain.SameHashSameRecord` | src/openmuse/audit.py:596-611 | records that pass the digest check with one digest are one record, unkeyed and keyed digests never meeting |
| `AuditAnchor.CreateCheckpoint` | src/openmuse/audit_anchor.py:19-25 | succeeds exactly on good files, with the count and head of the whole file and a signature its own check accepts |
| `AuditAnchor.SignatureBindsCheckpoint` | src/openmuse/audit_anchor.py:22-29 | one signature is good for one count, head and time under one key, and for no other |
| `AuditAnchor.AnchorRecognizesFile` | src/openmuse/audit_anchor.py:19-29 | an anchored file is a prefix of a file that verifies now exactly when that file is long enough and has the anchored head at that place; equal heads mean equal files |
| `AuditFile.ScannedLine` | src/openmuse/audit.py:458-465 | what the backward scan stops at is the last line of a front-to-back split |
| `AuditFile.AppendedLine` | src/openmuse/audit.py:543-544 | text without a line break written after a whole file is exactly one more line, with its line break or without |
| `AuditFile.JsonIsFaithful` | src/openmuse/audit.py:543-544 | JSON lines, with the fields in any order, have no raw line break, read back as the record, and have no beginning that reads as JSON: what the append results ask of a codec |
| `AuditFile.AuditLog.LastRecord` | src/openmuse/audit.py:449-468 | the backward scan returns what forward line splitting finds: no record, the last record, or the torn or malformed tail error |
| `AuditFile.AuditLog.AppendOnce` | src/openmuse/audit.py:520-546 | one attempt, with the handle denied, a sharing violation, or the write stopped after any number of units, leaves exactly the stated file and error |
| `AuditFile.AuditLog.Append` | src/openmuse/audit.py:499-518 | reserved fields and a failed key lookup leave the file alone; at most four attempts, only sharing violations are retried, and the file is that of the first other attempt, so at most one record is added |
| `AuditFile.SharingMeansSharing` | src/openmuse/audit.py:524-532 | the retried error arises only from a sharing violation, and leaves the file as it was |
| `AuditFile.TailIsHead` | src/openmuse/audit.py:533-535 | on a good whole file the scan succeeds and the digest it hands over is the head of the chain |
| `AuditFile.AppendExtendsChain` | src/openmuse/audit.py:520-546 | an append to a good file, keyed or not, adds exactly the sealed record behind the old ones, and the file still verifies if and only if the record is keyed or no keyed record was there |
| `AuditFile.AppendedRecordReadsBack` | src/openmuse/audit.py:520-546 | what a reader finds after a fault-free append: the old records and such a record, linked to the old head |
| `AuditFile.FaultsAreErrors` | src/openmuse/audit.py:521-532 | a denied handle or sharing violation writes nothing, and a stopped write is an error |
| `AuditFile.BadTailRefuses` | src/openmuse/audit.py:465-467 | a finished last line that is no record with a text as its hash stops every append |
| `AuditFile.TornFileRefuses` | src/openmuse/audit.py:455-457 | a file with an unfinished last line refuses every later append, whatever its data, key and faults, without changing |
| `AuditFile.WrittenPart` | src/openmuse/audit.py:543-546 | a write stopped early leaves a file that every later append refuses and in which a reader sees one line more, the part that was written; a full write adds the whole line |
| `AuditFile.AttemptLeavesOldNewOrTorn` | src/openmuse/audit.py:520-546 | wherever an append stops, the file is the old one, the completed new one, or a torn one that every later append refuses, in which a verifier sees no JSON, or the new record when only its line break is missing; success means the completed one |
| `JsonText.CharReadsBack` | src/openmuse/audit.py:544 | every character is written so that it is read back with its exact length, whatever follows (section 7 of RFC 8259) |
| `JsonText.StringReadsBack` | src/openmuse/audit.py:544 | every string written as a JSON literal reads back as itself wherever it stands |
| `JsonText.NumberReadsBack` | src/openmuse/audit.py:544 | every integer reads back as itself when no digit follows it (section 6 of RFC 8259) |
| `JsonRecord.DumpIsPrintable` | src/openmuse/audit.py:544 | no value is written with a raw control character, line breaks included |
| `JsonRecord.ValueReadsBack` | src/openmuse/audit.py:544 | every value, nested to any depth and with its fields in any order, reads back as itself whatever follows it |
| `JsonRecord.RecordReadsBack` | src/openmuse/audit.py:465 | a written record loads as itself |
| `JsonRecord.ValueStable` | src/openmuse/audit.py:584 | what has been read is read again when more text follows |
| `JsonRecord.BeginningIsNoJson` | src/openmuse/audit.py:584 | no proper beginning of a written record loads as anything |
| `JsonRecord.SomeOrderListsAll` | src/openmuse/audit.py:544 | some order of fields exists, so the results on all orders are about something |
| `JsonRecord.WrittenForms` | src/openmuse/audit.py:544 | words, strings in quotes, lists in brackets and dictionaries in braces, with a comma or a colon and a blank between |
| `JsonRecord.WrittenEscapes` | src/openmuse/audit.py:544 | a line break and a quote are escaped by a backslash, ordinary characters stand for themselves |
| `KeyringProtocol.MigrateKeepsStore` | src/openmuse/audit.py:268-288 | each step of a migration keeps the store sane: the document goes only after all its keys have their own targets, and the current-key pointer is that of a stored key |
| `KeyringProtocol.CreateKeepsStore` | src/openmuse/audit.py:290-304 | each step of first creation and of rotation stores a key before it becomes the current one |
| `KeyringProtocol.KeyStepKeepsStore` | src/openmuse/audit.py:220-329 | every credential-store step of `current`, `rotate`, `resolve` and migration keeps store and process invariants, and reaches no error |
| `KeyringProtocol.OthersKeepPc` | src/openmuse/audit.py:238-251 | what a process relies on between its steps survives the steps of all others |
| `KeyringProtocol.AvailableGrows` | src/openmuse/audit.py:253-278 | no store change makes a key unresolvable or changes it |
| `KeyringProtocol.LockedStepKeepsFile` | src/openmuse/audit.py:520-546 | a locked append keeps the whole records good even when the key fetched before the lock was retired meanwhile, and refuses a torn file |
| `KeyringProtocol.StopKeepsFile` | src/openmuse/audit.py:543-546 | a writer that dies or fails, with nothing, a part, all but the line break, or all of its record written, leaves the whole records good |
| `KeyringProtocol.StepKeepsInv` | src/openmuse/audit.py:178-329 | one atomic step of any process keeps the whole invariant of store, processes, lock and file |
| `KeyringProtocol.RunKeepsInv` | src/openmuse/audit.py:178-329 | so does every interleaving; the file only grows and keys are never lost |
| `KeyringProtocol.EveryRunVerifies` | src/openmuse/audit.py:178-329 | for any number of processes, any schedule and any point of death or failure: whole records verify, no key-store call fails, the current-key pointer is that of a stored key, every old key stays resolvable, an unlocked file is torn exactly when some writer stopped partway, and what a verifier reads is good unless it ends in the beginning of a record |
| `KeyringProtocol.TornFileStays` | src/openmuse/audit.py:455-457 | a torn file that nobody is completing never changes again, and becomes so only by a writer that stops partway |
| `KeyringProtocol.EveryRecordVerifiesForEver` | src/openmuse/audit.py:205-206 | what was on file at any point of a run is still there and still verifies at any later point |
| `KeyringProtocol.ResolveFindsOwedKey` | src/openmuse/audit.py:315-329 | a key stored when `resolve` starts is its answer, whatever migrations and deletions fall between its three reads, and it never needs a fourth |
| `KeyringProtocol.OwedKeyIsFound` | src/openmuse/audit.py:318-329 | the same from any of the three reads, under any interference |
| `KeyCalls.ResolveAnswersStoredKeys` | src/openmuse/audit.py:315-329 | `resolve` answers with stored keys only |
| `KeyCalls.CurrentIsAnswered` | src/openmuse/audit.py:280-297 | `current` on an initialised store: whatever falls between its steps, after the pointer read at most three more bring the key that was stored under the pointer it read |
| `KeyCalls.PointerIsAnswered` | src/openmuse/audit.py:238-251 | the same for the pointer read that ends first use, migration and `rotate` |
| `KeyCalls.OwnStepArrives` | src/openmuse/audit.py:268-304 | each own step of a call brings it nearer to its key |
| `KeyCalls.EveryCallIsAnswered` | src/openmuse/audit.py:280-304 | every call of `current` or `rotate` is answered with a stored key after a bounded number of own steps, whatever the others do: four on an initialised store, eight for `rotate` |
| `KeyCalls.ErrorsExactly` | src/openmuse/audit.py:223-329 | which stores a call refuses and with which error: a document whose current key is missing, a write that did not last, a pointer that is gone, a current key nobody stores |
| `KeyCalls.MigrationEnds` | src/openmuse/audit.py:268-278 | at the end of a migration every key of the document sits under its id in its own target, the pointer stands, and the document is gone unless the store could not delete it |
| `KeyCalls.AppendAddsOneRecord` | src/openmuse/audit.py:499-546 | a process with its key that finds the lock free and the file whole adds exactly one record, linked to the head it found under the lock, whatever the others do meanwhile |
| `CurrentKey.StepIsSteady` | src/openmuse/audit.py:268-298 | every step but the start of a rotation keeps a state steady: the key current, nobody under way to another one, and nobody about to find the old document deleted |
| `CurrentKey.AskersAgree` | src/openmuse/audit.py:280-298 | every process that begins to ask in a steady state, and is answered before the next rotation, is given the current key |
| `CurrentKey.AgreementOnceWritersStop` | src/openmuse/audit.py:238-251 | in particular once no process may still change which key is current, and until someone rotates, every process that asks is given that key |
| `CurrentKey.DiverterArrives` | src/openmuse/audit.py:268-304 | a process under way to another key can make another key current by its own steps, without a rotation |
| `CurrentKey.CrowdedReaderArrives` | src/openmuse/audit.py:281-292 | of two processes on first use one can delete the old document before the other reads it, which then creates a key of its own |
| `CurrentKey.PointerStaysExactly` | src/openmuse/audit.py:238-304 | in every reachable state a key stays current until the next rotation, whatever the processes do, if and only if the state is steady |
| `CurrentKey.StaleMigrationUndoesRotation` | src/openmuse/audit.py:268-304 | a concrete run from an installation with one old key: a migration is about to write the pointer, another process finishes a rotation and is given the new, then current key, and the next step of the migration makes the old key current again |
| `FieldParser.CollectParts` | src/openmuse/scheduler.py:14-29 | the loop over the parts fails exactly when a part is unreadable and otherwise collects exactly the values some part names |
| `FieldParser.ParseField` | src/openmuse/scheduler.py:13-33 | a field parses exactly when all its parts do; the result is the union of their ranges (7 meaning 0 for day-of-week), within bounds and not empty |
| `FieldParser.FoldSunday` | src/openmuse/scheduler.py:31-32 | folding 7 into 0 keeps all other days and never empties the set |
| `FieldParser.NumbersAreGrouped` | src/openmuse/scheduler.py:19-27 | a text without a sign is a number exactly when it consists of digits with single underscores between digits, and the underscores do not change its value |
| `FieldParser.SignedNumber` | src/openmuse/scheduler.py:19-27 | one sign may stand before a number; a minus negates it |
| `FieldParser.PartReads` | src/openmuse/scheduler.py:16-28 | every part, a star, a number or a span with or without a step, is read as written, a missing step being one, and refused exactly when the step is zero or the span empty or out of bounds |
| `FieldParser.UnreadableIsRefused` | src/openmuse/scheduler.py:16-27 | a part with an unreadable number, alone, in a span or as the step, is refused |
| `FieldParser.RangeSteps` | src/openmuse/scheduler.py:30 | a range holds its start and every step-th value after it up to its end |
| `FieldParser.Quarters` | src/openmuse/scheduler.py:13-33 | `*/15` of the minutes names the quarters of the hour |
| `FieldParser.SplitAt` | src/openmuse/scheduler.py:15 | a list of parts is split at its commas |
| `FieldParser.SundayHasTwoNames` | src/openmuse/scheduler.py:31-32 | of the weekdays Sunday goes by two numbers and the others by one |
| `FieldParser.ParseSchedule` | src/openmuse/scheduler.py:39-52 | an expression is accepted exactly when it has five readable fields; every accepted one is well-formed, means what its fields say, and has the star flags of the field texts |
| `Cron.FirstHit` | src/openmuse/scheduler.py:62-70 | the search result is a hit in the window with no earlier hit, or there is none |
| `Cron.NextAfter` | src/openmuse/scheduler.py:54-70 | a naive anchor is refused; otherwise the loop returns the first minute after the anchor whose local reading the fields list, star rules included, and raises exactly when five times 366 days hold none |
| `Cron.FiresByFields` | src/openmuse/scheduler.py:65-81 | for any zone and minute: with a starred day-of-month and a restricted weekday a schedule fires exactly on listed weekdays, the other way round on listed days, with both restricted on either, with two stars on every day; month, hour and minute are listed in every case |
| `Cron.NextIsFirstListed` | src/openmuse/scheduler.py:54-81 | the answer is the first listed minute, and no answer means there is none |
| `Cron.MondaysFireOnMonday` | src/openmuse/scheduler.py:72-81 | `0 9 * * 1` asked on Tuesday 2024-01-02 answers nine on Monday 2024-01-08 |
| `Cron.NextIsMonotone` | src/openmuse/scheduler.py:54-70 | a later anchor never fires earlier, and all anchors before a fire find that fire |
| `Cron.EveryHitIsReached` | src/openmuse/scheduler.py:54-70 | asking again from each fire visits every matching minute, skipping and repeating none: the answers are strictly increasing hits, for any zone |
| `Cron.FoldFiresTwice` | src/openmuse/scheduler.py:57-58 | when a wall minute repeats, both instants match, and nothing later than the second is found after the first |
| `Cron.UtcExists` | src/openmuse/scheduler.py:45 | the UTC condition of the following results is met by the Gregorian calendar |
| `Cron.EveryYearHasDateHit` | src/openmuse/scheduler.py:72-81 | restricted weekdays, two stars, or an ordinary date each give a matching date in every year under the OR rule |
| `Cron.EveryYearIsEnough` | src/openmuse/scheduler.py:54-81 | such schedules fire within the search window from every anchor |
| `Cron.OnlyLeapDay` | src/openmuse/scheduler.py:72-81 | every other schedule can match nothing but February 29 of a leap year |
| `Cron.NoLeapDayAround2100` | src/openmuse/scheduler.py:62-70 | such a schedule finds nothing from the last minute of February 29, 2096: a concrete anchor on which the bound fails |
| `Cron.FiveYearsSufficeExactly` | src/openmuse/scheduler.py:54-81 | in UTC the five-year search succeeds from every anchor if and only if the schedule passes the caller's check |
| `Cron.LeapDaysFailAround2100` | src/openmuse/scheduler.py:62-70 | the concrete schedule `0 0 29 2 *`, well-formed, finds nothing from that anchor |
| `Cron.LeapDayIsFoundExactly` | src/openmuse/scheduler.py:62-70 | for each anchor, a schedule of February 29 alone is found if and only if a scheduled time of a February 29 lies in the window |
| `Cron.LeapDayIsFound` | src/openmuse/scheduler.py:62-70 | in particular from any anchor followed by five years without a skipped century leap year |
| `Cron.CanFireExactly` | src/openmuse/scheduler.py:104-109 | some anchor finds a fire if and only if the fields name a day that exists; the others, which `add` accepts, raise from everywhere |
| `IsoTime.CompareFractions` | src/openmuse/scheduler.py:155-156 | leaving out zero microseconds keeps the order, since a plus sign sorts before a full stop |
| `IsoTime.CompareDates` | src/openmuse/scheduler.py:155-156 | date texts compare as days |
| `IsoTime.IsoShowsFields` | src/openmuse/scheduler.py:142 | the text of an instant shows year, month, day, hour, minute, second and, unless zero, microseconds |
| `IsoTime.PadReads` | src/openmuse/scheduler.py:142 | a padded number reads as itself |
| `IsoTime.CompareIsAntisymmetric` | src/openmuse/scheduler.py:156-186 | of two texts exactly one comparison of `>` and `<=` holds, so the two SQL guards never overlap |
| `IsoTime.TextOrderIsTimeOrder` | src/openmuse/scheduler.py:154-158 | string order of the ISO texts of UTC instants is time order, and equal texts are equal instants, in all years a datetime has |
| `Scheduler.SelectDue` | src/openmuse/scheduler.py:119-126 | selects exactly the jobs whose next fire has come, and raises for the whole table as soon as one schedule has no fire |
| `Scheduler.ClaimRows` | src/openmuse/scheduler.py:134-144 | leases exactly the due jobs without a token, each with the token drawn for it, and changes no other row |
| `Scheduler.RowsAfterClaim` | src/openmuse/scheduler.py:134-144 | a claim gives each due, unclaimed job its token and lease, keeps its schedule, goal and last run, and leaves every other row alone |
| `Scheduler.ClaimFrom` | src/openmuse/scheduler.py:131-149 | all of that or, when selection raises, nothing |
| `Scheduler.JobStore.Add` | src/openmuse/scheduler.py:104-109 | a new unclaimed job that never ran, and no other change |
| `Scheduler.JobStore.Remove` | src/openmuse/scheduler.py:111-113 | removes that row only, whether or not it is claimed |
| `Scheduler.JobStore.Due` | src/openmuse/scheduler.py:119-126 | pure selection of exactly the due jobs |
| `Scheduler.JobStore.ClaimDue` | src/openmuse/scheduler.py:128-149 | refuses a lease below one second; otherwise claims exactly the due unclaimed jobs; a refusal leaves the table alone; an expired claim is not taken over |
| `Scheduler.JobStore.Heartbeat` | src/openmuse/scheduler.py:151-161 | extends the lease exactly for the holder of an open lease, and refuses all others unchanged |
| `Scheduler.JobStore.MarkRun` | src/openmuse/scheduler.py:167-180 | succeeds exactly for the token the row holds, or without one on an unclaimed row; a token is given up with its lease |
| `Scheduler.JobStore.RetryUnknown` | src/openmuse/scheduler.py:182-190 | releases exactly a claimed row whose lease is over |
| `Scheduler.GuardsExactly` | src/openmuse/scheduler.py:151-190 | the conditions of heartbeat, completion and reconciliation on the columns they read |
| `Scheduler.LeaseLasts` | src/openmuse/scheduler.py:142 | a lease of so many seconds is open for so many seconds |
| `Scheduler.NeverRunIsDueNow` | src/openmuse/scheduler.py:119-126 | a job that never ran is due exactly when the current minute matches |
| `Scheduler.RanIsDueAfterMatch` | src/openmuse/scheduler.py:119-126 | a job that ran is due exactly when a matching minute after its last run, within five years of it, has come |
| `LeaseRuns.HandOutKeepsTokens` | src/openmuse/scheduler.py:128-149 | after a claim every new token is outstanding on its job and no old token has changed its fate |
| `LeaseRuns.ClaimTakesEffect` | src/openmuse/scheduler.py:128-149 | every due, unclaimed job is claimed when all jobs have a fire |
| `LeaseRuns.MarkTakesEffect` | src/openmuse/scheduler.py:167-180 | a completion by the holder is recorded, after expiry too, and gives token and lease up; any other is refused |
| `LeaseRuns.RetryTakesEffect` | src/openmuse/scheduler.py:182-190 | reconciliation gives token and lease up and records no run |
| `LeaseRuns.HoldsForItsSeconds` | src/openmuse/scheduler.py:151-190 | after a claim or heartbeat of so many seconds the heartbeat succeeds for so many seconds, and reconciliation from then on |
| `LeaseRuns.StepKeepsTokens` | src/openmuse/scheduler.py:104-190 | every call, whatever times it carries, keeps: token and lease are set together, and each issued token is in exactly one of outstanding, completed, reconciled, removed |
| `LeaseRuns.CompleteKeepsFires` | src/openmuse/scheduler.py:174-180 | a completion puts its cron minute after all completed minutes of the job |
| `LeaseRuns.StepKeepsFires` | src/openmuse/scheduler.py:104-190 | every punctually recorded call keeps: issued claims match their schedule, holders are ahead of the last run, completed minutes increase per job |
| `LeaseRuns.EveryTokenHasOneFate` | src/openmuse/scheduler.py:104-190 | over every run, whatever times are recorded, each issued token, and no other, has exactly one fate, and a job has a token exactly when it has a lease |
| `LeaseRuns.NoMinuteIsCompletedTwice` | src/openmuse/scheduler.py:119-190 | over every punctually recorded run the completed claims of a job carry distinct, increasing, matching cron minutes |
| `LeaseRuns.RecordedRunMovesOnExactly` | src/openmuse/scheduler.py:167-180 | after a recorded run the next fire lies beyond a given matching minute if and only if the run was not recorded before that minute |
| `LeaseRuns.EarlyRecordRepeatsMinute` | src/openmuse/scheduler.py:167-180 | for any schedule and any of its minutes, a run with one early record completes that minute twice |
| `LeaseRuns.ReleasedTokenNeverSucceeds` | src/openmuse/scheduler.py:151-190 | a token once completed, reconciled or removed is refused by heartbeat and completion in every continuation, on every job |
| `LeaseRuns.ExactlyOneSucceeds` | src/openmuse/scheduler.py:151-190 | for any claimed row exactly one of the holder's heartbeat and the reconciliation succeeds |
| `LeaseRuns.StepKeepsInstants` | src/openmuse/scheduler.py:142-156 | every lease a call writes is the text of an instant |
| `LeaseRuns.HolderOrReconciler` | src/openmuse/scheduler.py:151-190 | in every run the lease of a claim is the text of an instant; at any time exactly one of the holder's heartbeat and the reconciliation succeeds, the heartbeat before that instant |
| `LeaseRuns.OnlyReleaseEndsClaim` | src/openmuse/scheduler.py:134-138 | a claim ends only by its own completion, by reconciliation after expiry, or with its job: never by expiry or another worker's call |
| `Grants.TestStrictlyNarrower` | src/openmuse/subagents.py:43-55 | the hand-written test in any order of the tools: its verdict does not depend on the order, and it raises only over a constraint value that is not hashable |
| `Grants.UnhashableExactly` | src/openmuse/subagents.py:52-54 | a record is not hashable exactly if it holds a list or a dictionary |
| `Grants.SubsetIsReflexive` | src/openmuse/subagents.py:29-41 | the subset test is reflexive, null values included |
| `Grants.SubsetIsTransitiveExactly` | src/openmuse/subagents.py:29-41 | down two steps the first grant is below the last if and only if it puts nothing where the last requires null; always without nulls |
| `Grants.NullBreaksTransitivity` | src/openmuse/subagents.py:38-39 | three concrete grants on which transitivity fails |
| `Grants.StrictIsStrictPartExactly` | src/openmuse/subagents.py:43-55 | the hand-written disjunction is the strict part of the subset order unless, for equal tools and limits, only added nulls tell the grants apart or dropped nulls hide what the first fixes more: those are exactly the cases in which it fails |
| `Grants.CountsExactly` | src/openmuse/subagents.py:52-55 | a tool counts in the test exactly when something is added for it and no required null left out |
| `Grants.StrictIsStrictPart` | src/openmuse/subagents.py:43-55 | so it is for all grants without null constraints |
| `Grants.NullBreaksStrictness` | src/openmuse/subagents.py:52-54 | a concrete grant called strictly narrower than one it is as strong as |
| `Grants.PathDescends` | src/openmuse/subagents.py:110-111 | down a delegation path every later grant is below every earlier one and not conversely, so no grant repeats |
| `Grants.NarrowingKeepsAuthority` | src/openmuse/subagents.py:146-154 | what a narrower grant accepts its parent accepts at the same time, when required nulls are kept |
| `Grants.DroppedNullWidens` | src/openmuse/subagents.py:151-154 | a required null left out by the child gives an action only the child accepts |
| `Grants.AuthorityNeverWidensExactly` | src/openmuse/subagents.py:29-41 | among grants that pass the subset test authority never widens if and only if required nulls are kept |
| `Grants.PathKeepsAuthority` | src/openmuse/subagents.py:140-154 | what the last grant of a path accepts, every ancestor accepts at the same time |
| `Grants.SubsetIsContainment` | src/openmuse/subagents.py:29-41 | a grant that names any tool passes the subset test, nulls kept, if and only if it allows no more uses and accepts nothing its parent does not accept |
| `Grants.GrantsEnd` | src/openmuse/subagents.py:146-150 | a grant accepts actions until it ends and nothing from then on |
| `Grants.GrantsRequire` | src/openmuse/subagents.py:146-154 | before its end it accepts exactly the actions of its tools with every required value |
| `Grants.SubsetLimitsNarrow` | src/openmuse/subagents.py:32-33 | below a limited grant every grant is limited, and no higher |
| `Grants.PathLimitsNarrow` | src/openmuse/subagents.py:32-33 | the same down a whole path |
| `Grants.LowerLimitIsNarrower` | src/openmuse/subagents.py:43-49 | a change of the limit alone is strictly narrower exactly when it lowers it |
| `Grants.EarlierEndIsNarrower` | src/openmuse/subagents.py:50-51 | a change of the end alone is strictly narrower exactly when it is earlier |
| `GrantLedger.Ledger.Consume` | src/openmuse/subagents.py:72-97 | charges all budgets and records the token, or changes nothing, exactly by whether the token is new and every budget has room |
| `GrantLedger.ChargeChargesEach` | src/openmuse/subagents.py:87-91 | a consumption raises each of its budgets by one and no other counter |
| `GrantLedger.NewBudgetsOk` | src/openmuse/subagents.py:119 | a delegate draws on exactly its limited ancestors and itself, each once, with their limits |
| `GrantLedger.RedeemKeepsInv` | src/openmuse/subagents.py:72-94 | a redemption keeps conservation, bounds and once-per-token |
| `GrantLedger.QuotaIsConserved` | src/openmuse/subagents.py:72-144 | over any tree and any interleaving each counter is the number of redemptions by the grant and its descendants, within the limit (or the one free use), and no token is redeemed twice |
| `GrantLedger.RedeemedExactly` | src/openmuse/subagents.py:72-94 | in every run a limited delegate redeems a token exactly when the token is new and each limited grant from it upwards is unused or below its limit, so limits can be used up |
| `GrantLedger.DelegatesAreAdded` | src/openmuse/subagents.py:101-119 | a new delegate is one more, and the ledger stays as it is |
| `GrantLedger.LimitBelowOneAllowsOneUse` | src/openmuse/subagents.py:83-86 | a limit of zero or less still admits a first use |
| `GrantLedger.LimitHoldsExactly` | src/openmuse/subagents.py:83-86 | a limit is kept in every run if and only if it is at least one |
| `Delegation.DelegatedAuthority.Build` | src/openmuse/subagents.py:101-119 | a delegate exists only if narrower than its parent and with a ledger if limited; a refusal names a reason that holds |
| `Delegation.DelegatedAuthority.Narrow` | src/openmuse/subagents.py:140-144 | a child shares root and ledger, draws on its parent's budgets and its own, and passed the same checks |
| `Delegation.DelegatedAuthority.Verify` | src/openmuse/subagents.py:131-138 | accepts exactly inside the grant, with a token the root accepts, and room in every budget; states what root and ledger hold afterwards, refused redemptions included |
| `Approvals.ApprovalAuthority.Verify` | src/openmuse/approvals.py:36-60 | accepts exactly an unexpired, unspent, rightly signed token for this very action, and spends it |
| `Approvals.IssuedTokenIsBound` | src/openmuse/approvals.py:26-60 | an issued token is accepted if and only if the secret, the action's id, tool and arguments agree, it is before its expiry, and it was not spent |
| `Approvals.OnlySignedTokensPass` | src/openmuse/approvals.py:36-60 | a token passes exactly if it carries this action and an expiry to come, signed with the secret, and was not spent |
| `Approvals.CheckPolicy` | src/openmuse/policy.py:26-33 | reads and enabled writes pass without touching the token; everything else passes exactly by spending one, and never without an authority |
| `Approvals.ApprovalService.constructor` | src/openmuse/approval_service.py:19-26 | on restart exactly the pending rows become interrupted |
| `Approvals.ApprovalService.Create` | src/openmuse/approval_service.py:27-30 | adds one pending row holding the action without its token, and returns its session |
| `Approvals.ApprovalService.Decide` | src/openmuse/approval_service.py:31-43 | sets the status of exactly one pending, unexpired row with the right session, or refuses in the stated order and changes nothing |
| `Approvals.DecidedExactly` | src/openmuse/approval_service.py:31-43 | a decision is taken exactly on an open, unexpired row by the holder of its session; each refusal is the first thing wrong |
| `Approvals.RestartClosesOpenRows` | src/openmuse/approval_service.py:22-26 | a restart leaves no row open and decided ones as they are |
| `ChatSession.Agent.Execute` | src/openmuse/core.py:24-53 | what is appended, run, returned and spent on every path, with the first append, the tool call and the last append each free to fail |
| `ChatSession.ChatHost.Handle` | src/openmuse/web_chat.py:106-133 | the loop over proposals leaves the state that the specification of a message gives |
| `ChatSession.ChatHost.RequestApproval` | src/openmuse/web_chat.py:160-170 | a blocked action gets one pending row and the card that goes with it |
| `ChatSession.ChatHost.Decide` | src/openmuse/web_chat.py:135-158 | a decision leaves the state that the specification of a click gives, refused and denied ones included |
| `ChatSession.BuildSession` | src/openmuse/web_chat.py:198-209 | a restart keeps rows and log, interrupts open rows, and forgets cards, keys and spent tokens |
| `ChatPipeline.ExecuteKeepsTrace` | src/openmuse/core.py:42-53 | one execution adds at most its own effect, directly after its durable intent; a failed intent means no effect; without a token it can only be a read |
| `ChatPipeline.HandleKeepsInv` | src/openmuse/web_chat.py:115-129 | a message with any proposals keeps the pipeline invariant |
| `ChatPipeline.DecideKeepsInv` | src/openmuse/web_chat.py:135-149 | so does any click, rightful or forged |
| `ChatPipeline.ApprovedRunKeepsInv` | src/openmuse/web_chat.py:148-149 | running the action of an approved row that has not run keeps it, spent tokens included |
| `ChatPipeline.RestartKeepsInv` | src/openmuse/approval_service.py:22-26 | so does a new process |
| `ChatPipeline.EveryEffectWasApproved` | src/openmuse/web_chat.py:106-170 | in every run each effect above a read has an approved row with its id, tool and arguments, no row has two effects, no denied, interrupted or undecided row has any, reads included, and every effect follows its intent |
| `ChatPipeline.ApprovalRunsTheAction` | src/openmuse/web_chat.py:135-149 | approving a shown card in time runs exactly its action, settles its row and removes the card |
| `ChatPipeline.RefusedExecutions` | src/openmuse/core.py:24-41 | an unknown tool, invalid arguments and a missing approval each leave their one record and nothing else |
| `ChatPipeline.ReadExecutions` | src/openmuse/core.py:42-53 | a read leaves intent, effect and outcome, less what the faults take away, and the reply that goes with it |
| `ChatPipeline.BlockedActionGetsCard` | src/openmuse/web_chat.py:115-126 | a proposal that needs approval ends the message with one open row for it and its card |
| `ChatPipeline.ReadLetsMessageGoOn` | src/openmuse/web_chat.py:115-129 | a read that completes lets the message go on; one that does not ends it |
| `ChatPipeline.IdleClicks` | src/openmuse/web_chat.py:135-139 | a click on no card, with a wrong session, or too late changes nothing |
| `ChatPipeline.DenialClosesCard` | src/openmuse/web_chat.py:135-147 | denying a shown card in time closes its row as denied and removes the card; nothing runs, no token is spent |
| `ChatPipeline.ClosedRowNeverRuns` | src/openmuse/web_chat.py:135-149 | the action of a denied or interrupted row never runs in any continuation |
| `ChatPipeline.DeniedActionNeverRuns` | src/openmuse/web_chat.py:135-147 | so a denied action never runs |
| `ChatPipeline.RestartForgets` | src/openmuse/web_chat.py:198-209 | a new process keeps rows and log, closes open rows, and knows no card and no spent token |
| `ChatPipeline.StatusLeavesPendingOnce` | src/openmuse/approval_service.py:19-43 | in every run rows are never lost or rewritten, and a status that left pending is final |
| `Memory.MemoryStore.Remember` | src/openmuse/memory.py:47-62 | adds the item and its log record as the specification says |
| `Memory.MemoryStore.Promote` | src/openmuse/memory.py:64-70 | changes the tier of the first item with that id and logs it, or refuses unchanged |
| `Memory.MemoryStore.Update` | src/openmuse/memory.py:93-112 | replaces content and provenance of a live item and logs the new digest; refuses tombstones and unknown ids unchanged |
| `Memory.MemoryStore.Forget` | src/openmuse/memory.py:114-122 | leaves a tombstone and logs it, or refuses unchanged |
| `Memory.AppliedExactly` | src/openmuse/memory.py:64-122 | what promote, update and forget do to the items and the log, field by field, and when they are refused |
| `Memory.RememberedExactly` | src/openmuse/memory.py:47-62 | what remember adds to the items and the log |
| `Memory.ForgettingErases` | src/openmuse/memory.py:114-122 | forgetting erases fact and source |
| `Memory.ForgottenStaysErased` | src/openmuse/memory.py:64-122 | whatever is done afterwards they stay erased |
| `Memory.ReplayAll` | src/openmuse/memory.py:160-179 | the loop over the log computes its replay |
| `Memory.VerifyMemory` | src/openmuse/memory.py:151-202 | passes exactly the reconciled files; its complaints are exactly those the items and the log give rise to |
| `Memory.ComplainedExactly` | src/openmuse/memory.py:182-199 | which complaint an item gives rise to, in terms of its fields and the replay |
| `Memory.LatestIsLast` | src/openmuse/memory.py:181 | of several items with one id the last counts |
| `Memory.OperationsReconcile` | src/openmuse/memory.py:47-202 | after any sequence of operations and foreign records the replay knows exactly the state of the store, and the store verifies |
| `Memory.ForeignFileIsJudgedByTheStore` | src/openmuse/memory.py:180-202 | any other file passes exactly when each id's last item is a written one with the content last written or a tombstone really made, and no forgotten id is missing |
| `Memory.DriftIsCaughtExactly` | src/openmuse/memory.py:189-199 | editing one live item behind the log's back is reported if and only if fact, source, time or tier changed |
| `HostEvents.ReplayStore.Consume` | src/openmuse/host_events.py:18-23 | accepts exactly ids without an unexpired row; a refusal changes nothing |
| `HostEvents.Verifier.Verify` | src/openmuse/host_events.py:34-40 | accepts exactly fresh, rightly signed, unseen events, and gives the right one of three refusals otherwise |
| `HostEvents.PurgeKeepsOpen` | src/openmuse/host_events.py:20-22 | after purging an id is refused exactly while some accepted event with it is still inside its window |
| `HostEvents.StepKeepsInv` | src/openmuse/host_events.py:18-40 | every event keeps: open events have rows, rows belong to accepted events, equal ids are a window apart |
| `HostEvents.NoReplay` | src/openmuse/host_events.py:18-40 | in any run with a monotone clock no (id, timestamp) is accepted twice, and an event is accepted exactly if it is neither too old nor too far in the future, signed and not open |
| `HostEvents.StoreStaysSmall` | src/openmuse/host_events.py:21 | an accepted event leaves only rows whose window has not closed |

## Left out

- Real SHA-256, HMAC, base64, hexadecimal spelling and uuids: digests are an inductive datatype, key fingerprints are injective, identifiers are handed in as new.
- Python value equality across types (`1 == True`, `1 == 1.0`), NaN and lone surrogates: JSON values are compared as a datatype.
- AuditChain.RedactIsExact: lower-casing is that of ASCII letters; other alphabets are not modelled.
- AuditChain.VerifyChain: an audit key store that is unavailable or corrupt during verification, and bytes that are no UTF-8, which the source also reports as failures, are not modelled; the keys a verifier can resolve are a map.
- AuditAnchor.CreateCheckpoint: its two reads of the file see the same lines. Line splitting at U+0085, U+2028 and U+2029, which `splitlines` does and the verifier does not, is excluded here and in module Memory.
- AuditFile.AuditLog.Append: the file is a sequence of characters, in which the digits of a digest or of a key id count as one unit, so a write that stops within them is taken to stop before them. UTF-8 encoding is not modelled; no other character of it contains the byte of a line break. The waits between attempts are left out.
- JsonRecord.ValueReadsBack: numbers are integers, and surrogate escapes are not read; the fields of equal dictionaries are written in one order per `Order`, which may be any.
- KeyringProtocol.EveryRunVerifies: stored credentials are not corrupted from outside, and all appends of the run are keyed; legacy records may only be there at its start.
- CurrentKey.AskersAgree: outside steady states two concurrent first creators may return different keys; resolvability of both is proved, agreement is not claimed.
- `FileAuditKeys` and the shared document store: a locked file, without the interleavings of the credential store.
- Cron.NextAfter: a zone is any function from UTC minutes to wall readings, so IANA data and unknown zone names are left out, as is the end of `datetime` at year 9999.
- FieldParser.ParseSchedule: starts from the blank-separated fields; `int` of digits that are not ASCII is not modelled.
- Scheduler.JobStore.Due: selected jobs are a set, their order by id is not modelled; instants are UTC microseconds from the first year on, so a `now` in another offset, whose text would not compare as a time, is left out, and the last run is kept as an instant rather than as text.
- LeaseRuns.NoMinuteIsCompletedTwice: runs are recorded no earlier than the minute that made them due; `LeaseRuns.EarlyRecordRepeatsMinute` shows what happens otherwise. The results about tokens do not ask for this.
- Grants.TestStrictlyNarrower: only the comparison of item sets raises on values that are not hashable.
- Delegation.DelegatedAuthority.Build: the audit record of a delegation, whose append can raise, is left out, here and in `Delegation.DelegatedAuthority.Narrow`.
- GrantLedger.QuotaIsConserved: tokens stand for their own digests, and each transaction of the ledger is one step; expiry, narrowing and the root authority only make redemptions fewer and are left open.
- Approvals.ApprovalAuthority.Verify: one-time use is per token string, as in the source, where one payload has several hexadecimal spellings; an expiry that is not a number, which `issue` never writes, is refused.
- Approvals.ApprovalService.Create: the identity and destination columns, which no decision reads, are left out.
- ChatSession.ChatHost.Handle: transcripts, channel, replies and the HTML of a card are left out; the planner's answers are arbitrary. The chat runs with writes disabled, as `build_session` sets it.
- ChatSession.ChatHost.Decide: the same replies and events are left out.
- ChatPipeline.EveryEffectWasApproved: tool calls end, by finishing or by raising; validation against a JSON schema is an arbitrary predicate of tool and arguments. `Agent.run` is the same loop without approvals.
- Memory.OperationsReconcile: every operation saves and logs, so a store without an audit log and a crash between saving and logging are left out; items dropped or un-deleted from outside are judged only as `Memory.ForeignFileIsJudgedByTheStore` says, since the source does not promise more.
- `MemoryStore.search` and `explain`: ranking is one library sort over a score and independent of the log; it would only add easy members.
- HostEvents.Verifier.Verify: the verifier and the store read the clock once, together.
- HTTP handlers, command line, OAuth, connectors, workers, Windows and POSIX file handles, checkpoint publishing and the tool registry: plumbing, foreign calls, or only easy claims.
- SQLite: each transaction is one atomic step; schema creation and column migration are left out.
