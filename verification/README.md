# SYNCRO: verified models of the client and gate logic

Dafny models of the parts of SYNCRO whose correctness depends on more than one function:
duplicate detection, the dependency gate, the audit event queue, commitment disclosure, CSV
export, undo, priority reordering, merchant de-duplication, the offline mutation queue and the
quota guard. `dafny verify dfyconfig.toml` checks everything.

## Layout

| file | models |
|---|---|
| `EditDistance.dfy` | the Levenshtein table, against scripts of single edits |
| `GreedyClusters.dfy` | the two clustering loops for any "same" test, and what they guarantee |
| `DuplicateDetection.dfy` | name normalisation, fuzzy match, `detectDuplicates` |
| `NameForms.dfy` | what normalising a name keeps and drops |
| `DuplicateCheck.dfy` | `checkForDuplicate`: one candidate against the list |
| `AuditGate.dfy` | the walk over advisory chains, the classification, the exit code |
| `AuditLog.dfy` | the audit queue: a transition system and the class that takes its steps |
| `Json.dfy`, `CanonicalJson.dfy` | `JSON.stringify` with a key list, and what its text determines |
| `CanonicalText.dfy` | that text as JSON: order of keys, shape, strings |
| `Bytes.dfy`, `AuditDisclosure.dfy` | byte encodings, commitments, producing and verifying packages |
| `CommitmentBytes.dfy` | the hashed bytes read back by each encoding's own rules; verdicts and errors |
| `Csv.dfy` | the CSV printer, and a reader for section 2 of RFC 4180 |
| `UndoHistory.dfy` | both undo hooks, against a two-stack editor |
| `PriorityOrder.dfy` | reordering a list through a filtered view |
| `Merchants.dfy` | text normalisation, similarity, the greedy filter |
| `MerchantForms.dfy` | the same told by the words of a name |
| `MutationQueue.dfy` | the offline mutation queue: one pass, and overlapping passes |
| `QuotaGuard.dfy` | the quota tracker over whole runs, and degraded mode |
| `Seqs.dfy`, `Text.dfy`, `Options.dfy` | sequences, white space, optional values |

Code that changes state step by step is a class or a method with loops, proved against a
specification function; the properties are lemmas about that function, over every input or every
run. Calls to the network, the database, localStorage, IndexedDB and the clock are steps with an
arbitrary outcome or parameters. SHA-256, AES decryption, the chain, and what Unicode contributes
to `Merchants.dfy`, are parameters.

## Where the code does not do what it is meant to do

Each of these is kept as the code has it, with the exact condition under which it is right.

- A subscription whose name normalises to `constructor` makes `detectDuplicates` throw, because
  `groups` is a plain object (`DetectDuplicates`, `InheritedKeyFails`).
- Fuzzy matching is not transitive, so the greedy clusters can separate two names that match. They
  group exactly the matching pairs iff the match is transitive on the names present
  (`GroupsExactIffTransitive`, `FuzzyMatchNotTransitive`).
- The gate calls `matchesWorkspace` outside its scope. The script then ends with an uncaught error
  whenever any allowlist entry has expired, also one for other workspaces. Its exit code is wrong
  exactly when the gate should pass and only entries for other workspaces have expired
  (`Gate`, `AsWrittenWrongIff`, `ExpiredElsewhere`). `docs/security/dependency-triage.md` lists expired
  entries once as blocking and once as informational; the code makes them blocking.
- Overlapping flushes can put audit events out of order: a flush keeps the order iff it ends in turn
  (`EndKeepsOrderIff`, `RunKeepsOrderIff`, `SecondFirst`). The server is given events more than once as soon as an answer
  is lost or an offline copy is synced, and only then (`DeliveredOnceIff`, `OfflineSyncSendsTwice`). A
  sync clears copies that were made after it read the store (`SyncSentAllIff`).
- The key list given to `JSON.stringify` drops nested keys that are not top-level keys, so a
  commitment does not cover them (`CanonicalForgetsUncovered`, `NestedKeyIsDropped`). The text
  determines what an event means iff no object is nested in it, in lists neither
  (`TextDeterminesIff`, `CommitmentBindsIff`): to any nested object a key can be added that the list
  does not show. Two events whose nested keys all are top-level keys do have the same text iff they
  mean the same (`CanonicalIffSameMeaning`).
- `verifyDisclosure` calls a package valid when the chain knows nothing about it (`VerdictOn`), and
  `generateDisclosure` does not compare the record with the hash on the chain
  (`GeneratedIsAcceptedIff`). In the source the chain query is a placeholder that finds nothing:
  that is the empty chain here.
- A cell that starts like a formula is not quoted, so one that also holds a comma, a quote or a line
  feed does not come back from the CSV (`RoundTripIff`). It is read as several fields, and the table
  is free of fields that start like a formula iff each cell, read on its own, is
  (`NoFieldReadsAsFormulaIff`). For a cell without quotes that is so iff none of its commas or line
  feeds is directly followed by a trigger (`QuoteFreeCellIff`, `FormulaBehindComma`).
- Without a render in between, a second call on `useUndoHistory` works with old values. A second
  addition loses the first, except where old and new array coincide (`StaleAddRightIff`,
  `TwoAddsInBounds`); it can also leave the index outside the array (`StaleAddInBoundsIff`,
  `TwoAddsInOneRender`). An undo or redo with old values goes to the right place and hands back the
  right state only under `StaleUndoRightIff` and `StaleRedoRightIff` (`StaleUndoAfterAdd`).
- Moving an item up and down again with the keyboard restores the visible list, but the whole list
  only if no hidden item stood between the neighbours (`KeyboardUpThenDown`). A drag does what it
  shows iff the list shown follows the stored order (`AlwaysExactIff`).
- A merchant name matches every other iff its normal form is empty, as it is for a name of signs that
  normalising drops: once it is kept, nothing behind it is (`MatchesAllIffEmptyForm`, `NothingKeptBehind`, `FirstTakesAllIff`).
- A name that ends in two plan words loses only the last one, so it is not grouped with the bare name
  (`OnlyOneSuffix`; a name and its variants with one suffix are: `PlanVariantsAreReported`).
- A mutation given up after three conflicts stays in the durable store: a queued mutation leaves the
  store iff a success of its own is followed by its deletion (`StoredIff`, `GivenUpStaysStored`).
- A tracker whose limit is not positive can bring about global degradation while no service is near
  its quota; with positive limits that cannot happen (`AlwaysBackedIff`).

## Model

| member | source | states |
|---|---|---|
| EditDistance.LevenshteinDistance | client/lib/duplicate-detection.ts:79-101 | the last cell of the table is the length of a shortest edit script: one of that length exists, none is shorter |
| EditDistance.DistanceIsLeast | client/lib/duplicate-detection.ts:79-101 | the recurrence of the table equals the least number of insertions, deletions and substitutions, for all strings |
| EditDistance.NoShorterScript | client/lib/duplicate-detection.ts:90-98 | every script of edits at arbitrary positions is at least as long as the distance |
| EditDistance.DistanceZeroIffEqual | client/lib/duplicate-detection.ts:79-101 | the distance is zero iff the strings are equal |
| EditDistance.DistanceSymmetric | client/lib/duplicate-detection.ts:79-101 | the distance does not depend on the order of the strings |
| EditDistance.TriangleInequality | client/lib/duplicate-detection.ts:79-101 | going through a third string is never shorter |
| EditDistance.DistanceBounds | client/lib/duplicate-detection.ts:79-101 | the distance lies between the difference of the lengths and the longer length |
| DuplicateDetection.NormalizeNameIdempotent | client/lib/duplicate-detection.ts:48-55 | a normalised name is its own normal form |
| DuplicateDetection.ComputeFuzzyMatch | client/lib/duplicate-detection.ts:63-76 | true iff the normal forms are equal or fewer than a fifth of the longer length of edits apart; the division is safe |
| DuplicateDetection.FuzzyMatchSymmetric | client/lib/duplicate-detection.ts:63-76 | the match is reflexive and symmetric |
| DuplicateDetection.FuzzyMatchOnKeys | client/lib/duplicate-detection.ts:63-65 | matching normalised keys is matching names |
| DuplicateDetection.FuzzyMatchNeedsLength | client/lib/duplicate-detection.ts:71-75 | different names match only from six characters on, and only if the lengths are within a fifth |
| DuplicateDetection.FuzzyMatchNotTransitive | client/lib/duplicate-detection.ts:63-76 | a family of names where two matches in a row do not make a third |
| DuplicateDetection.GroupByName | client/lib/duplicate-detection.ts:211-217 | the groups hold each normal form that occurs with its subscriptions in order; fails iff a name reads as an inherited key |
| DuplicateDetection.InheritedKeyFails | client/lib/duplicate-detection.ts:211-216 | a subscription named constructor makes the grouping fail |
| DuplicateDetection.Absorb | client/lib/duplicate-detection.ts:228-237 | one pass over all entries gathers the seed and exactly the unvisited names that match it |
| DuplicateDetection.MergeGroups | client/lib/duplicate-detection.ts:221-240 | both loops give the greedy clusters of two or more subscriptions |
| DuplicateDetection.DetectDuplicates | client/lib/duplicate-detection.ts:209-240 | throws iff a name reads as an inherited key; otherwise reports exactly the greedy clusters of at least two, for some order of the groups |
| NameForms.PlanSuffixIsDropped | client/lib/duplicate-detection.ts:48-55 | a name that ends in white space and a plan word, in any spelling, keeps the lowered letters and digits in front of it |
| NameForms.OtherNamesKeepAll | client/lib/duplicate-detection.ts:48-55 | every other name keeps all of its letters and digits, lowered, in order |
| NameForms.PlanVariantsAreReported | client/lib/duplicate-detection.ts:209-240 | two entries that differ by such a suffix only, or by their suffixes, are reported in one group |
| NameForms.OnlyOneSuffix | client/lib/duplicate-detection.ts:52 | of two plan words at the end only the last is dropped |
| GreedyClusters.ClustersPartition | client/lib/duplicate-detection.ts:224-240 | the clusters lose no key and repeat none |
| GreedyClusters.ClustersAreGreedy | client/lib/duplicate-detection.ts:224-240 | every key matches the seed of its cluster and no earlier seed |
| GreedyClusters.ExactIffTransitive | client/lib/duplicate-detection.ts:219-240 | clusters group exactly the matching pairs iff the test is transitive on the keys |
| DuplicateDetection.ClustersKeepEverything | client/lib/duplicate-detection.ts:209-240 | the clusters hold every subscription as often as the list does |
| DuplicateDetection.MembersFollowSeeds | client/lib/duplicate-detection.ts:224-237 | a member matches the first name of its own cluster and of no earlier one |
| DuplicateDetection.SameNameSameCluster | client/lib/duplicate-detection.ts:211-217 | equal normal forms are never in two clusters |
| DuplicateDetection.SameNameIsReported | client/lib/duplicate-detection.ts:209-240 | two entries with equal normal forms are reported in one group |
| DuplicateDetection.GroupsExactIffTransitive | client/lib/duplicate-detection.ts:219-240 | groups are exactly the matching pairs iff fuzzy matching is transitive on the names |
| DuplicateCheck.SignalsSymmetric | client/lib/duplicate-detection.ts:119-139 | each of two offers sees the other with the same signals |
| DuplicateCheck.SignalsAre | client/lib/duplicate-detection.ts:119-139 | when each signal is given: prices within a cent in one cycle; URLs that both parse, with one host but for www |
| DuplicateCheck.ConfidenceIs | client/lib/duplicate-detection.ts:148-158 | three signals are high, exactly two probable |
| DuplicateCheck.CheckForDuplicate | client/lib/duplicate-detection.ts:171-200 | reports exactly the listed subscriptions that agree on two signals, as often as listed, high ones first; its confidence is that of the best one |
| DuplicateCheck.EnteredTwice | client/lib/duplicate-detection.ts:171-264 | an offer entered again under a name with the same normal form, at its price, is warned about and then found by the scan |
| AuditGate.CollectGhsas | scripts/security-audit-gate.js:139-156 | on any graph, cyclic ones too, a call with a shared set returns exactly what is attached to the packages it newly visits, all reached from its own and closed under links |
| AuditGate.GhsasOf | scripts/security-audit-gate.js:164 | with a fresh set, exactly the ids attached to packages reachable through string links |
| AuditGate.Classify | scripts/security-audit-gate.js:163-222 | one finding goes to the one list that its severity, traceability and triage call for |
| AuditGate.ClassifyAll | scripts/security-audit-gate.js:158-222 | after the loop the lists are exactly the documented ones, each finding once |
| AuditGate.AppendExpired | scripts/security-audit-gate.js:224-233 | every expired entry for this workspace becomes a blocker |
| AuditGate.Gate | scripts/security-audit-gate.js:74-233 | passes iff every severe finding is triaged and no expired entry applies, and, as written, no entry at all has expired |
| AuditGate.PassesIff | scripts/security-audit-gate.js:274-278 | a report has no blockers iff the documented verdict is to pass |
| AuditGate.ShouldPassIff | scripts/security-audit-gate.js:139-233 | the verdict told from the records: each high or critical finding leads along links to an id whose entry names this workspace or none and expires today or later, and no such entry has expired |
| AuditGate.AsWrittenWrongIff | scripts/security-audit-gate.js:79-81 | the exit code of the script as written is wrong exactly when the gate should pass and an entry for other workspaces has expired |
| AuditGate.ExpiredElsewhere | scripts/security-audit-gate.js:79-81 | an empty audit and one expired entry for another workspace: such a case |
| AuditGate.TriagedThroughChain | scripts/security-audit-gate.js:188-206 | a finding whose chain contains a triaged finding is triaged |
| AuditGate.WritingEntryNeverBlocksIff | scripts/security-audit-gate.js:197-206 | writing an allowlist entry untriages no finding of any audit iff it does not withdraw its own id |
| AuditGate.AddingEntryAddsNoBlocker | scripts/security-audit-gate.js:203-218 | an unexpired entry with a new id adds no blocker |
| AuditLog.AuditLogger.constructor | client/lib/audit-log.ts:75-90 | starts empty with one running interval |
| AuditLog.AuditLogger.StartPeriodicFlush | client/lib/audit-log.ts:95-105 | replaces the interval in the field by a new one |
| AuditLog.AuditLogger.LogEntry | client/lib/audit-log.ts:110-137 | takes the logging step: newest first, capped, queued, and a flush at ten |
| AuditLog.AuditLogger.FlushAuditQueue | client/lib/audit-log.ts:154-166 | takes the step that moves the whole queue into a new flight |
| AuditLog.AuditLogger.FinishFlush | client/lib/audit-log.ts:168-203 | takes the step for each way a request ends, for any of the flights that are out |
| AuditLog.AuditLogger.StoreOfflineAuditLogs | client/lib/audit-log.ts:209-226 | keeps the last hundred of the copy and the batch, or nothing changes if the write fails |
| AuditLog.AuditLogger.FlushOfflineAuditLogs | client/lib/audit-log.ts:231-244 | takes the step that starts sending the offline copy |
| AuditLog.AuditLogger.FinishOfflineSync | client/lib/audit-log.ts:246-267 | clears the copy on success only |
| AuditLog.TenthEventFlushes | client/lib/audit-log.ts:110-149 | the tenth waiting event takes all ten into a flush; any other waits |
| AuditLog.FlushTakesAll | client/lib/audit-log.ts:154-166 | a flush takes all that waits and stops the interval |
| AuditLog.FlushEnds | client/lib/audit-log.ts:168-226 | where the batch goes for each end of a flush, and that a new interval runs |
| AuditLog.SyncSendsCopy | client/lib/audit-log.ts:231-268 | a sync sends the whole copy, and only a good answer clears it |
| AuditLog.EveryRunIsSafe | client/lib/audit-log.ts:110-268 | in every interleaving each event is held or received, never held more often than logged; how often the server gets it is logged minus held plus lost answers plus syncs |
| AuditLog.DeliveredOnceIff | client/lib/audit-log.ts:110-268 | each event is given to the server or still held exactly as often as logged iff no step of the run lost an answer or synced an offline copy |
| AuditLog.EveryRunKeepsTimerAndCopies | client/lib/audit-log.ts:95-226 | with no flush out exactly one interval runs; the offline copy is the last hundred copied since cleared; the log the last thousand |
| AuditLog.OfflineSyncSendsTwice | client/lib/audit-log.ts:188-264 | a run that loses no answer and still delivers one event twice |
| AuditLog.SyncSentAllIff | client/lib/audit-log.ts:231-264 | everything a successful sync clears was sent iff that holds of what was copied after it read the store; for new copies, iff there were none |
| AuditLog.EndKeepsOrderIff | client/lib/audit-log.ts:166-197 | with distinct events, the end of a flush keeps acknowledged, in flight and queued in logged order iff it comes in turn |
| AuditLog.RunKeepsOrderIff | client/lib/audit-log.ts:154-204 | a run of distinct events is in order after every step iff all of its flushes end in turn |
| AuditLog.SecondFirst | client/lib/audit-log.ts:154-204 | a run of two overlapping flushes that puts two events out of order |
| AuditLog.OrderlyRunKeepsOrder | client/lib/audit-log.ts:154-204 | every run whose flushes end in turn keeps the order |
| AuditLog.NonOverlappingRunKeepsOrder | client/lib/audit-log.ts:154-204 | every run without overlapping flushes keeps the order |
| Json.PrintUnique | client/lib/audit-disclosure.ts:148 | printed JSON can be read in one way only |
| CanonicalJson.CanonicalIffVisible | client/lib/audit-disclosure.ts:146-150 | two events have the same text iff the key list shows the same of them |
| CanonicalJson.CanonicalIffSameMeaning | client/lib/audit-disclosure.ts:146-150 | if nested keys are top-level keys too, the text is the same iff the events are, whatever the order of keys |
| CanonicalJson.FlatCanonicalIff | client/lib/audit-disclosure.ts:146-150 | for flat records the text determines the record and does not depend on insertion order |
| CanonicalJson.CanonicalForgetsUncovered | client/lib/audit-disclosure.ts:148 | every event has the text of its visible part, which means the same iff no nested key is missing at the top |
| CanonicalJson.TextDeterminesIff | client/lib/audit-disclosure.ts:146-150 | the text of an event determines what it means, among all events, iff no object is nested in it at any depth |
| CanonicalJson.NestedKeyIsDropped | client/lib/audit-disclosure.ts:148 | a nested value under a key of its own never reaches the text: two events of different meaning, one of them covered, with the same text |
| CanonicalText.CanonicalShape | client/lib/audit-disclosure.ts:146-150 | the text of an event has one member for each top-level key, in UTF-16 order, and so in every object inside |
| CanonicalText.FlatText | client/lib/audit-disclosure.ts:146-150 | the text of a flat record, member by member |
| CanonicalText.PrintedShape | client/lib/audit-disclosure.ts:148 | printed values: literals, and members and elements joined by commas |
| CanonicalText.QuoteReadsBack | client/lib/audit-disclosure.ts:148 | a printed string reads back by section 7 of RFC 8259 |
| Bytes.LittleEndianInjective | client/lib/audit-disclosure.ts:124-129 | eight little-endian bytes determine the length |
| Bytes.Utf8Injective | client/lib/audit-disclosure.ts:134-141 | UTF-8 bytes determine the text |
| Bytes.HexRoundTrip | client/lib/audit-disclosure.ts:257-260 | hexadecimal text decodes to the bytes it was made from |
| CommitmentBytes.ToHexAt | client/lib/audit-disclosure.ts:257-260 | two lower-case digits for each byte |
| CommitmentBytes.FromHexReads | client/lib/audit-disclosure.ts:326-330 | decoding takes pairs of digits of either case, up to the first that is none |
| AuditDisclosure.EncodeString | client/lib/audit-disclosure.ts:134-141 | fills a fresh buffer with length and text |
| AuditDisclosure.ComputeCommitment | client/lib/audit-disclosure.ts:165-182 | hashes text, blinding factor and domain separator, put together in one buffer |
| AuditDisclosure.BuffersEqual | client/lib/audit-disclosure.ts:549-557 | the XOR and OR loop returns true iff the buffers are equal |
| AuditDisclosure.PreimageUnique | client/lib/audit-disclosure.ts:165-182 | the hashed bytes determine the canonical text and the blinding factor |
| CommitmentBytes.PreimageLayout | client/lib/audit-disclosure.ts:118-182 | the hashed bytes, part by part: length in eight bytes, least significant first, text in UTF-8, blinding factor, SYNCRO_AUDIT_V1 |
| AuditDisclosure.GenerateDisclosure | client/lib/audit-disclosure.ts:215-268 | follows the specification of when a package is produced, with which error otherwise |
| AuditDisclosure.Generated | client/lib/audit-disclosure.ts:215-268 | a package is produced iff the record decrypts and hashes to what it records, a contract is configured and the chain knows the index; what verifying it hashes then gives its hash |
| CommitmentBytes.WhatIsGenerated | client/lib/audit-disclosure.ts:215-268 | each field of a produced package, and which error is given otherwise |
| AuditDisclosure.VerifyDisclosure | client/lib/audit-disclosure.ts:318-378 | returns the verdict of the specification |
| AuditDisclosure.VerdictOn | client/lib/audit-disclosure.ts:318-378 | matches on the chain iff hash, chain entry and index all agree; valid also if the chain knows nothing |
| CommitmentBytes.WhichVerdict | client/lib/audit-disclosure.ts:318-378 | the verdict is that of the first check that fails; the time is the chain's, in milliseconds |
| AuditDisclosure.GeneratedIsAcceptedIff | client/lib/audit-disclosure.ts:215-268 | a produced package is accepted iff the chain holds the recorded hash at its index |
| AuditDisclosure.AcceptedAgreeOrCollide | client/lib/audit-disclosure.ts:318-378 | two packages accepted at one index agree on text and blinding factor, or exhibit a hash collision |
| AuditDisclosure.AcceptedEventsAgreeOrCollide | client/lib/audit-disclosure.ts:318-378 | if no object is nested in the first event, whatever the second one is, they agree on what the events mean, or the bytes hashed for these two are a collision; so too if both are covered |
| AuditDisclosure.CommitmentBindsIff | client/lib/audit-disclosure.ts:146-182 | all packages accepted for one commitment that hash the same bytes mean the same event iff no object is nested in it |
| Csv.CellReadIff | client/lib/csv-utils.ts:13-30 | a printed cell is read back as meant iff it is not both formula-like and in need of quotes |
| Csv.RowReadIff | client/lib/csv-utils.ts:39-44 | a row and all below are read back iff all of their cells are safe and no row is empty |
| Csv.RoundTripIff | client/lib/csv-utils.ts:39-44 | the reader recovers headers and rows, apostrophes added, for exactly those tables |
| Csv.RecoveredIff | client/lib/csv-utils.ts:13-44 | cell for cell: headers and rows come back iff there are headers, no row is empty, and no cell led by = + - @ tab or CR holds a comma, line feed or quote |
| Csv.PrintedCell | client/lib/csv-utils.ts:13-30 | what is printed for each kind of cell |
| Csv.NothingLeadsWithTrigger | client/lib/csv-utils.ts:1-22 | no printed cell begins with = + - @ tab or CR |
| Csv.NoFieldReadsAsFormulaIff | client/lib/csv-utils.ts:1-44 | where no cell ends inside quotes of its own, the text is readable iff each cell is, and no field read starts like a formula iff none does in any cell read on its own |
| Csv.QuoteFreeCellIff | client/lib/csv-utils.ts:13-30 | a cell that is not trigger-led or holds no quote is readable, and harmless iff no separator in a trigger-led cell is directly followed by a trigger |
| Csv.QuoteFreeTableIff | client/lib/csv-utils.ts:39-44 | the same for whole tables of such cells |
| Csv.FormulaBehindComma | client/lib/csv-utils.ts:16-22 | a cell that is read as two fields, the second one a formula |
| UndoHistory.UndoManager.AddToHistory | client/hooks/use-undo-manager.ts:13-36 | on the array and the index, what adding does to the two stacks |
| UndoHistory.UndoManager.Undo | client/hooks/use-undo-manager.ts:38-46 | steps back and returns the state, or null at the oldest |
| UndoHistory.UndoManager.Redo | client/hooks/use-undo-manager.ts:48-56 | steps forward and returns the state, or null at the newest |
| UndoHistory.RenderedHistory.AddToHistory | client/hooks/use-undo-history.ts:46-70 | cuts at the rendered index and counts the other index up; after a render, what the editor does |
| UndoHistory.RenderedHistory.Undo | client/hooks/use-undo-history.ts:72-78 | at any time, steps back from the rendered index and reads the rendered array; after a render, what the editor does |
| UndoHistory.RenderedHistory.Redo | client/hooks/use-undo-history.ts:80-86 | at any time, steps forward from the rendered index; after a render, what the editor does |
| UndoHistory.AddRefines | client/hooks/use-undo-manager.ts:13-36 | cutting, pushing and bounding the array is adding to a past that forgets its oldest |
| UndoHistory.HooksAgree | client/hooks/use-undo-history.ts:46-70 | both hooks compute the same array and index when a render came in between |
| UndoHistory.RunRefines | client/hooks/use-undo-manager.ts:13-56 | every sequence of operations stays in bounds and does what the two-stack editor does |
| UndoHistory.StaleAddRightIff | client/hooks/use-undo-history.ts:46-70 | an addition with an old render is the right one iff the index has not moved, or both stand at the limit of an array of equal states |
| UndoHistory.StaleAddInBoundsIff | client/hooks/use-undo-history.ts:46-70 | exactly when such an addition keeps the index in the array |
| UndoHistory.TwoAddsInBounds | client/hooks/use-undo-history.ts:46-70 | two additions in one render that stay in the array and lose the first |
| UndoHistory.StaleUndoRightIff | client/hooks/use-undo-history.ts:72-78 | an undo with any old render goes to the right place and hands back the right state iff the index has not moved and the state to go to is the same |
| UndoHistory.StaleRedoRightIff | client/hooks/use-undo-history.ts:80-86 | the same for redo; at the newest state the render must have been at its newest too |
| UndoHistory.StaleUndoAfterAdd | client/hooks/use-undo-history.ts:46-78 | an addition at the limit, then a stale undo that goes to the right place and hands back the wrong state |
| UndoHistory.TwoAddsInOneRender | client/hooks/use-undo-history.ts:46-70 | two additions in one render leave the index outside |
| UndoHistory.RedoAfterUndo | client/hooks/use-undo-manager.ts:38-56 | undo and redo are inverse |
| UndoHistory.AddsThenUndos | client/hooks/use-undo-manager.ts:13-46 | fewer than N additions and as many undos restore the state, with the additions to redo; more stop at the oldest kept |
| PriorityOrder.NormalizePriorityOrder | client/lib/subscription-priority-order.ts:17-31 | the loop computes the normalised order |
| PriorityOrder.NormalizedIsExact | client/lib/subscription-priority-order.ts:16-31 | the result has exactly the subscriptions, keeps duplicate-freedom, and is stable |
| PriorityOrder.SavedOrderIsKept | client/lib/subscription-priority-order.ts:17-31 | saved ids that are still there come first, in saved order; then the others, each once, in the order of the subscriptions |
| PriorityOrder.ExactOrderIsFixed | client/lib/subscription-priority-order.ts:17-31 | an order of exactly the subscriptions is left as it is |
| PriorityOrder.MoveInView | client/hooks/use-subscription-priority-order.ts:96-100 | two splices on the whole order are one move on its view |
| PriorityOrder.MoveKeepsOthers | client/hooks/use-subscription-priority-order.ts:98-100 | a move is a permutation that leaves the order of all others alone |
| PriorityOrder.MoveAt | client/hooks/use-subscription-priority-order.ts:98-100 | where each element stands after a move |
| PriorityOrder.ReorderIsExact | client/hooks/use-subscription-priority-order.ts:84-107 | dragging in a view moves that element and nothing else |
| PriorityOrder.DragFromStored | client/hooks/use-subscription-priority-order.ts:84-107 | a drag from the stored order lands where it was dropped and keeps the order of all others |
| PriorityOrder.MissedDrag | client/hooks/use-subscription-priority-order.ts:88-94 | an index outside the list, or an empty id, moves and saves nothing |
| PriorityOrder.AlwaysExactIff | client/hooks/use-subscription-priority-order.ts:84-107 | every drag in a list is exact iff the list is a view of the order |
| PriorityOrder.UpThenDownInOrderIff | client/hooks/use-subscription-priority-order.ts:96-118 | up and down restores the whole order iff the two were neighbours in it |
| PriorityOrder.KeyboardUpThenDown | client/hooks/use-subscription-priority-order.ts:109-118 | up and down restores the view always, the order iff nothing hidden stood in between |
| PriorityOrder.SubscriptionPriorityOrder.ApplyReorder | client/hooks/use-subscription-priority-order.ts:84-107 | the new order, and what the timer will save; only normalised where an index misses |
| PriorityOrder.SubscriptionPriorityOrder.MoveByKeyboard | client/hooks/use-subscription-priority-order.ts:109-118 | a reorder to the neighbouring place, or nothing at the ends |
| Merchants.NormalizeTextIdempotent | backend/utils/merchant-normalizer.ts:112-121 | normalising twice is normalising once |
| Merchants.SimilarityBounds | backend/utils/merchant-normalizer.ts:226-242 | symmetric, within 0 and 1, and 1 for equal normal forms |
| Merchants.SimilarityOfNormalForms | backend/utils/merchant-normalizer.ts:209-214 | comparing normal forms, as the filter does, is comparing names |
| MerchantForms.FormIsJoinedWords | backend/utils/merchant-normalizer.ts:112-121 | the normal form is the words of the lowered name, joined by single blanks |
| MerchantForms.SimilarIff | backend/utils/merchant-normalizer.ts:226-242 | two names are similar iff the joined words agree, one is part of the other, or 17 of 20 different words are common |
| MerchantForms.KeptIff | backend/utils/merchant-normalizer.ts:193-224 | one more name is kept iff it is not empty and alike to none kept before |
| MerchantForms.ContainedIsDropped | backend/utils/merchant-normalizer.ts:208-231 | a name that contains a kept one, or is contained in it, is dropped |
| MerchantForms.SameWordsAreDropped | backend/utils/merchant-normalizer.ts:208-241 | the same words in another order are dropped |
| Merchants.DeduplicateMerchants | backend/utils/merchant-normalizer.ts:193-224 | the loops keep a name iff it is not empty and similar to none kept before |
| Merchants.KeptAreDistinct | backend/utils/merchant-normalizer.ts:193-224 | the result is a subsequence without empty names, pairwise below the threshold |
| Merchants.EveryNameIsCovered | backend/utils/merchant-normalizer.ts:193-224 | every name is similar to one kept no later; a dropped one to one kept earlier |
| Merchants.DeduplicateTwice | backend/utils/merchant-normalizer.ts:193-224 | running it twice changes nothing |
| Merchants.MatchesAllIffEmptyForm | backend/utils/merchant-normalizer.ts:226-242 | a name is similar to every other iff its normal form is empty |
| Merchants.NothingKeptBehind | backend/utils/merchant-normalizer.ts:203-221 | after a kept name with an empty normal form nothing is kept |
| Merchants.FirstTakesAllIff | backend/utils/merchant-normalizer.ts:203-231 | a first name swallows whatever follows iff its normal form is empty |
| MutationQueue.Queue.QueueMutation | client/hooks/use-mutation-queue.ts:73-95 | queued iff it could be stored |
| MutationQueue.Queue.ProcessQueue | client/hooks/use-mutation-queue.ts:105-168 | each mutation of the snapshot meets its own answer; survivors keep their order and distinct ids; only acknowledged ones leave the store |
| MutationQueue.LeftByPass | client/hooks/use-mutation-queue.ts:105-168 | a pass leaves exactly what met no answer, and with one attempt more what met its first or second conflict |
| MutationQueue.PassIsRun | client/hooks/use-mutation-queue.ts:105-168 | a pass is one run of the overlapping steps, so what holds of runs holds of it |
| MutationQueue.ThreePassesEmpty | client/hooks/use-mutation-queue.ts:142-159 | three passes answered with success or conflict only empty the queue |
| MutationQueue.EveryRunIsSafe | client/hooks/use-mutation-queue.ts:73-168 | with passes overlapping at will: survivors in queued order, attempts below three, gone only if acknowledged or refused three times, stored unless acknowledged |
| MutationQueue.WaitsIff | client/hooks/use-mutation-queue.ts:105-168 | in every run a queued mutation waits until a success of its own is settled or it has met three conflicts |
| MutationQueue.StoredIff | client/hooks/use-mutation-queue.ts:105-168 | in every run a queued mutation is in the store iff no success of its own was followed by its deletion |
| MutationQueue.GivenUpStaysStored | client/hooks/use-mutation-queue.ts:142-159 | three conflicts: no longer pending, and still stored |
| QuotaGuard.QuotaTracker.Consume | quota_guard/tracker.py:47-83 | the consuming step; exhausted iff all of the limit is used, or there is none, threshold iff that share of it is |
| QuotaGuard.QuotaTracker.RecordRemoteQuota | quota_guard/tracker.py:100-117 | takes limit and use from the remote numbers |
| QuotaGuard.QuotaTracker.CurrentStatus | quota_guard/tracker.py:119-129 | reports after resetting a window that has run out |
| QuotaGuard.UseIsBasePlusConsumed | quota_guard/tracker.py:40-135 | on every list of calls, use is the base of the last call that starts counting anew, plus the positive amounts consumed from that call on |
| QuotaGuard.CountedInThisWindow | quota_guard/tracker.py:40-135 | with a clock that never goes back, all of these amounts were consumed in the current window |
| QuotaGuard.LimitIsLastSync | quota_guard/tracker.py:100-117 | on every list of calls, the limit is the last positive total that the remote side gave |
| QuotaGuard.WindowIsAfter | quota_guard/tracker.py:40-45 | on every list of calls, when the window began |
| QuotaGuard.ThrottlesAreCounted | quota_guard/tracker.py:85-98 | on every list of calls, the throttle responses since the last reset |
| QuotaGuard.AlertFromBase | quota_guard/tracker.py:54-83 | on every list of calls, the alert of the last one follows from base, consumed total and limit |
| QuotaGuard.FirstAlertIff | quota_guard/tracker.py:54-83 | within one window, the call at which each alert first comes |
| QuotaGuard.AlertsOnlyEscalate | quota_guard/tracker.py:54-83 | within one window, without sync or reset, a later alert is never lower |
| QuotaGuard.Evaluate | quota_guard/degraded_mode.py:16-44 | degraded iff the pooled ratio reaches the threshold; services are exactly those throttled or nearly used up |
| QuotaGuard.PooledBetweenIndividual | quota_guard/degraded_mode.py:27-39 | with positive limits the pooled ratio lies between the smallest and the largest |
| QuotaGuard.AlwaysBackedIff | quota_guard/degraded_mode.py:27-39 | for any limits: degradation always has a service behind it iff all limits are positive or they sum up to nothing |
| QuotaGuard.OrderDoesNotMatter | quota_guard/degraded_mode.py:27-44 | verdict and services do not depend on the order of the trackers |

## Left out

- DuplicateDetection.DetectDuplicates: the order in which a plain object lists its keys is any order here, and the cost figures, price conflict and confidence of a group are not computed.
- DuplicateCheck.CheckForDuplicate: the comparator of the sort is inconsistent, so the language leaves its order open; the model sorts as meant, high confidence first. The host of a URL is a parameter, and prices are exact.
- `mergeSubscriptions` (client/lib/duplicate-detection.ts), which copies fields.
- EditDistance.LevenshteinDistance: characters are Unicode scalar values instead of UTF-16 units, which is the same on the normalised names it is given.
- AuditGate.CollectGhsas: the id of an advisory is a datum; the regular expression that reads it from a url, upper-casing, and the order in which ids are listed are not modelled. A via that is not a list is the empty list.
- AuditGate.Gate: loading and validating the allowlist, running npm, and the printed report.
- AuditLog: `clear`, `destroy`, use outside a browser, `getLogs`, and a stored copy that is not readable JSON.
- CanonicalJson.CanonicalIffSameMeaning: values are JSON values; `undefined`, functions, `toJSON` and keys found on a prototype do not occur. Numbers are the text JavaScript prints for them.
- AuditDisclosure: Merkle proofs (unfinished in the source), AES-GCM, the report texts, and reading packages from JSON.
- Csv.NoFieldReadsAsFormulaIff: tables in which a trigger-led cell ends inside quotes of its own, as `=,"` does. The field that begins there goes on into the next cells, so no condition on single cells decides what is read.
- Csv: `downloadCSV`, which touches the page. Section 2 of RFC 4180 keeps a bare CR out of unquoted fields; the reader here takes it as text. It takes a final line feed as the start of one more record, because the printer writes none.
- UndoHistory.RenderedHistory.AddToHistory: persisting to and restoring from localStorage. Each state updater runs once.
- PriorityOrder: loading preferences, and what happens when the debounce timer fires.
- Merchants: the table of merchant patterns and `normalizeMerchant`, which look names up. `toLowerCase` is any function whose results it leaves alone; where a name is shown not to match, it also leaves `&` and `.` alone.
- MutationQueue: the initial load from IndexedDB, the service worker message, and the online listener, which keeps the first render's empty queue.
- QuotaGuard: logging, and exceptions in the alert callback. Ratios are exact, not floating point.
