# Verification of the admissions backend

A model, in Dafny, of the parts of this backend whose correctness is not visible in any single function: the protocol that
stores private documents across a database and an object store, the money side of contracts, the crash-safe backup tool, the
binary checks of uploaded files, and the scheduling of experts. `dafny verify dfyconfig.toml` checks everything.

Code that changes rows step by step is modelled as classes and methods with loops (`DocumentService.Service`,
`ContractService.ContractRows`, `Payments.TransactionRepository`, `Consultations.ConsultationRepository`, `BackupTool.Tool`, the
file walkers and the summary loops). Each such method is proved against a function or predicate on values, and what the system
promises is then proved of those functions for every input, every run of steps or every crash point.

How the modules lean on each other:

- `Documents` and `DocumentStorage` give the compare-and-set writers and the storage protocol as atomic steps of any number of
  uploads; requests in flight may land late or never, and a process may stop anywhere. `DocumentService` shows that
  `persistPrivateFile` performs only such steps. `IntentClassifier` and `Observation` read the protocol's state as the observer
  does and derive what it can ever report.
- `InstallmentSchedule` splits a price; `ContractLifecycle` runs a contract through signing, confirmation and payment, and its
  invariant is what makes the conservation laws of `Finance` and `FinanceSummary` true. `ContractAcceptance` says, apart from the
  chains of tests that decide it, what is accepted and what is then written; `ContractService` is the code that writes the rows.
  `Payments` settles online payments and shows that they act on contracts only as the lifecycle's own step does.
- `BackupRetention` is the rule for keeping checkpoints, `BackupRule` counts what it keeps, and
  `BackupTool` is the tool that stops services, publishes and prunes.
- `Png`, `Jpeg` and `Docx` walk buffers of `Bytes`; `DocxLayout` writes the ZIP records out field by field, independently.
- `Calendar`, `Timezone`, `ExpertSchedule`, `AvailableSlots` and `Consultations` cover scheduling; `Sorting` holds the stable sort
  and interval lemmas that several modules share, `Packages` the slots of student packages, `Prelude` the common types.

Instants are integers in milliseconds, days are day numbers, instalments are whole tiyn and prices exact reals. Database
transactions are single atomic steps. Access checks are taken as passed. Text decoding, case folding, inflation, CRC, XML
parsing, collation and time-zone tables are functions the model is given and assumes nothing about.

Six findings about the code are stated as lemmas, each with an input and with the exact condition under which the code does meet
its property:

- Day keys are compared as strings. Over a range of less than a year, from the year 100 on, the loop visits exactly those days if and only if the
  first year and the year of the day after the range have equally many digits (`AvailableSlots.TurnsExact`, `RangeTurns`); on
  9999-12-31 it runs through almost ninety thousand years instead (`AvailableSlots.LastOfFourDigits`), and a range that crosses into a
  year of more digits is not visited at all.
- `Date.UTC` reads the years 0 to 99 as 1900 to 1999. The minute converted to is shown if and only if the year is none of those and
  the minute exists (`Timezone.ToUtcShowsTheMinute`; `TwoDigitYear` and `TwoDigitDate` say what comes out instead, `YearHundred` and
  `ConstantShows` what happens on the first of January 100, when the first candidate still lies in 99). The same reading moves a
  first due date (`InstallmentSchedule.FirstDueOnPaymentDay`).
- A wall-clock minute inside a gap of the local clock is converted to an instant that is off by the jump
  (`Timezone.ToUtcShowsTheMinute`, with the minute of `Timezone.GapMinute`).
- The observer, reading intents and references at different moments, does report `REFERENCED_OBJECT` in one harmless case
  (`IntentClassifier.TwoSnapshots`, `CommitBetweenReads`).
- The object store's client repeats a put that it takes for lost. Once an intent is CLEANED its object stays away if and only if
  it is away and no attempt to put it is still in flight (`DocumentStorage.CleanedForGood`); otherwise it can come back
  under a row that is diagnosed as terminal (`IntentClassifier.LatePut`).
- A ZIP data descriptor without signature is told from one with a signature by its first number. An entry is read back as it was
  written if and only if its CRC is not that signature (`DocxLayout.ReadIffWritten`, `WrittenIsRead`).

## Model

| member | source | states |
|---|---|---|
| DocumentStorage.StepKeeps | src/modules/document/service/document.service.ts:66-144 | every atomic step of every upload, of compensation and of the document writers keeps the protocol's invariant and undoes no commit or cleaning |
| DocumentStorage.RunKeeps | src/modules/document/service/document.service.ts:66-144 | the same over any interleaving of any number of uploads, late answers and crashes |
| DocumentStorage.EveryFileExists | src/modules/document/service/document.service.ts:66-144 | in every reachable state each stored object has a durable intent, and every document with a file key, archived ones included, names an existing object whose intent committed for its own portrait |
| DocumentStorage.IntentBeforeObject | src/common/utils/minio/student-document-storage.service.ts:109-128 | whatever step makes an object appear, its intent was durable before and has not committed; unless a put of it was repeated, it is pending |
| DocumentStorage.CommittedForGood | src/modules/document/service/document-storage-recovery.service.ts:43-76 | a key that committed stays committed and its object is never deleted |
| DocumentStorage.CleanedForGood | src/modules/document/service/document-storage-recovery.service.ts:50-76 | once an intent is CLEANED it stays so and unreferenced, and its object absent in every later state if and only if it is absent and no attempt to put it is in flight, which only a repeated put can leave |
| DocumentStorage.SnapshotNamesOneState | src/modules/document/repository/document-snapshot.ts:5-27 | a row that shows the same (version, updatedAt) at two moments did not change between them; every change raises updatedAt and none follows archiving |
| DocumentStorage.StaleWritesNeverLand | src/modules/document/repository/document.repository.ts:21-103 | a new version, a submission or a staff edit against a row read earlier succeeds only if the row still is exactly that row |
| DocumentStorage.ReviewedAsSubmitted | src/modules/document/service/document.service.ts:344-406 | a document past DRAFT, an approved one in particular, has kept the version and file key it had when it was last submitted |
| DocumentService.Service.UploadPrivateDocument | src/common/utils/minio/student-document-storage.service.ts:109-128 | bucket check, intent, put with the client's retries: what each failure, also of an intent that never becomes durable, leaves behind, as a run of protocol steps |
| DocumentService.Service.Transaction | src/modules/document/service/document.service.ts:100-136 | a rollback is proven exactly when the callback rejects; otherwise document and intent change together or not at all |
| DocumentService.Service.Compensate | src/modules/document/service/document-storage-recovery.service.ts:50-76 | nothing without a proven rollback; the object is deleted only when the intent is still open and no document names the file |
| DocumentService.Service.PersistPrivateFile | src/modules/document/service/document.service.ts:66-144 | every outcome is a run of the protocol; success means that exactly the requested document is written, field by field, its file stored and its intent committed for it, and nothing else is ever written; with good answers a creation succeeds, and a new version exactly on the very row that was read; a refused write with working cleanup leaves only its closed journal entry |
| DocumentService.Service.SubmitDocument | src/modules/document/service/document.service.ts:344-365 | keeps the protocol's invariant; only a live draft goes to review, with the file and version that were read, and a row seen at an earlier moment goes only if it is unchanged; feedback and everything else stay and updatedAt rises; the row as read is submitted exactly when it is a live draft |
| DocumentService.Service.ReviewDocument | src/modules/document/service/document.service.ts:367-406 | keeps the protocol's invariant; a live document in review gets the verdict, and the feedback if there is one, and keeps file, version, title and owner, exactly then and never with a conflict |
| DocumentService.Service.StaffMetadataMutation | src/modules/document/service/document.service.ts:247-281 | keeps the protocol's invariant; written exactly when the caller saw the live row as it is, and then only the title or the time of archiving and a newer timestamp; archiving an archived row is answered without a write |
| IntentClassifier.JournalRowValid | src/modules/document/observation/document-intent-classifier.ts:43-61 | every intent row of every reachable state passes validIntent and carries its state |
| IntentClassifier.CategoriesExactly | src/modules/document/observation/document-intent-classifier.ts:63-85 | for a row of any origin, when exactly it falls in each of the nine categories |
| IntentClassifier.ClassifyJournalRow | src/modules/document/observation/document-intent-classifier.ts:63-85 | the classifier's chain of tests gives, for a row of the journal, the diagnosis from its state, age and whether its file is referenced |
| IntentClassifier.TwoSnapshots | src/modules/document/observation/document-intent-classifier.ts:63-85 | read in two snapshots of any run, a row is never MALFORMED_INTENT or MANUAL_REVIEW_REQUIRED; REFERENCED_OBJECT means it was pending and has committed since |
| IntentClassifier.OneSnapshot | src/modules/document/observation/document-intent-classifier.ts:63-85 | read in one snapshot REFERENCED_OBJECT is impossible too, and every unreferenced stored object falls in an unresolved category, unless its intent is CLEANED and its put was repeated |
| IntentClassifier.CommitBetweenReads | src/modules/document/observation/document-intent-classifier.ts:63-85 | a concrete run in which a commit between the two reads does give REFERENCED_OBJECT |
| IntentClassifier.LatePut | src/modules/document/observation/document-intent-classifier.ts:63-85 | a concrete run in which a repeated put lands after the clean-up: the object is stored again and its row is CLEANED_TERMINAL |
| Observation.ProjectionKeepsValidity | src/modules/document/observation/document-observation.repository.ts:108-119 | the projected details of a candidate are valid exactly when the SQL predicate says the full ones are |
| Observation.ObserverAgreesWithSummary | src/modules/document/observation/document-observation.repository.ts:39-57 | for every technical row, being in neither settled category and being counted as unresolved by the SQL are the same |
| Observation.SweepVisitsOnce | src/modules/document/observation/document-observation.repository.ts:108-119 | on an unchanging journal, following the cursor visits each row ahead of it exactly once, in order, in pages of at most the limit |
| Observation.SweepMatchesSummary | src/modules/document/observation/document-observation.repository.ts:39-57 | a full sweep's total less COMMITTED_REFERENCED and CLEANED_TERMINAL equals the SQL's unresolved count |
| Observation.ChunkBounds | src/modules/document/observation/document-observation.service.ts:9-38 | the chunk size gives at most concurrency lanes, none empty, that just cover the page |
| Observation.Chunks | src/modules/document/observation/document-observation.service.ts:9-38 | the lanes, in order, are the page, at most concurrency of them |
| Observation.Observe | src/modules/document/observation/document-observation.service.ts:9-38 | bounds are refused exactly as stated; otherwise every category's tally and the next cursor are those of the page |
| InstallmentSchedule.PlanConservesPrice | src/modules/contract/domain/manual-contract.ts:52-70 | the plan adds up to the price to the tiyn; amounts are positive, fall by at most one tiyn and never rise |
| InstallmentSchedule.SplitIsUnique | src/modules/contract/domain/manual-contract.ts:60-67 | any amounts that fall by at most a tiyn and add up to the total are the plan's amounts |
| InstallmentSchedule.DueDateInMonth | src/modules/contract/domain/manual-contract.ts:64-68 | instalment i is due in the i-th month after the first, on the original day or on the last day of a shorter month |
| InstallmentSchedule.DueDatesIncrease | src/modules/contract/domain/manual-contract.ts:52-70 | due dates strictly increase and fall in consecutive months, across year ends and leap years |
| InstallmentSchedule.FirstDueOnPaymentDay | src/modules/contract/domain/manual-contract.ts:52-70 | the first due date is the payment date if and only if its year is not read as a two-digit year |
| InstallmentSchedule.AcceptedTermsHavePlan | src/modules/contract/domain/manual-contract.ts:8-41 | accepted terms have a plan exactly when the price is a whole, large enough and exactly representable number of tiyn; new contracts always do |
| ContractAcceptance.TermsExactly | src/modules/contract/domain/manual-contract.ts:8-41 | terms are accepted exactly for a paid tier, an allowed price and currency, and one payment in full or an explicit count within its limit |
| ContractLifecycle.RunKeeps | src/modules/contract/domain/manual-contract-confirmation.ts:31-122 | over every run a manually confirmed contract carries the plan of its price, paid in order without gaps, and is PAID, dated by the last payment, exactly when all of it is paid |
| ContractLifecycle.TermsFrozen | src/modules/contract/service/manual-contract.service.ts:18-76 | after manual confirmation price, terms, plan and signatures never change and a recorded payment stays recorded |
| ContractLifecycle.SignedTermsKept | src/modules/contract/repository/contract.repository.ts:219-242 | from the student's signature on, however given, no run changes price, currency, tier, payment type or count |
| ContractLifecycle.EditsAreTerms | src/modules/contract/repository/contract.repository.ts:202-244 | an edit touches only the terms of an unsigned contract and leaves terms a new contract may have |
| ContractLifecycle.BothSigned | src/modules/contract/repository/contract.repository.ts:118-189 | a lead's contract signed by both in turn was signed by the lead's expert and carries both times |
| ContractLifecycle.PaidIsFinal | src/modules/contract/repository/contract.repository.ts:202-263 | a paid contract never changes again, whatever is attempted |
| ContractLifecycle.ConfirmationReplays | src/modules/contract/domain/manual-contract-confirmation.ts:33-44 | an accepted confirmation repeated at any later point of any run is accepted and changes nothing |
| ContractLifecycle.InstallmentReplays | src/modules/contract/service/manual-contract.service.ts:39-52 | the same for a confirmed instalment |
| ContractLifecycle.ExactlyTheNextIsPayable | src/modules/contract/service/manual-contract.service.ts:39-72 | with k instalments paid a confirmation changes the contract if and only if it names instalment k + 1, its amount, and a time neither in the future nor before the last payment |
| ContractLifecycle.SlotsExactlyOnce | src/modules/contract/repository/contract.repository.ts:135-189 | for a contract that came from a lead, any interleaving of signatures, confirmations, replays and changes elsewhere adds the tier's slots exactly once if it ends signed or paid, and none before |
| ContractLifecycle.FinalisedForOneExpert | src/modules/contract/domain/manual-contract-confirmation.ts:55-84 | the finalising step gives the whole grant to one expert with a profile, who becomes the student's, leaves other packages alone, sets the subscription and converts the lead |
| ContractAcceptance.ConfirmedWhen | src/modules/contract/domain/manual-contract-confirmation.ts:31-65 | a first confirmation is accepted if and only if state, benefits of a signed contract, lead, signature, expert, terms and plan allow it and the reported amount is the first instalment |
| ContractAcceptance.ConfirmWrites | src/modules/contract/domain/manual-contract-confirmation.ts:55-122 | the plan with its first instalment paid then, terms, signatures and signer, the converted lead and, unless it had been signed before, the subscription and the slots of exactly the right expert |
| ContractAcceptance.RepeatsExactly | src/modules/contract/domain/manual-contract-confirmation.ts:33-44 | a repeated confirmation is accepted if and only if it names the payment, its amount and the signature on record |
| ContractAcceptance.StudentSignsExactly | src/modules/contract/repository/contract.repository.ts:135-189 | accepted if and only if the contract waits for it, the code is valid and a lead is ready; what is then written |
| ContractAcceptance.EditsExactly | src/modules/contract/repository/contract.repository.ts:202-244 | accepted if and only if nothing final is signed, the dates are in order and the terms it leads to are acceptable; these are written |
| ContractAcceptance.InstallmentsExactly | src/modules/contract/service/manual-contract.service.ts:39-72 | accepted if and only if it is the next instalment or repeats one on record |
| ContractService.ContractRows.SignAsExpert | src/modules/contract/repository/contract.repository.ts:118-133 | succeeds exactly on a contract waiting for the expert, recording who and when and nothing else; keeps the invariant, and what confirmation, signature or full payment fixed |
| ContractService.ContractRows.SignAsStudent | src/modules/contract/repository/contract.repository.ts:135-189 | accepted exactly as it may be; a lead's contract ends signed by the lead's expert, who has a profile and becomes the student's, with the lead converted and exactly that expert's package gaining the tier's slots; or nothing changes |
| ContractService.ContractRows.RecordManualSignature | src/modules/contract/service/manual-contract.service.ts:24-37 | succeeds exactly for a time not in the future on a contract neither final nor confirmed, and sets that time only; fixed terms stay |
| ContractService.ContractRows.ConfirmManualContract | src/modules/contract/domain/manual-contract-confirmation.ts:31-122 | accepted if and only if it may be, for exactly the first instalment at the time reported; the ordered writes amount to one step that leaves a final contract with the plan of its price, and grants its slots at most once; a repeated confirmation changes nothing |
| ContractService.ContractRows.ConfirmOneInstallment | src/modules/contract/service/manual-contract.service.ts:39-76 | with k instalments paid it changes the contract exactly for instalment k + 1, its amount and a time between the last payment and now; that instalment is then on record as paid at that time, and the contract is PAID exactly when it was the last; repeats of recorded payments, and only those, are accepted besides |
| ContractService.ContractRows.EditMeta | src/modules/contract/repository/contract.repository.ts:202-244 | accepted exactly before any final signature with acceptable terms, which are written; changes nothing else, and leaves a listed price in tenge and a count and type a new contract may have |
| ContractService.ContractRows.MarkPaidForStudent | src/modules/contract/repository/contract.repository.ts:257-263 | counts exactly the change of a signed contract without manual confirmation or terms; anything paid or confirmed by hand stays as it is |
| Packages.GrantAdds | src/modules/contract/repository/contract.repository.ts:176-183 | a grant adds its slots to the total and changes no other package |
| Packages.GrantGains | src/modules/contract/repository/contract.repository.ts:176-183 | exactly the named package gains the slots, or starts with them unused |
| Finance.MappedAmounts | src/modules/admin/finance.service.ts:39-69 | in every reachable state paid and remaining add up to the price; a paid contract is received in full, an unsigned one not at all, a confirmed unpaid one exactly the instalments paid so far |
| Finance.MoneySummary | src/modules/admin/finance.service.ts:263-290 | one entry per currency in collation order with that currency's sums, and headline figures only for a single currency |
| Finance.HeadlineMeans | src/modules/admin/finance.service.ts:282-289 | the headline is left out if and only if two currencies occur, names the currency if and only if exactly one does, and is then the sum of all rows, and zero without rows |
| FinanceSummary.GroupThenFold | src/modules/admin/finance.service.ts:145-208 | folding the grouped rows of everyone, of an expert or of no signer gives the direct fold over those contracts |
| FinanceSummary.SummaryBalances | src/modules/admin/finance.service.ts:145-208 | in every reachable ledger, per currency and for the whole or any expert: signed equals paid plus signed and unpaid |
| FinanceSummary.ExpertsAddUp | src/modules/admin/finance.service.ts:175-206 | the listed experts' figures and those without a signer add up to the whole, since unlisted signers have nothing signed or received |
| FinanceSummary.EarningsAddUp | src/modules/admin/finance.service.ts:175-206 | the same for the figures folded from the grouped rows |
| FinanceSummary.CountsAreOfContracts | src/modules/admin/finance.service.ts:188-206 | the counts summed from rows are the numbers of contracts in those states |
| FinanceSummary.EarningsAgree | src/modules/admin/finance-earnings.query.ts:4-24 | the expert's own query and the expert's part of the summary show the same currencies with the same figures, and the same summary when collation tells currencies apart |
| FinanceSummary.TotalIsOfExpert | src/modules/admin/finance.service.ts:210-263 | the counts of an expert's currencies add up to the number of contracts the expert signed, the total that is paged |
| FinanceSummary.SignersOfRows | src/modules/admin/finance.service.ts:195 | the experts with contracts are the users who signed some contract of the ledger |
| FinanceSummary.GetSummary | src/modules/admin/finance.service.ts:145-208 | the summary, the counts, the number of experts with contracts, and an entry for exactly the experts who signed something, each the summary of that expert's rows |
| Payments.HistorySound | src/modules/billing/repository/payment.repository.ts:34-88 | over every history of receipts no two orders share a provider payment, a reference once set and a success once reached stay, and each order's payment is recorded at most once |
| Payments.SettledOnce | src/modules/billing/repository/payment.repository.ts:41-51 | an accepted receipt is accepted again at any later time without effect, and no other order is ever settled with that payment |
| Payments.AcceptedMatches | src/modules/billing/repository/payment.repository.ts:40-53 | an accepted receipt has its order's amount and currency, and neither side belongs to another payment |
| Payments.AcceptedExactly | src/modules/billing/repository/payment.repository.ts:40-65 | a receipt is accepted if and only if amount, currency and references match, and the order had succeeded, or is pending or failed, of an available student who pays by hand or has a signed contract, a portrait and ordered a paid tier |
| Payments.SettlementWrites | src/modules/billing/repository/payment.repository.ts:47-86 | it then marks exactly this order, and otherwise exactly the student's subscription, for a mentor's tier the balance, the package of the student's expert and the contracts that only wait for payment |
| Payments.RecordedPayment | src/modules/billing/repository/payment.repository.ts:54-87 | a recorded payment sets the student's subscription only, pays all the student's signed contracts that await it, and needs a signed contract and a paid tier |
| Payments.ManualUntouched | src/modules/billing/repository/payment.repository.ts:54-76 | no contract paid by hand is touched, others only change from SIGNED to PAID as the lifecycle allows, and a student with a manual contract gets nothing from the gateway |
| Payments.GrantedAtMostOnce | src/modules/billing/repository/payment.repository.ts:47-86 | over any history the receipts for an order add its tier's slots at most once, and none if it had already succeeded |
| Payments.TransactionRepository.SettleFreedomPayment | src/modules/billing/repository/payment.repository.ts:34-88 | succeeds if and only if the receipt is acceptable, and then writes exactly the order, the student's tier and the waiting contracts; otherwise it changes nothing |
| BackupRetention.KeepBetween | deployment/backup/oxus_backup.py:533-546 | removing any of the checkpoints that are not kept, some or all, does not change which are kept |
| BackupRetention.KeepWithNewer | deployment/backup/oxus_backup.py:495-504 | a newer checkpoint is kept and brings none of the dropped ones back |
| BackupRetention.KeepAtMostEight | deployment/backup/oxus_backup.py:495-504 | never more than eight are kept |
| BackupRule.KeptExactly | deployment/backup/oxus_backup.py:495-504 | kept are the latest of every date while there are at most seven dates, the latest of exactly the seven most recent when there are more, and the latest of a Sunday if there is one |
| BackupRule.SundaysAre | deployment/backup/oxus_backup.py:501 | a date counts as a Sunday if and only if it is a whole number of weeks from Sunday, 7 January 2024 |
| BackupRetention.IncrementalIsFull | deployment/backup/oxus_backup.py:533-546 | pruning after every backup leaves exactly what the rule keeps of all backups ever made, even if earlier pruning was interrupted |
| BackupRetention.RetentionKeep | deployment/backup/oxus_backup.py:495-504 | the sort, the dict and the loops compute the names of the latest of each of the seven latest dates and of the latest Sunday |
| BackupTool.Tool.SaveState | deployment/backup/oxus_backup.py:433-435 | wherever it stops, every service owed is still covered by the journal on disk, which is never ahead of the operation record |
| BackupTool.Tool.Resume | deployment/backup/oxus_backup.py:438-468 | the active journal goes away only when every service is up, the stopped ones and the databases were seen healthy and the record says resumed; every other outcome keeps them covered; a resumption nothing interferes with completes |
| BackupTool.Tool.Recover | deployment/backup/oxus_backup.py:688-703 | from any state a crash can leave, recovery ends with all services up or with the journal still covering them, and with the former when nothing interferes |
| BackupTool.Tool.ClearTrash | deployment/backup/oxus_backup.py:507-530 | a leftover is never found unrecognisable, however far an interrupted attempt got, stays a leftover at every stop, and is gone after an attempt nothing interferes with |
| BackupTool.Tool.Prune | deployment/backup/oxus_backup.py:533-546 | the newest checkpoint is always retained; on success exactly the kept ones of all ever made remain, at most eight, and the trash is empty; after any interruption every kept one is still there; pruning that nothing interferes with succeeds |
| BackupTool.Tool.RunBackup | deployment/backup/oxus_backup.py:549-685 | at every crash or exception: stopped services are covered, snapshots are whole, kept checkpoints present; on success all services are up, the journal is gone and retention is exact; both stops are on record and every copy was taken with only the databases up, the configuration before and the compression after with everything up; without an earlier journal, a run nothing interferes with succeeds, and one that only fails while copying still brings every service back; the backend never runs without its object store |
| BackupTool.PublishKeeps | deployment/backup/oxus_backup.py:674-677 | publishing a whole, newer checkpoint keeps the directories sound |
| Png.AcceptsPng | src/common/utils/minio/student-document-file.ts:33-50 | the walk accepts exactly the signature followed by the encoding of a well-formed chunk list |
| Png.DecodeOfEncode | src/common/utils/minio/student-document-file.ts:33-50 | reading the encoding of chunks gives those chunks |
| Png.EncodeOfDecode | src/common/utils/minio/student-document-file.ts:33-50 | writing the chunks read gives the bytes read |
| Png.ValidPng | src/common/utils/minio/student-document-file.ts:33-50 | the loop returns true exactly for such a buffer |
| Jpeg.AcceptsJpeg | src/common/utils/minio/student-document-file.ts:52-71 | the walk accepts exactly a start marker, segments with a frame up to a scan header, a non-empty scan and an end marker |
| Jpeg.ValidJpeg | src/common/utils/minio/student-document-file.ts:52-71 | the loops return true exactly for such a buffer |
| Docx.AcceptedAreFields | src/common/utils/minio/student-document-docx.ts:8-18 | an accepted extra block is a list of whole fields without a ZIP64 field |
| Docx.FieldsAreAccepted | src/common/utils/minio/student-document-docx.ts:8-18 | and every such list is accepted |
| Docx.IsValidStudentDocumentDocx | src/common/utils/minio/student-document-docx.ts:30-120 | true exactly when the bytes are a package: a last end record, entries read one after another, sizes, names and tiling as required, every XML part within its limits and parsed in order, and the main parts as the word check wants them |
| Docx.PackageExactly | src/common/utils/minio/student-document-docx.ts:30-120 | the same without the walk: entries read in turn through the directory, different names, a bounded size, local records that divide the bytes before it, acceptable XML parts |
| Docx.XmlExact | src/common/utils/minio/student-document-docx.ts:66-112 | the walk's budget and parsing succeed if and only if each XML part is small enough, all together are, each parses given the elements of those before it, and exactly the main parts that occur are looked at |
| Docx.TiledExactly | src/common/utils/minio/student-document-docx.ts:114-116 | comparing neighbours in the order of their starts finds exactly the lists of records without overlap, gap or reach outside |
| Docx.PartsAreSplit | src/common/utils/minio/student-document-docx.ts:20-27 | a name has a part exactly when splitting it at its slashes gives that part |
| Docx.FlagsExactly | src/common/utils/minio/student-document-docx.ts:63 | only flag bits 1, 2, 3 and 11 may be set |
| Docx.EveryByteOnce | src/common/utils/minio/student-document-docx.ts:48-116 | in an accepted package every byte before the directory belongs to exactly one entry's local record, every byte of it to exactly one central record, and the end record reaches the last byte |
| Docx.LocalsApart | src/common/utils/minio/student-document-docx.ts:114-116 | the local records of different entries never overlap, whatever order they are in |
| Docx.CentralsChained | src/common/utils/minio/student-document-docx.ts:48-113 | the central records tile the directory from its start to the end record |
| DocxLayout.EntryIsWritten | src/common/utils/minio/student-document-docx.ts:48-110 | an accepted entry's bytes are a central record and an agreeing local record written in the format's field order, with versions, flags, packed data, size and CRC as required, and with a descriptor whose numbers, or zeros, are in the local record too |
| DocxLayout.WrittenIsRead | src/common/utils/minio/student-document-docx.ts:48-110 | an entry so written is read back whole, if and only if its descriptor is not one without signature whose CRC is the signature |
| DocxLayout.ReadIffWritten | src/common/utils/minio/student-document-docx.ts:48-110 | an entry is read exactly when it is unambiguously so written within its bounds |
| Timezone.ZonedLocalToUtc | src/common/helpers/timezone.ts:51-66 | the loop with its early stop computes four corrections |
| Timezone.ToUtcShowsTheMinute | src/common/helpers/timezone.ts:51-66 | around at most one change of offset the result shows the wanted minute if and only if the year is none of 0 to 99 and some instant shows it; in a gap it is off by the jump, and for a two-digit year it lies in 1899 or later |
| Timezone.TwoDigitYear | src/common/helpers/timezone.ts:51-66 | whatever the zone, a date of the years 0 to 99 is converted to an instant of 1899 or later |
| Timezone.TwoDigitDate | src/common/helpers/timezone.ts:51-66 | the first of January 50 becomes that of 1950 |
| Timezone.GapMinute | src/common/helpers/timezone.ts:51-66 | a zone and a minute that no instant shows, and the minute an hour later that is shown instead |
| Timezone.YearHundred | src/common/helpers/timezone.ts:51-66 | west of UTC the corrections on the first of January 100 end in a wrong year, shown as 13708 |
| Timezone.ConstantShows | src/common/helpers/timezone.ts:51-66 | at a constant offset the result shows the given date and minute if and only if that wall time, and the first candidate's, are of the year 100 or later |
| Timezone.ConstantOffset | src/common/helpers/timezone.ts:51-66 | there the result is the wall time less the offset, with the given parts, also for a minute past the end of the day |
| Timezone.PartsInverse | src/common/helpers/timezone.ts:19-66 | converting the parts of a whole minute gives that instant back if and only if the same holds of its wall time |
| Calendar.DayOfCivil | src/common/helpers/timezone.ts:72-79 | the date read from a day number is the date of exactly that day |
| Calendar.MonthStep | src/modules/contract/domain/manual-contract.ts:63-67 | months follow each other without gap or overlap |
| ExpertSchedule.ValidateScheduleItems | src/modules/expert-schedule/service/expert-schedule.service.ts:34-64 | a schedule is accepted exactly when every item runs forward and no two items of one weekday overlap |
| ExpertSchedule.DayByDay | src/modules/expert-schedule/service/expert-schedule.service.ts:52-63 | checking weekday by weekday is checking all pairs of one weekday |
| ExpertSchedule.ApartShare | src/modules/expert-schedule/service/expert-schedule.service.ts:52-63 | items are apart on their weekday exactly when no minute belongs to two of them |
| AvailableSlots.FetchLosesNothing | src/modules/expert-schedule/service/expert-schedule.service.ts:126-161 | a slot inside the range is booked by the fetched bookings exactly when it is by all |
| AvailableSlots.BookedShares | src/modules/expert-schedule/service/expert-schedule.service.ts:161-162 | a slot is booked exactly when some instant lies in both it and a booking |
| AvailableSlots.KeyOrder | src/common/helpers/timezone.ts:68-70 | for any two years written with equally many digits comparing day keys as strings is calendar order |
| AvailableSlots.TurnsExact | src/modules/expert-schedule/service/expert-schedule.service.ts:140-176 | over less than a year from the year 100 on, the day loop visits exactly the days of the range if and only if the first year and that of the day after have equally many digits; crossing into more it visits none, ending on their eve it runs on |
| AvailableSlots.RangeTurns | src/modules/expert-schedule/service/expert-schedule.service.ts:96-176 | the same for the local dates of any accepted range, at offsets below a day and with the dates in order |
| AvailableSlots.LastOfFourDigits | src/modules/expert-schedule/service/expert-schedule.service.ts:140-176 | for 9999-12-31 alone the loop visits every day up to the end of 99989 |
| AvailableSlots.TwoDigitDate | src/modules/expert-schedule/service/expert-schedule.service.ts:149-176 | slots of a date of the years 0 to 99 come out in 1899 or later, and the day after it in 1900 or later |
| AvailableSlots.GetAvailableSlots | src/modules/expert-schedule/service/expert-schedule.service.ts:96-186 | a reversed or too long range is refused; otherwise the day-by-day loop terminates, after the number of turns its string comparison makes, with the sorted free slots of the days it visited, which are those of the range when the years have equally many digits |
| AvailableSlots.AnswerExact | src/modules/expert-schedule/service/expert-schedule.service.ts:96-186 | with a stored schedule and a constant offset the answer is exactly the bookable scheduled slots free of every booking, in order and without overlap |
| AvailableSlots.AnswerMeans | src/modules/expert-schedule/service/expert-schedule.service.ts:96-186 | the same in the caller's words: scheduled on that weekday at those minutes, at least four hours ahead, sharing no instant with a booking |
| AvailableSlots.WeekdaysAre | src/common/helpers/timezone.ts:41-46 | weekdays follow each other from Monday, 1 January 2024, for the schedule as for local parts |
| Consultations.RunKeeps | src/modules/consultation/repository/consultation.repository.ts:103-322 | over every run of creating, booking, moving, cancelling, reactivating and lead calls no expert is double booked and each meeting mirrors its consultation |
| Consultations.NeverTwice | src/modules/consultation/repository/consultation.repository.ts:304-322 | at no instant do two different entries of one expert's calendar both last |
| Consultations.CreatedByRight | src/modules/consultation/repository/consultation.repository.ts:103-122 | a new consultation is its author's or that of an assigned student, and students only request |
| Consultations.EditedByRight | src/modules/consultation/repository/consultation.repository.ts:159-196 | students never confirm or complete and move only pending consultations; only times, status and the meeting change, in step |
| Consultations.RunConservesSlots | src/modules/consultation/repository/consultation.repository.ts:271-296 | a package's used slots grow by exactly one for each consultation booked from it |
| Consultations.OccupiedIsTaken | src/modules/consultation/repository/consultation.repository.ts:304-322 | a refused booking shares an instant with an entry that really is in the expert's calendar |
| Consultations.ConsultationRepository.CreateOne | src/modules/consultation/repository/consultation.repository.ts:103-122 | created exactly when the actor may book for that client and expert, the length is positive and, unless it is created cancelled, the expert's calendar is free; the row is as asked for and the only one that changes; keeps the calendar without double bookings and the packages' slots, and a student's is only requested |
| Consultations.ConsultationRepository.UpdateOne | src/modules/consultation/repository/consultation.repository.ts:159-196 | edited exactly when the actor may and the calendar is free for the result; what is given is written, everything else stays and the meeting follows; leaves nobody double booked and the packages' slots conserved |
| Consultations.ConsultationRepository.CreateIfExpertAvailable | src/modules/consultation/repository/consultation.repository.ts:271-296 | booked exactly when the length is positive, the expert's calendar is free and the package exists; then the row is as asked for and exactly the package named loses one slot, otherwise nothing changes, and nobody is double booked |

## Left out

- Controllers, DTO validation, guards, mail, audit and journey rows other than those named, CRM status mapping and analytics: wiring or easy members.
- Access and ownership checks: taken as passed; which expert a confirmation counts for is modelled.
- Transaction isolation and retries: every transaction is one atomic step that commits or changes nothing.
- The waiting and the number of the object-store client's retries: any number of attempts may be sent while the answer is awaited.
- DocumentStorage.CleanedForGood: whether an attempt is in flight is not something the service can see; the condition is about the run, and no repeated put is what guarantees it.
- Deleting a portrait, which removes its documents: not part of the storage protocol modelled here.
- The type of a document: stored as given and never read by what is modelled.
- Document.updatedAt at creation: set from the creation time, since only later guarded writes compare it.
- DocumentStorage.StepKeeps: rows are read and written by the transaction in one step, so row locks inside a transaction are not visible.
- Observation.Observe: lanes are read one after another, not concurrently; the journal does not change during a sweep.
- Contract numbers, service dates, one-time codes and e-mails: a code is valid or not, dates are in order or not.
- ContractLifecycle.RunKeeps: an expert profile is named by its user; changes to lead, portrait and packages elsewhere are arbitrary, but the link from lead to contract stays.
- InstallmentSchedule.PlanConservesPrice: prices are exact reals, so binary floating point and the decimal library's precision of a price are not modelled.
- Finance.MoneySummary: sums are exact; collation is a ranking of currency codes.
- Payments.Settle: signatures, testing mode and other checks of the webhook come before and are not modelled; order status strings other than the three known ones are one case.
- BackupTool.Tool.RunBackup: file contents, hashes and permissions are only whole or not; nothing but the tool stops a service, and a stop that timed out takes effect by the time the call returns or never; a power loss that undoes a directory entry already written is not modelled.
- The failed phase, its reason and the duration kept in a backup's journal: diagnostics.
- BackupRetention.IncrementalIsFull: completion times of different backups differ, as the clock advances between them.
- Docx.IsValidStudentDocumentDocx: the pattern for macro parts, case folding, UTF-8, inflation, CRC and XML are given functions.
- AvailableSlots.GetAvailableSlots: local dates from the year 100 on; how dates of the years 0 to 99 miss their slots is said by TwoDigitDate, years before Christ are not modelled beyond PartsInverse.
- AvailableSlots.AnswerExact: constant offset, and wall times for which ConstantShows holds; around an offset change only the conversion itself is characterised.
- Timezone.ToUtcShowsTheMinute: offsets of whole minutes below a day, one change of offset, and not the first two days of the year 100, which are characterised for constant offsets only; years before Christ are not asked for.
- Consultations.RunKeeps: notice periods, schedules and lead status rules of calls only refuse more and are left out.
- PDF detection and the MIME and extension tables: single patterns and lookups.
