# Envelope signing, modelled and proved

A Dafny model of the logic of an e-signature service with two servers: a FastAPI tree
(`backend/app`) and a Worker that keeps its tables in SQLite (`service/src/durable.ts`).
The model covers what makes an envelope trustworthy: who may sign what and when, on which
document, with which record, and what happens when requests overlap.

## The modules

| module | models |
|---|---|
| `Envelope` | the recipients of an envelope and the rule whose turn it is, as the server and the browser ask it |
| `Transactions` | what each locked route decides and writes, as a function of the rows it finds |
| `Routes` | the same routes in the program's own form, assigning fields one by one, each tied to its decision |
| `Protocol` | any number of overlapping requests: unlocked read, row lock, decision, commit or rollback, look at the status |
| `Invariant` | the inductive invariant of the protocol, step by step |
| `Theorems` | what follows from it over every run |
| `Races` | concrete runs in which the program does not do what its comments say |
| `Routing`, `Notifications` | first mails, reminders, expiry: the serial machine, and the loops that refine it |
| `WindowLimiter`, `WorkerLimiter` | the in-memory and the persistent sliding-window limiters against their full history |
| `Worker` | the Worker's envelope machine and its chain of evidence |
| `Documents` | text to pages, and files to one merged document |
| `Files` | who owns a template's files across create, clone, copy, replace and delete |
| `Fields` | from the role mapping over the submitted values to the marks on the signed PDF |
| `Acceptance` | that the values on an executed envelope are accepted ones, over every interleaving, and so reach paper |

A `Chance` stands for everything a request does not control: the clock, whether a payload
passes validation, whether stamping works. Every theorem holds for all of them; `Acceptance`
adds that validation lets only accepted values pass.

## Where code and documentation differ

The model follows the code. In these places the comments promise more:

* `backend/app/routers/signing.py:740-744` says that a decline is decided under the row lock.
  Only the submission is read again there; the submitter row is the one read before the lock.
  A decline can overwrite a signature just recorded (`DeclineBuriesSignature`), and a signer
  who has been replaced can still decline (`ReplacedSignerDeclines`). `DeclineIsFaithfulIff`
  gives the exact condition: the row, read again under the lock, is still the caller's and unsigned.
* `backend/app/routers/signing.py:641-645` says that only the request that finalized the
  envelope sends the completion mail. A request whose stamping failed sends it too if another one
  completed the envelope before it looks (`TwoCompletionMails`, exactly when: `SecondMailIff`, `OneMailIff`).
* `service/src/durable.ts:716` calls the limiter a sliding window. In the millisecond in which the
  oldest row of a full bucket sits on the edge, the wait is computed as 0 and nothing is refused
  (`EdgeAdmitsAnyNumber`, exactly when: `DecisionIsSlidingWindowIff`).
* `service/src/durable.ts:720` purges rows older than a day for every bucket. That is invisible
  exactly for windows of at most a day (`PurgeIsInvisibleIff`); all present callers use less.
* `backend/app/routers/submissions.py:1407-1408` says that an ad-hoc draft owns its template.
  Creating an envelope does not refuse an ad-hoc template as its basis
  (`backend/app/routers/submissions.py:281-287`), so two envelopes can share one. Deleting the draft
  then removes the files of the other envelope and fails on the foreign key with every row still there
  (`SharedDraftLosesDocument`, exactly when: `DeleteDisturbsIff`, `ReplaceDisturbsIff`).
* A required field must have an entry, not a mark: an empty text and an unticked box are accepted and
  leave the paper blank (`RequiredFieldReachesPaper`).
* A Worker envelope whose creation stopped at an unknown recipient keeps its rows. If only copy
  recipients were inserted, one of them can execute it alone (`CopyRecipientExecutes`, exactly when:
  `ExecutesUnsignedIff`, `CreationExecutesUnsignedIff`).

## Model

| member | source | states |
|---|---|---|
| Envelope.TurnTestsAgree | backend/app/routers/signing.py:321-328 | for every unfinished signer the server's turn rule (the signing routes and the mail hooks state it in the same words), the active group and the browser's test give one answer |
| Envelope.SomeoneIsDue | backend/app/notifications.py:106-122 | while any signer is unfinished, at least one unfinished signer is due |
| Envelope.DashboardAgreesWithServer | frontend/src/utils/envelopes.ts:16-45 | the dashboard asks a viewer to sign exactly when the server's active group is theirs, and tells exactly the other unfinished signers to wait |
| Transactions.CorrectionIsExact | backend/app/routers/submissions.py:765-796 | every setting given has the value given and every other the value it had; the audit detail names exactly the settings whose stored value changed; the expiry warning is forgotten exactly when the deadline moved |
| Routes.ApplyCorrection | backend/app/routers/submissions.py:765-782 | the comparison field by field gives the settings and the list of changes of the specification |
| Routes.LockedEnvelope.Finalize | backend/app/completion.py:298-325 | a failed stamp changes neither row nor log; a stamp sets both keys, status and time together and appends one event |
| Routes.LockedEnvelope.FinalizeIfReady | backend/app/completion.py:328-411 | not pending and not all signed are told apart without a write; otherwise stamped or failed, with the rows and log that go with it |
| Routes.LockedEnvelope.CompleteSigning | backend/app/routers/signing.py:665-728 | the row is signed, with the values sent, exactly when it is the authorized user's and unsigned, the envelope is pending and before its deadline, every signer of lower order has completed as read, and the values are valid; the invariant is kept even on older reads of the peers |
| Routes.LockedEnvelope.DeclineSigning | backend/app/routers/signing.py:746-780 | it goes through exactly on a pending envelope before its deadline, for a row read as open, with every signer of lower order completed as read; it is its row owner's and buries no signature exactly when the row is still the caller's and unsigned |
| Routes.LockedEnvelope.CancelSubmission | backend/app/routers/submissions.py:1154-1172 | exactly a pending envelope is voided; rows stay, one event is added, there is no executed document |
| Routes.LockedEnvelope.ReplaceSubmitter | backend/app/routers/submissions.py:846-908 | it goes through exactly for an open envelope, an unsigned row and a person not yet on it; the removed person can no longer act on the row and the new one can, nothing is signed on it, and distinct people stay distinct |
| Routes.LockedEnvelope.ReplaceDocument | backend/app/routers/submissions.py:624-705 | it goes through exactly for an open envelope no signer has signed; storage and the envelope point at the new content, in place for an ad-hoc template, in a fresh private one otherwise |
| Routes.LockedEnvelope.CorrectSubmission | backend/app/routers/submissions.py:754-797 | it goes through exactly for an open envelope; every setting given has the value given, nothing else changes, and the trail gets an event exactly when a setting changed, naming what changed |
| Routes.LockedEnvelope.SendDraft | backend/app/routers/submissions.py:1351-1384 | exactly a draft before its deadline with a valid mapping becomes pending, with one sent event for each recipient in order |
| Routes.LockedEnvelope.DeleteDraft | backend/app/routers/submissions.py:1422-1447 | exactly a draft goes; afterwards no request gets past its first read, and no completed row was lost |
| Routes.LockedEnvelope.RetryCompletion | backend/app/routers/submissions.py:1488-1523 | refused unless the envelope is found pending with every signer completed under the lock; then it completes exactly if stamping works |
| Invariant.DecisionIsSafe | backend/app/routers/signing.py:665-728 | whatever a request holding the lock decides on possibly stale reads, committing it keeps the invariant |
| Invariant.CompletionIsSafe | backend/app/routers/signing.py:665-711 | signing on a turn check over peers read before the lock is safe, because completedness only grows while the envelope is pending |
| Invariant.ReplaceDocumentIsSafe | backend/app/routers/submissions.py:624-696 | a document is only replaced while no signature rests on it |
| Invariant.RunKeepsInv | backend/app/completion.py:328-411 | every run of any number of overlapping requests keeps the invariant |
| Theorems.NoStranding | backend/app/completion.py:386-411 | in every reachable state a pending envelope is fully signed exactly when its latest finalize attempt failed to stamp |
| Theorems.RetryRecovers | backend/app/routers/submissions.py:1488-1523 | from every stranded state one retry that stamps completes the envelope |
| Theorems.SomeSignerCanComplete | backend/app/routers/signing.py:665-711 | from every pending state with an unfinished signer, some signer's request alone gets its row completed with the values sent |
| Theorems.SigningIff | backend/app/routers/signing.py:665-711 | in every reachable state, an unsigned row gets completed by a request running alone exactly if the request is its signer's, the envelope is pending and before its deadline, every signer of lower order has completed and the values are valid |
| Theorems.DeadlineIsKept | backend/app/routers/signing.py:314-318 | under every interleaving, a commit that adds a signature or a decline, or sends a draft, was decided before the deadline |
| Theorems.ViewOpensIff | backend/app/routers/signing.py:352-361 | a first view opens exactly an untouched row of a pending envelope before its deadline whose lower-order signers have all completed |
| Theorems.SignaturesOnStampedDocument | backend/app/routers/submissions.py:624-696 | on an executed envelope every signature was recorded on the stamped document, the stamp shows every signer's values and nobody else's, and that document is still in storage |
| Theorems.SigningOrderHolds | backend/app/routers/signing.py:321-328 | while pending or completed, a completed signer implies that every signer of a lower group is completed, under every interleaving |
| Theorems.FinalizedExactlyOnce | backend/app/completion.py:312-325 | the completed event occurs at most once, and exactly when the status is completed, both keys are set and the time is set; all signers are then completed |
| Theorems.SignaturesAreAttributed | backend/app/routers/signing.py:665-711 | a completed row holds values entered by its present user, its one signed event names that user, and so does the certificate, under every race with a replacement |
| Theorems.TerminalIsAbsorbing | backend/app/routers/submissions.py:1154-1172 | after a terminal status nothing changes status, rows, trail, keys or stored document; only mail bookkeeping may still be written |
| Theorems.CompletionMailCount | backend/app/routers/signing.py:713-719 | requests that pass the mail test never outnumber FINALIZED outcomes; without a failed stamp only the request that completed the envelope passes it |
| Theorems.SecondMailIff | backend/app/routers/submissions.py:1513-1522 | over every run, a request other than the completing one passes the mail test exactly when its own stamp failed and it looked after the completion |
| Theorems.OneMailIff | backend/app/routers/signing.py:713-719 | once the completing request has looked, exactly one mail went out exactly when no request with a failed stamp looked after the completion |
| Theorems.DeclineIsFaithfulIff | backend/app/routers/signing.py:746-780 | a decline is made by the signer it was authorized for, and it is the row owner's and buries no signature exactly when the row, read again under the lock, is still theirs and unsigned |
| Races.TwoCompletionMails | backend/app/routers/submissions.py:1513-1522 | a run in which one completed envelope passes the mail test twice |
| Races.DeclineBuriesSignature | backend/app/routers/signing.py:746-780 | a run in which a decline overwrites a row whose signed event is already in the trail |
| Races.ReplacedSignerDeclines | backend/app/routers/signing.py:746-780 | a run in which a replaced signer voids the envelope on a row that belongs to somebody else |
| Routing.RunKeepsMailInv | backend/app/notifications.py:165-194 | create, send, complete, replace, resend, correct, remind and expire keep the mail bookkeeping in step with routing |
| Routing.FrontierHolds | backend/app/notifications.py:114-122 | over every serial run, the recipients of a pending envelope with a mail status are exactly those routing has reached, copies included; a draft has none |
| Routing.VoidReachesExactlyTheDue | backend/app/notifications.py:263-362 | voiding or expiring writes to exactly the recipients routing has reached and to the sender, except the one who voids |
| Routing.RemindersStayInBudget | backend/app/notifications.py:579-650 | nobody is ever past three reminders between resets, and a reminder goes only to an unfinished signer of a pending envelope whose lower-order signers have all completed |
| Routing.RemindedIff | backend/app/notifications.py:579-650 | exactly whom a pass reaches: with "remind now" every open signer of the active group below three reminders, with the daily sweep those of them whose first contact and last reminder both lie the interval back, reminders being on |
| Routing.ResendStartsOver | backend/app/routers/submissions.py:1557-1606 | exactly a reached, open recipient of a pending envelope is written to again, with the reminder count back at zero |
| Routing.SweepRemindersAreSpaced | backend/app/notifications.py:558-577 | between any reminder and a later one of the daily sweep to the same recipient lies at least the envelope's interval, unless the recipient was replaced in between |
| Notifications.Mailroom.OnSubmissionCreated | backend/app/notifications.py:165-181 | the loop writes to exactly the rows whose lower-order signers have all completed, noting the outcome and the time of a first attempt |
| Notifications.Mailroom.OnSubmitterCompleted | backend/app/notifications.py:183-195 | the loop writes to exactly the rows newly reached, never contacted and not completed |
| Notifications.Mailroom.EligibleSubmitters | backend/app/notifications.py:579-621 | exactly the rows eligible now, in row order |
| Notifications.Mailroom.SendReminders | backend/app/notifications.py:623-683 | every row eligible at the start is reminded once and no other; one notice each, and the count is theirs |
| Notifications.RunExpirations | backend/app/notifications.py:364-383 | exactly the pending envelopes whose deadline is not after now expire, each with its event, and the count is theirs |
| WindowLimiter.FeedbackLimiter.RateLimited | backend/app/routers/feedback.py:47-66 | refused exactly with five accepted attempts of this address younger than 600 seconds; other addresses are untouched, and all deques stay sorted, at most five long and not later than the clock |
| WindowLimiter.PopOld | backend/app/routers/feedback.py:55-56 | popping from the left leaves exactly the times younger than the window |
| WindowLimiter.RecentHoldsExactly | backend/app/routers/feedback.py:55-56 | the times younger than the window are kept, each as often as it was there, and no other |
| WindowLimiter.CodeSendLimiter.OverLimit | backend/app/routers/signing.py:131-138 | refused exactly with `limit` sendings of this key younger than 900 seconds; other keys are untouched |
| WindowLimiter.LimiterRefinesHistory | backend/app/routers/feedback.py:47-66 | for every non-decreasing clock the limiter refuses exactly when `limit` accepted attempts of the full history are younger than the window |
| WindowLimiter.WindowHoldsAtMostLimit | backend/app/routers/feedback.py:47-66 | no half-open window, wherever it starts, holds more than `limit` accepted attempts |
| WorkerLimiter.RateLimitEvents.RateLimited | service/src/durable.ts:717-741 | the rows of the last day are kept; a refusal adds no row, an admission one row for every bucket asked about |
| WorkerLimiter.RateLimitEvents.LongestWait | service/src/durable.ts:726-732 | the loop finds the longest wait over the buckets |
| WorkerLimiter.WindowHoldsExactly | service/src/durable.ts:727-730 | of one bucket each row from the cutoff on is counted, as often as it is in the table, and no other row |
| WorkerLimiter.BucketsAreIsolated | service/src/durable.ts:726-733 | rows of buckets not asked about never change a decision |
| WorkerLimiter.PurgeIsInvisibleIff | service/src/durable.ts:720 | the day-old purge changes no decision exactly when the window is at most a day |
| WorkerLimiter.LimiterNeverForgets | service/src/durable.ts:717-741 | over every run with a clock that does not run back, the purging limiter decides each request as one that keeps every row |
| WorkerLimiter.AdmitsIff | service/src/durable.ts:726-733 | a request is admitted exactly when every bucket is below its limit or has a row on the edge of the window |
| WorkerLimiter.DecisionIsSlidingWindowIff | service/src/durable.ts:726-733 | the decision is the sliding-window rule's exactly when some bucket is full without a row on the edge or no bucket with an edge row holds `limit` younger rows, and always when no bucket is past its limit |
| WorkerLimiter.EdgeAdmitsAnyNumber | service/src/durable.ts:731-733 | at the edge millisecond a limit of one admits any number of requests |
| WorkerLimiter.RetryAfterIsExact | service/src/durable.ts:726-733 | if no bucket is past its limit and nothing is admitted in between, a retry is admitted exactly from the reported number of seconds on |
| Worker.EnvelopeRows.CompleteSigning | service/src/durable.ts:2455-2557 | a signature is saved exactly on an open envelope, for a submitter who has not signed, with every signer of lower order done, consent, filled fields and evidence at hand; the answer tells whether it was, its one consent is about the document in store, and what it executes is what stamping returned |
| Worker.EnvelopeRows.DeclineSigning | service/src/durable.ts:2560-2581 | it goes through exactly on an open envelope, for a submitter who has not signed, with every signer of lower order done; it closes the envelope for every later run, and never on someone who gave consent |
| Worker.EnvelopeRows.FinalizeEnvelope | service/src/durable.ts:2648-2740 | it finishes exactly with readable files and a stamp, and then stores what stamping returned with its hash and the original's; a failure costs nothing but a log line; on a stranded envelope there is one certificate line for each signer |
| Worker.EnvelopeRows.Retry | service/src/durable.ts:2147-2164 | it completes exactly an open envelope with a signer, all signed, with readable files and a stamp, and stores what stamping returned; the answer 200 means executed, now or before |
| Worker.EnvelopeRows.SwapDocument | service/src/durable.ts:2195-2270 | it goes through exactly on an open envelope nobody has signed, for a prepared document with a page for every field; nobody has consented to another document then, and whoever signs next is recorded with the new hash |
| Worker.EnvelopeRows.SendEnvelope | service/src/durable.ts:2055-2066 | exactly an open envelope can be sent or reminded, it is then pending, and signatures and evidence stay |
| Worker.EnvelopeRows.CancelEnvelope | service/src/durable.ts:2068-2077 | exactly an open envelope is voided; that lasts for every later run and never hits an executed one |
| Worker.EnvelopeRows.DeleteEnvelope | service/src/durable.ts:2026-2053 | exactly a draft is deleted; it was never executed and no later run brings anything back |
| Worker.SweepExpired | service/src/durable.ts:1019-1049 | exactly the pending envelopes whose deadline is a full timestamp before now expire, each with its event, and the count is theirs |
| Worker.CertificateIsFaithful | service/src/durable.ts:2663-2675 | with one consent for each signer about one hash, the outer join gives every signer exactly one line with that hash |
| Worker.RunIsSound | service/src/durable.ts:2455-2581 | every run keeps consents, order, record and statuses sound |
| Worker.EvidenceChain | service/src/durable.ts:2508-2542 | over every run: signed exactly with one consent; every consent has the hash of the present original; once completed that is the recorded hash, the one in the single completion event and the one on each certificate line |
| Worker.SigningOrderHolds | service/src/durable.ts:769-775 | over every run, whoever has signed, every signer of lower order has signed |
| Worker.SomeoneMaySign | service/src/durable.ts:769-775 | on an open envelope of every run with an unsigned signer, some unsigned signer's request saves the signature |
| Worker.ExecutedWasStamped | service/src/durable.ts:2719-2740 | over every run, the executed document is what stamping returned to the one request that completed the envelope, stamped on the original as it still is |
| Worker.ReplaceIsSound | service/src/durable.ts:2195-2204 | a document is only replaced while there is no consent it could contradict |
| Worker.ClosedForGood | service/src/durable.ts:141-153 | a terminal envelope keeps every field over every run; its log grows only by corrections to its words |
| Worker.SignedDocumentIsFrozen | service/src/durable.ts:2196-2204 | after the first signature the document and that signature never change, unless the whole draft is deleted |
| Worker.StrandedSinceFailure | service/src/durable.ts:2543-2557 | an open envelope that everybody signed has been so, without a break, since a last signature that was answered with a failure |
| Worker.RetryFinishesIff | service/src/durable.ts:2147-2164 | from every stranded state of every run, a retry completes the envelope exactly when it was created with a signer and its files can be read and stamped, and then the evidence chain holds |
| Worker.NewIsFresh | service/src/durable.ts:944-977 | creation keeps an envelope exactly when a signer is named and succeeds exactly when everybody is known too; it is a draft or pending as asked, with the document, its hash and the recipients in order; a copy is an unsigned draft of the same recipients without a deadline |
| Worker.ExecutesUnsignedIff | service/src/durable.ts:2461-2557 | some run executes an envelope without a signer's signature exactly when it has recipients and none of them is a signer |
| Worker.CreationExecutesUnsignedIff | service/src/durable.ts:944-977 | in terms of the create request: exactly when the first recipient is known and no signer comes before the first unknown one |
| Worker.CopyRecipientExecutes | service/src/durable.ts:948-966 | a creation answered with an error whose rows a copy recipient executes alone, and no retry can |
| Documents.NormalizedIffNormal | service/src/durable.ts:552-554 | after normalizing every unit is drawable or a line break, and exactly such texts are left as they are |
| Documents.NormalizedUnits | service/src/durable.ts:552-554 | each unit stays in place, a question mark standing for what cannot be drawn, and a leading byte-order mark is dropped |
| Documents.TabsBecomeSpaces | service/src/durable.ts:553 | a tab is four spaces, wherever it stands |
| Documents.BreaksAreRecognized | service/src/durable.ts:552-553 | a text written with newlines, returns or both gives the same source lines |
| Documents.JoinUndoesSplit | service/src/durable.ts:561 | splitting into source lines loses nothing |
| Documents.Wrap | service/src/durable.ts:560-566 | an empty source line gives one empty line, any other its slices of at most `columns` units, in order |
| Documents.WrappedRejoins | service/src/durable.ts:560-566 | the wrapped lines fall into consecutive groups, one for each source line, that rejoin to it; in each all but the last have the full width, and the last no more |
| Documents.Paginate | service/src/durable.ts:567-573 | at least one page; each page is the next 58 lines drawn from the top down |
| Documents.SheetsLoseNothing | service/src/durable.ts:567-573 | the pages concatenate to all lines, at most 58 on each and exactly 58 on all but the last, line i of a page at 756 - 12 i |
| Documents.TextSurvivesRendering | service/src/durable.ts:548-574 | what is drawn, read page by page and regrouped, is the normalized text, wrapped at 105 units for a csv and at 95 for a txt |
| Documents.UploadAsPdf | service/src/durable.ts:526-589 | accepted exactly when the file and its rendition fit, the rendition can be made and read and has 1 to 500 pages; otherwise the error of the first test failed |
| Documents.PrepareDocuments | service/src/durable.ts:592-622 | the answer the list calls for: documents whose ranges partition the merged pages and hold each file's own pages, or the first error |
| Documents.AnswerIsUnique | service/src/durable.ts:592-622 | the files determine that answer, page starts and error included |
| Documents.AcceptedIff | service/src/durable.ts:592-622 | a list is accepted exactly when sizes fit, each file is accepted, the pages are at most 500 and the merged file fits |
| Documents.ListsAddUp | service/src/durable.ts:597-607 | sizes add up and pages line up over any way to divide the list |
| Documents.EachPageHasOneFile | service/src/durable.ts:607-617 | every merged page belongs to exactly one file's range |
| Files.KeysAreDistinct | backend/app/routers/templates.py:93 | a storage key tells its template and its file name |
| Files.Library.CreateTemplate | backend/app/routers/templates.py:119-164 | one fresh reusable row that finds the PDF and the original as uploaded; the store stays sound and nobody is disturbed |
| Files.Library.CreateAdhocSubmission | backend/app/routers/submissions.py:395-451 | exactly an accepted upload with a page for every field gives an envelope, draft or pending as asked, that serves it; otherwise no row is left of it |
| Files.Library.CloneTemplate | backend/app/routers/templates.py:51-96 | a missing working PDF refuses and changes nothing; otherwise a fresh row with copies of the files that exist, an empty key for a missing original |
| Files.Library.CreateFromTemplate | backend/app/routers/submissions.py:271-309 | exactly a template that is there and not archived will do, an ad-hoc one too; the envelope, draft or pending as asked, serves its bytes and shares an ad-hoc template with exactly the envelopes already on it |
| Files.Library.CopyTemplate | backend/app/routers/templates.py:196-223 | refused exactly for a missing or archived template; the clone has the same PDF, original and fields under its own keys |
| Files.Library.ArchiveTemplate | backend/app/routers/templates.py:267-278 | exactly an existing template gets the mark and nothing else changes; every envelope and template serves the same bytes |
| Files.Library.UpdateFields | backend/app/routers/templates.py:226-250 | accepted exactly when every field lies on a page the template has, and then the last page with a field is stored |
| Files.Library.SaveAsTemplate | backend/app/routers/submissions.py:1280-1325 | every envelope can be saved; the template has the envelope's bytes under its own key and the store stays sound |
| Files.Library.CopySubmission | backend/app/routers/submissions.py:1233-1273 | the copy is a draft that serves the source's bytes from an ad-hoc template of its own, and the source goes on serving them |
| Files.Library.ReplaceDocument | backend/app/routers/submissions.py:624-705 | it goes through exactly for an open, unsigned envelope and pages enough; this envelope and no other serves the upload from now on, from an ad-hoc template, a hidden one if it is new |
| Files.Library.DeleteDraft | backend/app/routers/submissions.py:1430-1447 | on a sound store exactly a draft goes, with its row, its ad-hoc template and that template's PDF, and nobody else is disturbed |
| Files.CloneIsOneFolder | backend/app/routers/templates.py:79-96 | a clone never fails on a live template, has its bytes, and writes only in its own fresh folder |
| Files.FilesStayOwned | backend/app/routers/templates.py:60-65 | over every run that bases no envelope on an ad-hoc template, each template's PDF exists under its own id and no ad-hoc template is shared |
| Files.OthersNeverDisturb | backend/app/routers/submissions.py:663-696 | over every such run an envelope nobody acts on serves the same bytes |
| Files.ReusableNeverChanges | backend/app/routers/submissions.py:601-605 | over every such run a reusable template keeps its bytes and its row, but for being archived and for edits of its own fields |
| Files.FieldsAlwaysFit | backend/app/routers/submissions.py:417-420 | over every run, with shared ad-hoc templates too, no template has a field beyond its last page |
| Files.CopyReadsTheSame | backend/app/routers/submissions.py:1239-1247 | a copy starts with its source's bytes under another template, and the source keeps its own |
| Files.DeleteDisturbsIff | backend/app/routers/submissions.py:1433-1447 | deleting a draft takes another envelope's document exactly when the two share an ad-hoc template, and then fails with all rows kept |
| Files.ReplaceDisturbsIff | backend/app/routers/submissions.py:663-696 | a replacement changes another envelope's document exactly when the envelope is open and unsigned, the upload has pages enough, the two share an ad-hoc template and the bytes differ |
| Files.SharedDraftLosesDocument | backend/app/routers/submissions.py:281-287 | three requests after which a pending envelope has no document |
| Fields.MappingAcceptsIff | backend/app/routers/submissions.py:120-174 | a mapping is accepted exactly when signers and field roles correspond one to one, no template role is left over, nobody is listed twice and at most ten are copies |
| Fields.ValidateValues | backend/app/routers/signing.py:506-604 | with distinct ids, accepted exactly when every required non-name field has an entry and every entry is for one of the fields with a proper value: own signature or upload, listed option, text of at most 500 in its format; what is stored is what was submitted; an error names a field that is missing or a value that does not fit |
| Fields.MyFieldsAreMine | backend/app/routers/signing.py:309-311 | a signer's fields are exactly those of their role |
| Fields.GroupByPage | backend/app/stamping.py:147-153 | each page's group is the shown fields of that page, in order |
| Fields.RenderOverlay | backend/app/stamping.py:429-451 | a label draws its stripped text, any other field the value its role's submitter gave, and nothing draws nothing |
| Fields.BuildSignedPdf | backend/app/stamping.py:144-181 | as many pages as the document has, each with the marks of its shown fields in the order of the fields, the last submitter of a role counting |
| Fields.FieldIsDrawnOnce | backend/app/stamping.py:147-153 | with distinct ids a shown field is drawn once, on its own page and no other |
| Fields.FilledFieldReachesPaper | backend/app/stamping.py:429-451 | from an accepted mapping, accepted values of all signers and fields on existing pages: every required non-name field has one owner, that owner's values have a fitting entry, and the built pages show it once, on the field's page and no other, or nothing exactly for an empty text or an unticked box |
| Fields.LabelsReachPaper | backend/app/stamping.py:439-446 | the sender's own text is on its page whoever has signed |
| Fields.NamesReachPaper | backend/app/stamping.py:400-408 | a name field shows what its signer entered, or else their account name |
| Fields.DatesReachPaper | backend/app/stamping.py:409-416 | a date field shows the date its signer chose, or else the day of the signature |
| Fields.UnsignedFieldsStayBlank | backend/app/stamping.py:149-153 | a field whose role has not completed shows nothing |
| Acceptance.CompletedRowsAreAccepted | backend/app/routers/signing.py:665-711 | over every interleaving, replacements included, each completed row holds values the validator accepted for that row, its role and its present user |
| Acceptance.ExecutedIsFilled | backend/app/routers/signing.py:706-711 | every signer of an executed envelope has completed with accepted values, on the seats of the mapping |
| Acceptance.MarksAreOwn | backend/app/routers/signing.py:543-545 | on every executed envelope each signature or initials value was drawn by the row's user and each attachment uploaded by that recipient |
| Acceptance.InTimeIsHonest | backend/app/routers/signing.py:540-590 | a run whose signings were each validated against the signatures and uploads of their own moment is valid for the final ones |
| Acceptance.StoredFieldsAreInRange | backend/app/routers/submissions.py:653-661 | whatever was created, edited, copied and replaced before, the fields of a stored template lie on its pages |
| Acceptance.RequiredFieldReachesPaper | backend/app/stamping.py:429-451 | on every executed envelope of every interleaving, each signing validated at its own moment, each required non-name field lies on a page of the document and has one owner, the values stamped for that owner have a fitting entry, and the built pages show it once, on that page and no other, or nothing exactly for an empty text or an unticked box |
| Fields.AcceptanceLasts | backend/app/routers/signing.py:528-604 | what validation accepted stays accepted when more signatures and uploads exist |
| Fields.GatherSignatureImages | backend/app/completion.py:86-110 | the images collected are exactly the stored signatures named by a value of a signature field |
| Fields.GatheringSuffices | backend/app/completion.py:92-98 | whatever a completed row with accepted values holds for a signature field is an image that was gathered |

## Left out

Assumptions of the interleaved protocol:

- The writers that take no row lock are one atomic step each: the opened flip (`backend/app/routers/signing.py:352-361`), the daily expiry, and the mail bookkeeping. The daily expiry happens only while no request holds the row lock.
- The unlocked first read of a request is one snapshot of all rows; in the turn check each peer may be the cached or the present row.
- In `Protocol` an ad-hoc template belongs to one envelope. `Files` shows what the routes do to keep this and when it fails.
- In `Protocol` and `Acceptance` the fields are frozen after sending. `Files` lets them be edited at any time, and of them keeps only the last page that has one.
- Authentication and permissions are decided before: an identity is a user id, and the caller of a sender's route may use it.
- A process that dies between commit and mail is a request that never looks; lost mail is not counted.

Narrower than the source:

- Routing.SweepRemindersAreSpaced: says nothing of the first reminder after a replacement, because the first-contact time is not reset there.
- Routing.RunKeepsMailInv: requests run one at a time, each with its mail, while `Theorems` covers overlap without mail content.
- Notifications.Mailroom.OnSubmissionCreated: a recipient row whose user no longer exists is not modelled.
- Worker.RunIsSound: each request is atomic, so interleavings at an `await` are not covered; the values stored in fields before a later field of the same request is refused are not part of the state, nor is the list of files a consent names beside the hash.
- WorkerLimiter.LimiterNeverForgets: requests are atomic and their clock does not run back; buckets are names already hashed.
- WindowLimiter.FeedbackLimiter.RateLimited: times are reals, so floating-point rounding is not covered.
- Files.OthersNeverDisturb: what the other routes do to an envelope is one step that sets its stage and whether somebody has signed.
- Files.Library.CreateTemplate: the temporary rendition that conversion saves and deletes again is not modelled, nor are directories in storage.
- Acceptance.RequiredFieldReachesPaper: field ids are distinct, signatures and uploads that exist at signing still exist at completion, and values that validation never stores are not drawn.
- Fields.ValidateValues: date, e-mail and number syntax and whitespace stripping are functions given from outside; the message names no field for unknown ids.
- Documents.UploadAsPdf: decoding of bytes, image embedding, Office conversion and the size of a saved PDF are given from outside.

Not modelled:

- Stamping is opaque in `Protocol` and `Worker`: it fails or gives a result. SHA-256 is an arbitrary function of the bytes.
- Fonts, coordinates, watermarks and the layout of certificates.
- Mail texts, expiry warnings, completion and decline notices, team invitations.
- HTTP, sessions, cookies, verification codes, tokens and address masking.
- Archiving of envelopes, listings, form-data export, title and file-name cleaning.
- Document previews, backups, SharePoint copies, feedback issues and migrations.
