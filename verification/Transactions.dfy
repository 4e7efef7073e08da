/**
 What each route of the FastAPI tree decides and writes once it holds the row lock
 of one envelope.  A decision is a function of the committed rows, of what the
 request read before it waited for the lock, and of a `Chance` that fixes everything
 the program does not control: the clock, payload validation, PDF stamping.
 */
module Transactions {
  import opened Basics
  import opened Envelope

  datatype Status = Draft | Pending | Completed | Cancelled | Declined | Expired | Deleted

  predicate Terminal(s: Status) {
    s.Completed? || s.Cancelled? || s.Declined? || s.Expired? || s.Deleted?
  }

  /** Statuses on which signatures are being collected or have been executed. */
  predicate Live(s: Status) {
    s.Draft? || s.Pending? || s.Completed?
  }

  type TemplateId = nat

  /** File contents are opaque; only their identity matters. */
  type Content = nat

  datatype Settings = Settings(title: string, message: Option<string>, expiresAt: Option<int>,
                               expiryWarnedAt: Option<int>, remindersEnabled: bool, intervalDays: int)

  /** A PATCH body: an absent key is None, a present null is Some(None). */
  datatype Correction = Correction(title: Option<string>, message: Option<Option<string>>,
                                   expiresAt: Option<Option<int>>, remindersEnabled: Option<bool>,
                                   intervalDays: Option<int>)

  /** What a `corrected` event names as changed. */
  datatype Part = Document | Title | Message | ExpiresAt | RemindersEnabled | IntervalDays

  datatype Event =
    | Created
    | SentTo(row: nat)
    | OpenedBy(row: nat, user: UserId)
    | SignedBy(row: nat, user: UserId)
    | EnvelopeCompleted
    | CancelledBy(user: UserId)
    | DeclinedBy(row: nat, user: UserId)
    | Corrected(changed: seq<Part>)
    | Replaced(row: nat, removed: UserId, added: UserId)
    | EnvelopeExpired

  /** The signed PDF: the document it was stamped on, and per row the values drawn. */
  datatype Stamp = Stamp(content: Content, entries: seq<Option<Values>>)

  datatype Submission = Submission(status: Status, template: TemplateId, adhoc: bool, settings: Settings,
                                   signedPdf: Option<Stamp>, certificate: Option<seq<Event>>,
                                   completedAt: Option<int>)

  datatype Db = Db(sub: Submission, rows: seq<Row>, log: seq<Event>)

  datatype Request =
    | CompleteSigning(row: nat, values: Values)
    | DeclineSigning(row: nat)
    | CancelSubmission
    | ReplaceSubmitter(row: nat, newUser: UserId)
    | ReplaceDocument(content: Content)
    | CorrectSubmission(correction: Correction)
    | SendDraft
    | DeleteDraft
    | RetryCompletion

  datatype Chance = Chance(now: int, valid: bool, stamps: bool, freshTemplate: TemplateId)

  datatype Outcome = NotPending | NotAllCompleted | Finalized(stamped: bool)

  datatype Patch =
    | NoPatch
    | SignPatch(row: nat, author: UserId, values: Values, content: Content)
    | DeclinePatch(row: nat)
    | ReplacePatch(row: nat, user: UserId)

  /** The pending writes of a transaction. */
  datatype Txn =
    | Write(sub: Submission, patch: Patch, events: seq<Event>, outcome: Option<Outcome>)
    | DropEnvelope

  function PatchRow(row: Row, patch: Patch): Row {
    match patch
    case NoPatch => row
    case SignPatch(_, author, values, content) =>
      row.(status := RowStatus.Completed, values := values, enteredBy := Some(author), signedOn := Some(content))
    case DeclinePatch(_) => row.(status := RowStatus.Declined)
    case ReplacePatch(_, user) =>
      row.(userId := user, status := RowStatus.Pending, values := map[], enteredBy := None, signedOn := None,
           mail := row.mail.(emailStatus := None, lastReminded := None, reminderCount := 0))
  }

  function ApplyPatch(rows: seq<Row>, patch: Patch): seq<Row> {
    if patch.NoPatch? || patch.row >= |rows| then rows
    else rows[patch.row := PatchRow(rows[patch.row], patch)]
  }

  function Committed(db: Db, txn: Txn): Db {
    match txn
    case DropEnvelope => Db(db.sub.(status := Deleted), [], [])
    case Write(sub, patch, events, _) => Db(sub, ApplyPatch(db.rows, patch), db.log + events)
  }

  predicate ExpiryPassed(sub: Submission, now: int) {
    sub.settings.expiresAt.Some? && sub.settings.expiresAt.value <= now
  }

  function Entry(row: Row): Option<Values> {
    if !row.isCc && row.status.Completed? then Some(row.values) else None
  }

  function Entries(rows: seq<Row>): seq<Option<Values>> {
    seq(|rows|, i requires 0 <= i < |rows| => Entry(rows[i]))
  }

  /** `finalize_if_ready` and `finalize`: the rows as this transaction sees them, its own flushed writes
      included.  Everything that can fail happens before the first write, so a failed stamp writes nothing. */
  function FinalizeIfReady(sub: Submission, rows: seq<Row>, log: seq<Event>, content: Content, c: Chance)
    : (r: (Submission, seq<Event>, Outcome))
    ensures r.2.Finalized? <==> sub.status.Pending? && AllSigned(rows)
    ensures !(r.2.Finalized? && c.stamps) ==> r.0 == sub && r.1 == []
  {
    if !sub.status.Pending? then (sub, [], NotPending)
    else if !AllSigned(rows) then (sub, [], NotAllCompleted)
    else if !c.stamps then (sub, [], Finalized(false))
    else
      (sub.(signedPdf := Some(Stamp(content, Entries(rows))), certificate := Some(log),
            status := Status.Completed, completedAt := Some(c.now)), [EnvelopeCompleted], Finalized(true))
  }

  function WithFinalize(db: Db, patch: Patch, events: seq<Event>, content: Content, c: Chance): Txn {
    var (sub, more, outcome) :=
      FinalizeIfReady(db.sub, ApplyPatch(db.rows, patch), db.log + events, content, c);
    Write(sub, patch, events + more, Some(outcome))
  }

  /** `complete_signing` below the lock.  `authorized` is the user the unlocked read saw on the row;
      the row itself is re-read, but peers may come from either read (`seen`). */
  function DecideComplete(db: Db, content: Content, row: nat, authorized: UserId, values: Values,
                          seen: seq<Row>, c: Chance): Option<Txn>
  {
    if row >= |db.rows| then None
    else
      var me := db.rows[row];
      if me.userId != authorized then None
      else if me.status.Completed? then Some(WithFinalize(db, NoPatch, [], content, c))
      else if !db.sub.status.Pending? || ExpiryPassed(db.sub, c.now) then None
      else if !GroupReached(seen, me.order) || !c.valid then None
      else
        Some(WithFinalize(db, SignPatch(row, authorized, values, content), [SignedBy(row, me.userId)], content, c))
  }

  /** `decline_signing` below the lock.  Unlike completion it keeps the row it read before the lock (`me`). */
  function DecideDecline(db: Db, row: nat, me: Row, seen: seq<Row>, c: Chance): Option<Txn> {
    if !db.sub.status.Pending? || me.status.Completed? || me.status.Declined? then None
    else if ExpiryPassed(db.sub, c.now) || !GroupReached(seen, me.order) then None
    else Some(Write(db.sub.(status := Status.Declined), DeclinePatch(row), [DeclinedBy(row, me.userId)], None))
  }

  predicate Correctable(sub: Submission) {
    sub.status.Pending? || sub.status.Draft?
  }

  function DecideReplaceSubmitter(db: Db, row: nat, newUser: UserId, c: Chance): Option<Txn> {
    if !Correctable(db.sub) || row >= |db.rows| then None
    else if db.rows[row].status.Completed? || !c.valid then None
    else if exists j :: 0 <= j < |db.rows| && j != row && db.rows[j].userId == newUser then None
    else Some(Write(db.sub, ReplacePatch(row, newUser), [Replaced(row, db.rows[row].userId, newUser)], None))
  }

  /** `replace_document`: refused once any signer has signed.  An ad-hoc template is rewritten in place;
      any other is left alone and the envelope moves to a private clone. */
  function DecideReplaceDocument(db: Db, c: Chance): Option<Txn> {
    if !Correctable(db.sub) then None
    else if exists i :: 0 <= i < |db.rows| && !db.rows[i].isCc && db.rows[i].status.Completed? then None
    else if !c.valid then None
    else
      var sub := if db.sub.adhoc then db.sub else db.sub.(template := c.freshTemplate, adhoc := true);
      Some(Write(sub, NoPatch, [Corrected([Document])], None))
  }

  /** `correct_submission`: the settings after a PATCH and the names of the keys it changed. */
  function Correct(s: Settings, k: Correction): (Settings, seq<Part>) {
    var title := if k.title.Some? then k.title.value else s.title;
    var message := if k.message.Some? then k.message.value else s.message;
    var expiresAt := if k.expiresAt.Some? then k.expiresAt.value else s.expiresAt;
    var warned := if expiresAt != s.expiresAt then None else s.expiryWarnedAt;
    var enabled := if k.remindersEnabled.Some? then k.remindersEnabled.value else s.remindersEnabled;
    var days := if k.intervalDays.Some? then k.intervalDays.value else s.intervalDays;
    var c1 := Note([], title != s.title, Title);
    var c2 := Note(c1, message != s.message, Message);
    var c3 := Note(c2, expiresAt != s.expiresAt, ExpiresAt);
    var c4 := Note(c3, enabled != s.remindersEnabled, RemindersEnabled);
    var c5 := Note(c4, days != s.intervalDays, IntervalDays);
    (Settings(title, message, expiresAt, warned, enabled, days), c5)
  }

  function Note(changed: seq<Part>, differs: bool, key: Part): seq<Part> {
    if differs then changed + [key] else changed
  }

  function DecideCorrect(db: Db, k: Correction): Option<Txn> {
    if !Correctable(db.sub) then None
    else
      var (settings, changed) := Correct(db.sub.settings, k);
      Some(Write(db.sub.(settings := settings), NoPatch, if changed == [] then [] else [Corrected(changed)], None))
  }

  function SentEvents(n: nat): seq<Event> {
    seq(n, i requires 0 <= i < n => SentTo(i))
  }

  /** `send_draft`; `valid` is the verdict of the role mapping on the template's current fields. */
  function DecideSend(db: Db, c: Chance): Option<Txn> {
    if !db.sub.status.Draft? || ExpiryPassed(db.sub, c.now) || !c.valid then None
    else Some(Write(db.sub.(status := Status.Pending), NoPatch, SentEvents(|db.rows|), None))
  }

  function DecideRetry(db: Db, content: Content, c: Chance): Option<Txn> {
    var txn := WithFinalize(db, NoPatch, [], content, c);
    if txn.outcome.value.Finalized? then Some(txn) else None
  }

  /** The decision of any request; None is a refusal, after which the transaction rolls back.
      `cache` is the unlocked read, `seen` the peers as the turn check sees them. */
  function Decide(db: Db, content: Content, req: Request, actor: UserId, cache: seq<Row>,
                  seen: seq<Row>, c: Chance): Option<Txn>
  {
    match req
    case CompleteSigning(row, values) => DecideComplete(db, content, row, actor, values, seen, c)
    case DeclineSigning(row) => if row < |cache| then DecideDecline(db, row, cache[row], seen, c) else None
    case CancelSubmission =>
      if !db.sub.status.Pending? then None
      else Some(Write(db.sub.(status := Cancelled), NoPatch, [CancelledBy(actor)], None))
    case ReplaceSubmitter(row, newUser) => DecideReplaceSubmitter(db, row, newUser, c)
    case ReplaceDocument(_) => DecideReplaceDocument(db, c)
    case CorrectSubmission(k) => DecideCorrect(db, k)
    case SendDraft => DecideSend(db, c)
    case DeleteDraft => if db.sub.status.Draft? then Some(DropEnvelope) else None
    case RetryCompletion => DecideRetry(db, content, c)
  }

  /** A correction lists exactly the keys whose stored value changed, writes exactly the values given,
      and forgets the expiry warning exactly when the deadline moved. */
  lemma CorrectionIsExact(s: Settings, k: Correction)
    ensures var (after, changed) := Correct(s, k);
            && (changed == [] <==> after == s)
            && after.title == (if k.title.Some? then k.title.value else s.title)
            && after.message == (if k.message.Some? then k.message.value else s.message)
            && after.expiresAt == (if k.expiresAt.Some? then k.expiresAt.value else s.expiresAt)
            && after.remindersEnabled
                 == (if k.remindersEnabled.Some? then k.remindersEnabled.value else s.remindersEnabled)
            && after.intervalDays == (if k.intervalDays.Some? then k.intervalDays.value else s.intervalDays)
            && (Title in changed <==> k.title.Some? && k.title.value != s.title)
            && (Message in changed <==> k.message.Some? && k.message.value != s.message)
            && (ExpiresAt in changed <==> k.expiresAt.Some? && k.expiresAt.value != s.expiresAt)
            && (RemindersEnabled in changed <==>
                  k.remindersEnabled.Some? && k.remindersEnabled.value != s.remindersEnabled)
            && (IntervalDays in changed <==> k.intervalDays.Some? && k.intervalDays.value != s.intervalDays)
            && after.expiryWarnedAt == (if ExpiresAt in changed then None else s.expiryWarnedAt)
  {
    var (after, changed) := Correct(s, k);
    var c1 := Note([], after.title != s.title, Title);
    var c2 := Note(c1, after.message != s.message, Message);
    var c3 := Note(c2, after.expiresAt != s.expiresAt, ExpiresAt);
    var c4 := Note(c3, after.remindersEnabled != s.remindersEnabled, RemindersEnabled);
    NoteAdds([], after.title != s.title, Title);
    NoteAdds(c1, after.message != s.message, Message);
    NoteAdds(c2, after.expiresAt != s.expiresAt, ExpiresAt);
    NoteAdds(c3, after.remindersEnabled != s.remindersEnabled, RemindersEnabled);
    NoteAdds(c4, after.intervalDays != s.intervalDays, IntervalDays);
  }

  lemma NoteAdds(changed: seq<Part>, differs: bool, key: Part)
    ensures forall name :: name in Note(changed, differs, key) <==> name in changed || (differs && name == key)
  {
  }
}
