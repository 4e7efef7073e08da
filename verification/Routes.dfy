/**
 The routes as the program writes them: one transaction that holds the row lock, reads
 the rows the lock made current, and assigns fields one after the other.  Every method
 is tied to the decision function the protocol runs on: a refusal leaves the rows as
 they were, anything else leaves them as the decided transaction commits them.  Every
 method keeps the invariant of the committed rows, whose history (did the latest finalize
 attempt fail to stamp?) it takes as a ghost.
 */
module Routes {
  import opened Basics
  import opened Envelope
  import opened Transactions
  import opened Invariant
  import Protocol
  import Theorems

  datatype Reply = Refused | Replied(outcome: Option<Outcome>)

  /** The field-by-field comparison of a PATCH: only a value that differs is stored and named. */
  method ApplyCorrection(before: Settings, k: Correction) returns (settings: Settings, changed: seq<Part>)
    ensures (settings, changed) == Correct(before, k)
  {
    settings, changed := before, [];
    if k.title.Some? && k.title.value != settings.title {
      settings := settings.(title := k.title.value);
      changed := changed + [Title];
    }
    assert changed == Note([], settings.title != before.title, Title);
    if k.message.Some? && k.message.value != settings.message {
      settings := settings.(message := k.message.value);
      changed := changed + [Message];
    }
    if k.expiresAt.Some? && k.expiresAt.value != settings.expiresAt {
      settings := settings.(expiresAt := k.expiresAt.value, expiryWarnedAt := None);
      changed := changed + [ExpiresAt];
    }
    if k.remindersEnabled.Some? && k.remindersEnabled.value != settings.remindersEnabled {
      settings := settings.(remindersEnabled := k.remindersEnabled.value);
      changed := changed + [RemindersEnabled];
    }
    if k.intervalDays.Some? && k.intervalDays.value != settings.intervalDays {
      settings := settings.(intervalDays := k.intervalDays.value);
      changed := changed + [IntervalDays];
    }
  }

  /** Whether the latest finalize attempt failed, after this reply. */
  function FailedAfter(reply: Reply, lastFailed: bool): bool {
    match reply
    case Replied(Some(Finalized(stamped))) => !stamped
    case _ => lastFailed
  }

  /** The rows and the answer after a decision. */
  function Decided(before: Db, decision: Option<Txn>): (Db, Reply) {
    match decision
    case None => (before, Refused)
    case Some(txn) => (Committed(before, txn), Replied(if txn.Write? then txn.outcome else None))
  }

  /** The invariant is kept, and requests waiting with an older read may still use it. */
  ghost predicate Kept(before: Db, stored: map<TemplateId, Content>, lastFailed: bool, after: Db,
                       files: map<TemplateId, Content>, reply: Reply)
  {
    DbInv(before, stored, lastFailed) ==>
      DbInv(after, files, FailedAfter(reply, lastFailed)) && Extends(before, after)
  }

  lemma SafeIsKept(before: Db, stored: map<TemplateId, Content>, files: map<TemplateId, Content>, lastFailed: bool,
                   decision: Option<Txn>)
    requires decision.None? ==> files == stored
    requires decision.Some? && DbInv(before, stored, lastFailed) ==>
               CommitSafe(before, files, lastFailed, decision.value)
    ensures var (after, reply) := Decided(before, decision);
            Kept(before, stored, lastFailed, after, files, reply)
  {
  }

  /** No two recipients are one person. */
  predicate PeopleDistinct(rows: seq<Row>) {
    forall i, j :: 0 <= i < j < |rows| ==> rows[i].userId != rows[j].userId
  }

  /** The trail names exactly the settings that differ, and the old warning is forgotten with the old deadline. */
  predicate Names(changed: seq<Part>, before: Settings, after: Settings) {
    && (Title in changed <==> after.title != before.title)
    && (Message in changed <==> after.message != before.message)
    && (ExpiresAt in changed <==> after.expiresAt != before.expiresAt)
    && (RemindersEnabled in changed <==> after.remindersEnabled != before.remindersEnabled)
    && (IntervalDays in changed <==> after.intervalDays != before.intervalDays)
    && after.expiryWarnedAt == (if after.expiresAt != before.expiresAt then None else before.expiryWarnedAt)
  }

  /** Writing first and finalizing the rows so written is the one committed transaction. */
  lemma FinalizedRows(before: Db, patch: Patch, events: seq<Event>, content: Content, c: Chance)
    ensures var rows := ApplyPatch(before.rows, patch);
            var (sub, more, o) := Transactions.FinalizeIfReady(before.sub, rows, before.log + events, content, c);
            Decided(before, Some(WithFinalize(before, patch, events, content, c)))
              == (Db(sub, rows, before.log + events + more), Replied(Some(o)))
  {
    var rows := ApplyPatch(before.rows, patch);
    var (sub, more, o) := Transactions.FinalizeIfReady(before.sub, rows, before.log + events, content, c);
    assert before.log + events + more == before.log + (events + more);
  }

  /** The row is the caller's and unsigned, the envelope pending and before its deadline, every signer of lower
      order has completed as read, and the values are valid. */
  predicate SigningAllowed(before: Db, row: nat, authorized: UserId, seen: seq<Row>, c: Chance)
    requires row < |before.rows|
  {
    && before.rows[row].userId == authorized && !before.rows[row].status.Completed? && before.sub.status.Pending?
    && (before.sub.settings.expiresAt.None? || c.now < before.sub.settings.expiresAt.value)
    && (forall j :: 0 <= j < |seen| && !seen[j].isCc && seen[j].order < before.rows[row].order ==>
          seen[j].status.Completed?)
    && c.valid
  }

  lemma SigningMeans(before: Db, content: Content, row: nat, authorized: UserId, values: Values, seen: seq<Row>,
                     c: Chance)
    requires row < |before.rows|
    ensures var after := Decided(before, DecideComplete(before, content, row, authorized, values, seen, c)).0.rows;
            && (after != before.rows <==> SigningAllowed(before, row, authorized, seen, c))
            && (after != before.rows ==>
                  && |after| == |before.rows| && after[row].status.Completed? && after[row].values == values
                  && forall j :: 0 <= j < |after| && j != row ==> after[j] == before.rows[j])
  {
  }

  /** A signer's peers as read now or earlier: same recipients, and whoever had completed still has. */
  predicate FairlySeen(rows: seq<Row>, row: nat, seen: seq<Row>) {
    row < |rows| && !rows[row].isCc && SameShape(seen, rows) && Grows(seen, rows)
  }

  lemma CompletionIsKept(before: Db, files: map<TemplateId, Content>, lastFailed: bool, row: nat, authorized: UserId,
                         values: Values, seen: seq<Row>, c: Chance)
    requires before.sub.template in files
    ensures var d := DecideComplete(before, files[before.sub.template], row, authorized, values, seen, c);
            FairlySeen(before.rows, row, seen) ==>
              Kept(before, files, lastFailed, Decided(before, d).0, files, Decided(before, d).1)
  {
    if FairlySeen(before.rows, row, seen) {
      if DbInv(before, files, lastFailed) {
        CompletionIsSafe(before, files, lastFailed, row, authorized, values, seen, c);
      }
      SafeIsKept(before, files, files, lastFailed,
                 DecideComplete(before, files[before.sub.template], row, authorized, values, seen, c));
    }
  }

  /** The last event is a decline by the row's owner, and no signature of the row is on record. */
  ghost predicate OwnDecline(db: Db, row: nat) {
    && row < |db.rows| && db.log != [] && db.log[|db.log| - 1] == DeclinedBy(row, db.rows[row].userId)
    && forall u :: Times(db.log, SignedBy(row, u)) == 0
  }

  lemma DeclineIsKept(before: Db, files: map<TemplateId, Content>, lastFailed: bool, row: nat, me: Row,
                      seen: seq<Row>, c: Chance)
    requires row < |before.rows|
    ensures var d := DecideDecline(before, row, me, seen, c);
            && Kept(before, files, lastFailed, Decided(before, d).0, files, Decided(before, d).1)
            && (d.Some? && DbInv(before, files, lastFailed) ==>
                  (OwnDecline(Decided(before, d).0, row) <==>
                     before.rows[row].userId == me.userId && !before.rows[row].status.Completed?))
  {
    var d := DecideDecline(before, row, me, seen, c);
    if DbInv(before, files, lastFailed) {
      DeclineIsSafe(before, files, lastFailed, row, me, seen, c);
      if d.Some? {
        Theorems.DeclineBuries(before, files, lastFailed, row, me, seen, c);
      }
    }
    SafeIsKept(before, files, files, lastFailed, d);
  }

  lemma QuietIsKept(before: Db, files: map<TemplateId, Content>, lastFailed: bool, req: Request, actor: UserId,
                    cache: seq<Row>, seen: seq<Row>, c: Chance)
    requires req.CancelSubmission? || req.ReplaceSubmitter? || req.CorrectSubmission? || req.SendDraft?
    ensures forall content ::
              var d := Decide(before, content, req, actor, cache, seen, c);
              Kept(before, files, lastFailed, Decided(before, d).0, files, Decided(before, d).1)
  {
    forall content
      ensures var d := Decide(before, content, req, actor, cache, seen, c);
              Kept(before, files, lastFailed, Decided(before, d).0, files, Decided(before, d).1)
    {
      var d := Decide(before, content, req, actor, cache, seen, c);
      if DbInv(before, files, lastFailed) {
        QuietDecisionIsSafe(before, files, lastFailed, req, actor, cache, seen, c);
        assert d == Decide(before, files[before.sub.template], req, actor, cache, seen, c);
      }
      SafeIsKept(before, files, files, lastFailed, d);
    }
  }

  /** The removed person can no longer act on the row, the new one can once it is sent, and two recipients are
      never one person. */
  predicate HandedOver(before: Db, after: Db, row: nat, newUser: UserId) {
    && row < |before.rows| == |after.rows|
    && (forall j :: 0 <= j < |before.rows| && j != row ==> after.rows[j] == before.rows[j])
    && (var (was, now) := (before.rows[row], after.rows[row]);
        now == Row(newUser, was.role, was.isCc, was.order, RowStatus.Pending, map[], None, None,
                    Mail(None, was.mail.firstNotified, None, 0)))
    && (newUser != before.rows[row].userId ==> !Protocol.Authorized(after, row, before.rows[row].userId))
    && (after.sub.status.Pending? && !after.rows[row].isCc ==> Protocol.Authorized(after, row, newUser))
    && (PeopleDistinct(before.rows) ==> PeopleDistinct(after.rows))
  }

  lemma ReplacementIsKept(before: Db, files: map<TemplateId, Content>, lastFailed: bool, row: nat, newUser: UserId,
                          c: Chance)
    ensures var d := DecideReplaceSubmitter(before, row, newUser, c);
            var (after, reply) := Decided(before, d);
            && Kept(before, files, lastFailed, after, files, reply)
            && (d.Some? ==> HandedOver(before, after, row, newUser))
            && (d.Some? && DbInv(before, files, lastFailed) ==> forall u :: Times(after.log, SignedBy(row, u)) == 0)
  {
    QuietIsKept(before, files, lastFailed, Request.ReplaceSubmitter(row, newUser), newUser, before.rows,
                before.rows, c);
    assert DecideReplaceSubmitter(before, row, newUser, c)
        == Decide(before, 0, Request.ReplaceSubmitter(row, newUser), newUser, before.rows, before.rows, c);
  }

  /** Every setting that was given has the value given, every other the value it had. */
  predicate AsGiven(k: Correction, before: Settings, after: Settings) {
    && after.title == (if k.title.Some? then k.title.value else before.title)
    && after.message == (if k.message.Some? then k.message.value else before.message)
    && after.expiresAt == (if k.expiresAt.Some? then k.expiresAt.value else before.expiresAt)
    && after.remindersEnabled
         == (if k.remindersEnabled.Some? then k.remindersEnabled.value else before.remindersEnabled)
    && after.intervalDays == (if k.intervalDays.Some? then k.intervalDays.value else before.intervalDays)
  }

  lemma CorrectionNames(before: Settings, k: Correction)
    ensures var (after, changed) := Correct(before, k);
            Names(changed, before, after) && (changed == [] <==> after == before) && AsGiven(k, before, after)
  {
    CorrectionIsExact(before, k);
  }

  /** Only settings and trail move, the trail by one event exactly when a setting changed, naming what changed. */
  ghost predicate CorrectlyLogged(before: Db, after: Db) {
    && after == Db(before.sub.(settings := after.sub.settings), before.rows, after.log)
    && (after.log == before.log <==> after.sub.settings == before.sub.settings)
    && (after.log != before.log ==> exists changed ::
          after.log == before.log + [Corrected(changed)] && Names(changed, before.sub.settings, after.sub.settings))
  }

  lemma CorrectionMeans(before: Db, k: Correction)
    ensures var after := Decided(before, DecideCorrect(before, k)).0;
            && CorrectlyLogged(before, after)
            && (DecideCorrect(before, k).Some? ==> AsGiven(k, before.sub.settings, after.sub.settings))
  {
    CorrectionNames(before.sub.settings, k);
    assert before.log + [] == before.log;
  }

  lemma CorrectionIsKept(before: Db, files: map<TemplateId, Content>, lastFailed: bool, k: Correction)
    ensures var (after, reply) := Decided(before, DecideCorrect(before, k));
            && Kept(before, files, lastFailed, after, files, reply)
            && CorrectlyLogged(before, after)
            && (DecideCorrect(before, k).Some? ==> AsGiven(k, before.sub.settings, after.sub.settings))
  {
    CorrectionMeans(before, k);
    var c := Chance(0, true, true, 0);
    QuietIsKept(before, files, lastFailed, Request.CorrectSubmission(k), 0, before.rows, before.rows, c);
    assert DecideCorrect(before, k) == Decide(before, 0, Request.CorrectSubmission(k), 0, before.rows, before.rows, c);
  }

  class LockedEnvelope {
    var status: Status
    var template: TemplateId
    var adhoc: bool
    var settings: Settings
    var signedPdf: Option<Stamp>
    var certificate: Option<seq<Event>>
    var completedAt: Option<int>
    var rows: seq<Row>
    var log: seq<Event>
    var files: map<TemplateId, Content>

    function Sub(): Submission
      reads this
    {
      Submission(status, template, adhoc, settings, signedPdf, certificate, completedAt)
    }

    function View(): Db
      reads this
    {
      Db(Sub(), rows, log)
    }

    predicate Stored()
      reads this
    {
      template in files
    }

    /** The reply and the new rows are those of the decision. */
    ghost predicate Follows(before: Db, decision: Option<Txn>, reply: Reply)
      reads this
    {
      (View(), reply) == Decided(before, decision)
    }

    ghost predicate Keeps(before: Db, stored: map<TemplateId, Content>, lastFailed: bool, reply: Reply)
      reads this
    {
      Kept(before, stored, lastFailed, View(), files, reply)
    }

    method Record(e: Event)
      modifies this`log
      ensures log == old(log) + [e]
    {
      log := log + [e];
    }

    /** Build first, then mutate: `stamps` says whether building and saving the PDFs went through. */
    method Finalize(now: int, stamps: bool)
      requires Stored()
      modifies this`signedPdf, this`certificate, this`status, this`completedAt, this`log
      ensures !stamps ==> View() == old(View())
      ensures stamps ==>
                View() == Db(old(Sub()).(signedPdf := Some(Stamp(files[template], Entries(rows))),
                                         certificate := Some(old(log)), status := Status.Completed,
                                         completedAt := Some(now)),
                             rows, old(log) + [EnvelopeCompleted])
    {
      if !stamps {
        return;
      }
      var keys := (Stamp(files[template], Entries(rows)), log);
      signedPdf, certificate := Some(keys.0), Some(keys.1);
      status := Status.Completed;
      completedAt := Some(now);
      Record(EnvelopeCompleted);
    }

    method FinalizeIfReady(c: Chance) returns (outcome: Outcome)
      requires Stored()
      modifies this`signedPdf, this`certificate, this`status, this`completedAt, this`log
      ensures var (sub, more, o) := Transactions.FinalizeIfReady(old(Sub()), rows, old(log), files[template], c);
              outcome == o && View() == Db(sub, rows, old(log) + more)
    {
      if !status.Pending? {
        return NotPending;
      }
      if exists i :: 0 <= i < |rows| && !rows[i].isCc && !rows[i].status.Completed? {
        return NotAllCompleted;
      }
      Finalize(c.now, c.stamps);
      outcome := Finalized(c.stamps);
    }

    /** The turn may have been checked on peers read earlier: `seen`. */
    method CompleteSigning(row: nat, authorized: UserId, values: Values, seen: seq<Row>, c: Chance,
                           ghost lastFailed: bool) returns (reply: Reply)
      requires Stored() && row < |rows|
      modifies this
      ensures Follows(old(View()), DecideComplete(old(View()), old(files[template]), row, authorized, values, seen, c),
                      reply)
      ensures FairlySeen(old(rows), row, seen) ==> Keeps(old(View()), old(files), lastFailed, reply)
      ensures rows != old(rows) <==> SigningAllowed(old(View()), row, authorized, seen, c)
      ensures rows != old(rows) ==>
                && |rows| == |old(rows)| && rows[row].status.Completed? && rows[row].values == values
                && forall j :: 0 <= j < |rows| && j != row ==> rows[j] == old(rows)[j]
    {
      SigningMeans(View(), files[template], row, authorized, values, seen, c);
      CompletionIsKept(View(), files, lastFailed, row, authorized, values, seen, c);
      var submitter := rows[row];
      if submitter.userId != authorized {
        return Refused;
      }
      if submitter.status.Completed? {
        var again := FinalizeOnly(c);
        return Replied(Some(again));
      }
      if !status.Pending? || ExpiryPassed(Sub(), c.now) {
        return Refused;
      }
      if !GroupReached(seen, submitter.order) || !c.valid {
        return Refused;
      }
      var outcome := SignAndFinalize(row, values, authorized, c);
      reply := Replied(Some(outcome));
    }

    method FinalizeOnly(c: Chance) returns (outcome: Outcome)
      requires Stored()
      modifies this`signedPdf, this`certificate, this`status, this`completedAt, this`log
      ensures Follows(old(View()), Some(WithFinalize(old(View()), NoPatch, [], files[template], c)),
                      Replied(Some(outcome)))
    {
      FinalizedRows(View(), NoPatch, [], files[template], c);
      assert log + [] == log;
      outcome := FinalizeIfReady(c);
    }

    method SignAndFinalize(row: nat, values: Values, author: UserId, c: Chance) returns (outcome: Outcome)
      requires Stored() && row < |rows| && rows[row].userId == author
      modifies this`rows, this`signedPdf, this`certificate, this`status, this`completedAt, this`log
      ensures Follows(old(View()),
                      Some(WithFinalize(old(View()), SignPatch(row, author, values, files[template]),
                                        [SignedBy(row, author)], files[template], c)),
                      Replied(Some(outcome)))
    {
      FinalizedRows(View(), SignPatch(row, author, values, files[template]), [SignedBy(row, author)],
                    files[template], c);
      SaveSignature(row, values, author);
      outcome := FinalizeIfReady(c);
    }

    method SaveSignature(row: nat, values: Values, author: UserId)
      requires Stored() && row < |rows| && rows[row].userId == author
      modifies this`rows, this`log
      ensures rows == ApplyPatch(old(rows), SignPatch(row, author, values, files[template]))
      ensures log == old(log) + [SignedBy(row, author)]
    {
      var submitter := rows[row];
      submitter := submitter.(values := values, enteredBy := Some(author));
      submitter := submitter.(status := RowStatus.Completed, signedOn := Some(files[template]));
      rows := rows[row := submitter];
      Record(SignedBy(row, submitter.userId));
    }

    /** `me` is the row as read before the lock; only its status column is written back.  The decline is its
        owner's and buries no signature exactly when the row is still theirs and unsigned. */
    method DeclineSigning(row: nat, me: Row, seen: seq<Row>, c: Chance, ghost lastFailed: bool)
      returns (reply: Reply)
      requires row < |rows|
      modifies this
      ensures Follows(old(View()), DecideDecline(old(View()), row, me, seen, c), reply)
      ensures reply.Replied? <==>
                && old(status).Pending? && (me.status.Pending? || me.status.Opened?)
                && (old(settings).expiresAt.None? || c.now < old(settings).expiresAt.value)
                && forall j :: 0 <= j < |seen| && !seen[j].isCc && seen[j].order < me.order ==>
                     seen[j].status.Completed?
      ensures Keeps(old(View()), old(files), lastFailed, reply)
      ensures reply.Replied? && DbInv(old(View()), old(files), lastFailed) ==>
                (OwnDecline(View(), row) <==> old(rows)[row].userId == me.userId && !old(rows)[row].status.Completed?)
    {
      DeclineIsKept(View(), files, lastFailed, row, me, seen, c);
      if !status.Pending? || !(me.status.Pending? || me.status.Opened?) {
        return Refused;
      }
      if ExpiryPassed(Sub(), c.now) {
        return Refused;
      }
      if !GroupReached(seen, me.order) {
        return Refused;
      }
      SaveDecline(row, me.userId);
      reply := Replied(None);
    }

    method SaveDecline(row: nat, user: UserId)
      requires row < |rows|
      modifies this`rows, this`status, this`log
      ensures View() == Committed(old(View()), Write(old(Sub()).(status := Status.Declined), DeclinePatch(row),
                                                     [DeclinedBy(row, user)], None))
    {
      rows := rows[row := rows[row].(status := RowStatus.Declined)];
      status := Status.Declined;
      Record(DeclinedBy(row, user));
    }

    /** A voided envelope is closed, with its signatures as they were and no executed document. */
    method CancelSubmission(actor: UserId, cache: seq<Row>, seen: seq<Row>, c: Chance, ghost lastFailed: bool)
      returns (reply: Reply)
      requires Stored()
      modifies this
      ensures Follows(old(View()),
                      Decide(old(View()), old(files[template]), Request.CancelSubmission, actor, cache, seen, c), reply)
      ensures Keeps(old(View()), old(files), lastFailed, reply)
      ensures reply.Replied? <==> old(status).Pending?
      ensures reply.Replied? ==> status.Cancelled? && rows == old(rows) && log == old(log) + [CancelledBy(actor)]
      ensures reply.Replied? && DbInv(old(View()), old(files), lastFailed) ==>
                signedPdf.None? && certificate.None? && Times(log, EnvelopeCompleted) == 0
    {
      QuietIsKept(View(), files, lastFailed, Request.CancelSubmission, actor, cache, seen, c);
      if !status.Pending? {
        return Refused;
      }
      status := Cancelled;
      Record(CancelledBy(actor));
      reply := Replied(None);
    }

    /** The removed person can no longer act on the row and the new one can, nothing is signed on it, and no
        person ends up on two rows. */
    method ReplaceSubmitter(row: nat, newUser: UserId, c: Chance, ghost lastFailed: bool) returns (reply: Reply)
      modifies this
      ensures Follows(old(View()), DecideReplaceSubmitter(old(View()), row, newUser, c), reply)
      ensures Keeps(old(View()), old(files), lastFailed, reply)
      ensures reply.Replied? <==>
                && (old(status).Pending? || old(status).Draft?) && row < |old(rows)|
                && !old(rows)[row].status.Completed? && c.valid
                && forall j :: 0 <= j < |old(rows)| && j != row ==> old(rows)[j].userId != newUser
      ensures reply.Replied? ==> HandedOver(old(View()), View(), row, newUser)
      ensures reply.Replied? && DbInv(old(View()), old(files), lastFailed) ==>
                forall u :: Times(log, SignedBy(row, u)) == 0
    {
      ReplacementIsKept(View(), files, lastFailed, row, newUser, c);
      if !status.Pending? && !status.Draft? {
        return Refused;
      }
      if row >= |rows| {
        return Refused;
      }
      var submitter := rows[row];
      if submitter.status.Completed? || !c.valid {
        return Refused;
      }
      if exists j :: 0 <= j < |rows| && rows[j].userId == newUser && j != row {
        return Refused;
      }
      SaveReplacement(row, newUser);
      reply := Replied(None);
    }

    method SaveReplacement(row: nat, newUser: UserId)
      requires row < |rows|
      modifies this`rows, this`log
      ensures rows == ApplyPatch(old(rows), ReplacePatch(row, newUser))
      ensures log == old(log) + [Replaced(row, old(rows)[row].userId, newUser)]
    {
      var submitter := rows[row];
      var removed := submitter.userId;
      submitter := submitter.(userId := newUser, status := RowStatus.Pending);
      submitter := submitter.(values := map[], enteredBy := None, signedOn := None);
      submitter := submitter.(mail := submitter.mail.(lastReminded := None, reminderCount := 0, emailStatus := None));
      rows := rows[row := submitter];
      Record(Replaced(row, removed, newUser));
    }

    /** Storage is written before the commit, under the ad-hoc template's own key or a fresh clone's. */
    method ReplaceDocument(content: Content, c: Chance, ghost lastFailed: bool) returns (reply: Reply)
      requires Stored() && c.freshTemplate !in files
      modifies this
      ensures Follows(old(View()), DecideReplaceDocument(old(View()), c), reply)
      ensures reply.Replied? <==>
                && (old(status).Pending? || old(status).Draft?) && c.valid
                && forall i :: 0 <= i < |old(rows)| && !old(rows)[i].isCc ==> !old(rows)[i].status.Completed?
      ensures reply.Refused? ==> files == old(files)
      ensures reply.Replied? ==> adhoc && files == old(files)[template := content]
      ensures reply.Replied? && !old(adhoc) ==> template == c.freshTemplate && old(template) != template
      ensures Keeps(old(View()), old(files), lastFailed, reply)
    {
      if DbInv(View(), files, lastFailed) {
        ReplaceDocumentIsSafe(View(), files, lastFailed, content, c);
      }
      if !status.Pending? && !status.Draft? {
        return Refused;
      }
      if exists i :: 0 <= i < |rows| && !rows[i].isCc && rows[i].status.Completed? {
        return Refused;
      }
      if !c.valid {
        return Refused;
      }
      if !adhoc {
        template := c.freshTemplate;
        adhoc := true;
      }
      files := files[template := content];
      Record(Corrected([Document]));
      reply := Replied(None);
    }

    /** The trail gets an event exactly when a setting changed, and the event names what changed. */
    method CorrectSubmission(k: Correction, ghost lastFailed: bool) returns (reply: Reply)
      modifies this
      ensures Follows(old(View()), DecideCorrect(old(View()), k), reply)
      ensures Keeps(old(View()), old(files), lastFailed, reply)
      ensures CorrectlyLogged(old(View()), View())
      ensures reply.Replied? <==> old(status).Pending? || old(status).Draft?
      ensures reply.Replied? ==> AsGiven(k, old(settings), settings)
    {
      CorrectionIsKept(View(), files, lastFailed, k);
      if !status.Pending? && !status.Draft? {
        return Refused;
      }
      var changed;
      settings, changed := ApplyCorrection(settings, k);
      assert log + [] == log;
      if changed != [] {
        Record(Corrected(changed));
      }
      reply := Replied(None);
    }

    method SendDraft(c: Chance, ghost lastFailed: bool) returns (reply: Reply)
      modifies this
      ensures Follows(old(View()), DecideSend(old(View()), c), reply)
      ensures reply.Replied? <==>
                old(status).Draft? && c.valid
                && (old(settings).expiresAt.None? || c.now < old(settings).expiresAt.value)
      ensures reply.Replied? ==>
                && status.Pending? && rows == old(rows) && |log| == |old(log)| + |rows| && log[..|old(log)|] == old(log)
                && forall i :: 0 <= i < |rows| ==> log[|old(log)| + i] == SentTo(i)
      ensures Keeps(old(View()), old(files), lastFailed, reply)
    {
      QuietIsKept(View(), files, lastFailed, Request.SendDraft, 0, rows, rows, c);
      assert DecideSend(View(), c) == Decide(View(), 0, Request.SendDraft, 0, rows, rows, c);
      if !status.Draft? || ExpiryPassed(Sub(), c.now) || !c.valid {
        return Refused;
      }
      status := Status.Pending;
      RecordSent();
      reply := Replied(None);
    }

    /** One `sent` event for each recipient, in order. */
    method RecordSent()
      modifies this`log
      ensures log == old(log) + SentEvents(|rows|)
    {
      for i := 0 to |rows|
        invariant log == old(log) + SentEvents(i)
      {
        Record(SentTo(i));
        assert SentEvents(i + 1) == SentEvents(i) + [SentTo(i)];
      }
    }

    /** No request gets past its first read any more, and no signature is lost. */
    method DeleteDraft(ghost lastFailed: bool) returns (reply: Reply)
      modifies this
      ensures Follows(old(View()), if old(status).Draft? then Some(DropEnvelope) else None, reply)
      ensures Keeps(old(View()), old(files), lastFailed, reply)
      ensures reply.Replied? <==> old(status).Draft?
      ensures reply.Replied? ==> forall req, actor :: !Protocol.MayProceed(View(), req, actor)
      ensures reply.Replied? && DbInv(old(View()), old(files), lastFailed) ==>
                forall i :: 0 <= i < |old(rows)| ==> !old(rows)[i].status.Completed?
    {
      if !status.Draft? {
        return Refused;
      }
      log := [];
      rows := [];
      status := Deleted;
      reply := Replied(None);
    }

    method RetryCompletion(c: Chance, ghost lastFailed: bool) returns (reply: Reply)
      requires Stored()
      modifies this
      ensures Follows(old(View()), DecideRetry(old(View()), old(files[template]), c), reply)
      ensures reply.Replied? <==>
                old(status).Pending? && forall i :: 0 <= i < |rows| && !rows[i].isCc ==> rows[i].status.Completed?
      ensures status.Completed? && !old(status).Completed? <==> reply.Replied? && c.stamps
      ensures Keeps(old(View()), old(files), lastFailed, reply)
    {
      if DbInv(View(), files, lastFailed) {
        FinalizeIsSafe(View(), files, lastFailed, c);
      }
      var outcome := FinalizeOnly(c);
      if !outcome.Finalized? {
        ghost var none: seq<Event> := [];
        assert none + none == none && old(log) + none == old(log);
        return Refused;
      }
      reply := Replied(Some(outcome));
    }
  }
}
