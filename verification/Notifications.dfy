/** The mail loops as the program runs them: one recipient after the other, assigning as they go. */
module Notifications {
  import opened Basics
  import opened Envelope
  import opened Transactions
  import opened Routing
  import Protocol

  /** Every signer of lower order has completed. */
  predicate Reached(rows: seq<Row>, i: nat)
    requires i < |rows|
  {
    forall j :: 0 <= j < |rows| && !rows[j].isCc && rows[j].order < rows[i].order ==> rows[j].status.Completed?
  }

  /** The row after an attempt at `at`: its outcome is noted, and the time if it was the first attempt. */
  function Written(row: Row, at: int, delivered: bool): Row {
    row.(mail := Mail(Some(if delivered then Delivery.Sent else Failed),
                      if row.mail.firstNotified.Some? then row.mail.firstNotified else Some(at),
                      row.mail.lastReminded, row.mail.reminderCount))
  }

  /** A mail loop that has passed the first i rows. */
  ghost predicate Halfway(before: seq<Row>, after: seq<Row>, rows: seq<Row>, i: nat) {
    && |rows| == |before| == |after|
    && forall j :: 0 <= j < |rows| ==> rows[j] == if j < i then after[j] else before[j]
  }

  lemma HooksKeepProgress(rows: seq<Row>, at: int, ok: set<nat>)
    ensures SameProgress(rows, CreatedHook(rows, at, ok)) && SameProgress(rows, CompletedHook(rows, at, ok))
  {
  }

  /** Mail sent so far does not change who is due. */
  lemma HalfwayDue(before: seq<Row>, after: seq<Row>, rows: seq<Row>, i: nat)
    requires Halfway(before, after, rows, i) && SameProgress(before, after) && i < |rows|
    ensures RecipientDue(rows, i) == RecipientDue(before, i) && rows[i] == before[i]
  {
    SameProgressSameDue(before, rows);
  }

  lemma HalfwayStep(before: seq<Row>, after: seq<Row>, passed: seq<Row>, rows: seq<Row>, i: nat)
    requires Halfway(before, after, passed, i) && i < |passed| && rows == passed[i := after[i]]
    ensures Halfway(before, after, rows, i + 1)
  {
  }

  class Mailroom {
    var sub: Submission
    var rows: seq<Row>
    var log: seq<Event>
    var createdAt: int
    var notices: seq<Notice>

    function View(): Db
      reads this
    {
      Db(sub, rows, log)
    }

    method SendRecipientEmail(i: nat, at: int, delivered: bool)
      requires i < |rows|
      modifies this`rows
      ensures rows == old(rows)[i := Contact(old(rows)[i], at, delivered)]
    {
      var mail := rows[i].mail.(emailStatus := Some(if delivered then Delivery.Sent else Failed));
      if mail.firstNotified.None? {
        mail := mail.(firstNotified := Some(at));
      }
      rows := rows[i := rows[i].(mail := mail)];
    }

    method OnSubmissionCreated(at: int, ok: set<nat>)
      modifies this`rows
      ensures rows == CreatedHook(old(rows), at, ok)
      ensures forall i :: 0 <= i < |rows| ==>
                rows[i] == if Reached(old(rows), i) then Written(old(rows)[i], at, i in ok) else old(rows)[i]
    {
      ghost var before, after := rows, CreatedHook(rows, at, ok);
      HooksKeepProgress(rows, at, ok);
      for i := 0 to |rows|
        invariant Halfway(before, after, rows, i)
      {
        ghost var passed := rows;
        HalfwayDue(before, after, rows, i);
        if RecipientDue(rows, i) {
          SendRecipientEmail(i, at, i in ok);
        }
        HalfwayStep(before, after, passed, rows, i);
      }
      assert rows == after;
    }

    method OnSubmitterCompleted(at: int, ok: set<nat>)
      modifies this`rows
      ensures rows == CompletedHook(old(rows), at, ok)
      ensures forall i :: 0 <= i < |rows| ==>
                rows[i] == if !old(rows)[i].status.Completed? && old(rows)[i].mail.emailStatus.None?
                              && Reached(old(rows), i)
                           then Written(old(rows)[i], at, i in ok) else old(rows)[i]
    {
      ghost var before, after := rows, CompletedHook(rows, at, ok);
      HooksKeepProgress(rows, at, ok);
      for i := 0 to |rows|
        invariant Halfway(before, after, rows, i)
      {
        ghost var passed := rows;
        HalfwayDue(before, after, rows, i);
        if !rows[i].status.Completed? && rows[i].mail.emailStatus.None? && RecipientDue(rows, i) {
          SendRecipientEmail(i, at, i in ok);
        }
        HalfwayStep(before, after, passed, rows, i);
      }
      assert rows == after;
    }

    /** `_eligible_submitters`, in row order. */
    method EligibleSubmitters(minDays: Option<int>, now: int) returns (due: seq<nat>)
      ensures due == EligibleRows(View(), createdAt, minDays, now, |rows|)
    {
      due := [];
      for i := 0 to |rows|
        invariant due == EligibleRows(View(), createdAt, minDays, now, i)
      {
        if Eligible(View(), createdAt, i, minDays, now) {
          due := due + [i];
        }
      }
    }

    /** `_send_reminder` for every row of a list without repetitions. */
    method SendEach(due: seq<nat>, sentAt: int, days: Option<int>)
      requires forall k :: 0 <= k < |due| ==> due[k] < |rows|
      requires forall j, k :: 0 <= j < k < |due| ==> due[j] < due[k]
      modifies this`rows, this`notices
      ensures |rows| == |old(rows)|
      ensures forall i :: 0 <= i < |rows| ==>
                rows[i] == if i in due then RemindRow(old(rows)[i], sentAt) else old(rows)[i]
      ensures notices == old(notices) + Notes(due, sentAt, days)
    {
      for k := 0 to |due|
        invariant |rows| == |old(rows)|
        invariant forall j :: 0 <= j < k ==> rows[due[j]] == RemindRow(old(rows)[due[j]], sentAt)
        invariant forall i :: 0 <= i < |rows| && i !in due[..k] ==> rows[i] == old(rows)[i]
        invariant notices == old(notices) + Notes(due[..k], sentAt, days)
      {
        var i := due[k];
        assert i !in due[..k] && due[..k + 1] == due[..k] + [i];
        assert Notes(due[..k + 1], sentAt, days) == Notes(due[..k], sentAt, days) + [ReminderNote(i, sentAt, days)];
        rows := rows[i := RemindRow(rows[i], sentAt)];
        notices := notices + [Reminded(i, sentAt, days)];
      }
      assert due[..|due|] == due;
    }

    /** The list is settled before the first reminder goes out, so a reminder sent does not change who is due. */
    method SendReminders(minDays: Option<int>, now: int, sentAt: int) returns (count: nat)
      modifies this`rows, this`notices
      ensures rows == RemindRows(old(View()), createdAt, minDays, now, sentAt)
      ensures notices == old(notices) + RemindNotices(old(View()), createdAt, minDays, now, sentAt)
      ensures count == |EligibleRows(old(View()), createdAt, minDays, now, |old(rows)|)|
    {
      var due := EligibleSubmitters(minDays, now);
      EligibleRowsAreAll(View(), createdAt, minDays, now, |rows|, due);
      SendEach(due, sentAt, if minDays.None? then Some(sub.settings.intervalDays) else None);
      count := |due|;
    }
  }

  /** The daily expiry job: the envelopes that are due, settled by one query, then flipped one by one. */
  method RunExpirations(envelopes: seq<Db>, now: int) returns (after: seq<Db>, count: nat)
    ensures |after| == |envelopes|
    ensures forall i :: 0 <= i < |envelopes| ==> after[i] == Protocol.AfterExpire(envelopes[i], now)
    ensures forall i :: 0 <= i < |envelopes| ==>
              var sub := envelopes[i].sub;
              after[i] == if sub.status.Pending? && sub.settings.expiresAt.Some? && sub.settings.expiresAt.value <= now
                          then Db(sub.(status := Expired), envelopes[i].rows, envelopes[i].log + [EnvelopeExpired])
                          else envelopes[i]
    ensures count == |PastDue(envelopes, now)|
  {
    var due := PastDue(envelopes, now);
    after := envelopes;
    for k := 0 to |due|
      invariant Flipped(envelopes, after, due[..k], now)
    {
      var i := due[k];
      assert i in due && i !in due[..k] && due[..k + 1] == due[..k] + [i];
      FlipOne(envelopes, after, due[..k], now, i);
      after := after[i := after[i].(sub := after[i].sub.(status := Expired), log := after[i].log + [EnvelopeExpired])];
    }
    assert due[..|due|] == due;
    count := |due|;
  }

  /** The envelopes in `done` have been flipped, the others not. */
  predicate Flipped(envelopes: seq<Db>, after: seq<Db>, done: seq<nat>, now: int) {
    && |after| == |envelopes|
    && forall i :: 0 <= i < |envelopes| ==>
         after[i] == if i in done then Protocol.AfterExpire(envelopes[i], now) else envelopes[i]
  }

  lemma FlipOne(envelopes: seq<Db>, after: seq<Db>, done: seq<nat>, now: int, i: nat)
    requires Flipped(envelopes, after, done, now) && i < |envelopes| && i !in done
    ensures after[i] == envelopes[i]
    ensures Flipped(envelopes, after[i := Protocol.AfterExpire(envelopes[i], now)], done + [i], now)
  {
  }

  function PastDue(envelopes: seq<Db>, now: int): (due: seq<nat>)
    ensures forall i :: i in due <==>
              0 <= i < |envelopes| && envelopes[i].sub.status.Pending? && ExpiryPassed(envelopes[i].sub, now)
    ensures forall j, k :: 0 <= j < k < |due| ==> due[j] < due[k]
  {
    if envelopes == [] then []
    else
      var n := |envelopes| - 1;
      var front := PastDue(envelopes[..n], now);
      assert forall i :: 0 <= i < n ==> envelopes[..n][i] == envelopes[i];
      assert forall j :: 0 <= j < |front| ==> front[j] in front;
      front + if envelopes[n].sub.status.Pending? && ExpiryPassed(envelopes[n].sub, now) then [n] else []
  }
}
