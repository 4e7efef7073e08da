/**
 Who has been written to, and who is reminded when.  Requests run one at a time here,
 each followed by its post-commit mail hook; the decisions are those of the protocol.
 Times are in seconds.
 */
module Routing {
  import opened Basics
  import opened Envelope
  import opened Transactions
  import Protocol

  const DAY := 86_400
  const REMINDER_MAX := 3

  /** History of the reminders; `days` is the envelope's interval when a daily sweep sent it. */
  datatype Notice = Reminded(row: nat, at: int, days: Option<int>) | RowReplaced(row: nat)

  datatype World = World(db: Db, createdAt: int, clock: int, notices: seq<Notice>)

  // ---- first contact ----------------------------------------------------------

  /** `send_recipient_email`: the attempt is recorded whether or not it is delivered. */
  function Contact(row: Row, at: int, delivered: bool): Row {
    row.(mail := row.mail.(emailStatus := Some(if delivered then Sent else Failed),
                           firstNotified := if row.mail.firstNotified.None? then Some(at) else row.mail.firstNotified))
  }

  /** `on_submission_created`; `ok` are the rows whose mail is delivered. */
  function CreatedHook(rows: seq<Row>, at: int, ok: set<nat>): seq<Row> {
    seq(|rows|, i requires 0 <= i < |rows| =>
      if RecipientDue(rows, i) then Contact(rows[i], at, i in ok) else rows[i])
  }

  predicate NewlyDue(rows: seq<Row>, i: nat)
    requires i < |rows|
  {
    !rows[i].status.Completed? && rows[i].mail.emailStatus.None? && RecipientDue(rows, i)
  }

  /** `on_submitter_completed`: only rows never contacted before. */
  function CompletedHook(rows: seq<Row>, at: int, ok: set<nat>): seq<Row> {
    seq(|rows|, i requires 0 <= i < |rows| =>
      if NewlyDue(rows, i) then Contact(rows[i], at, i in ok) else rows[i])
  }

  /** The mail hook a route runs after its commit took `before` to `after`. */
  function Hook(before: Db, after: Db, req: Request, at: int, ok: set<nat>): seq<Row> {
    match req
    case CompleteSigning(row, _) =>
      if after.sub.status.Pending? && row < |before.rows| && !before.rows[row].status.Completed?
      then CompletedHook(after.rows, at, ok) else after.rows
    case SendDraft => CreatedHook(after.rows, at, ok)
    case ReplaceSubmitter(row, _) =>
      if after.sub.status.Pending? && row < |after.rows| && RecipientDue(after.rows, row)
      then after.rows[row := Contact(after.rows[row], at, row in ok)] else after.rows
    case _ => after.rows
  }

  function Serve(w: World, req: Request, actor: UserId, content: Content, c: Chance, ok: set<nat>): World {
    if !Protocol.MayProceed(w.db, req, actor) then w
    else
      match Decide(w.db, content, req, actor, w.db.rows, w.db.rows, c)
      case None => w
      case Some(txn) =>
        var after := Committed(w.db, txn);
        w.(db := after.(rows := Hook(w.db, after, req, w.clock, ok)),
           notices := if req.ReplaceSubmitter? then w.notices + [RowReplaced(req.row)] else w.notices)
  }

  /** `resend_invite`. */
  function Resend(w: World, row: nat, delivered: bool): World {
    if !w.db.sub.status.Pending? || row >= |w.db.rows| then w
    else if w.db.rows[row].status.Completed? || w.db.rows[row].status.Declined? || !RecipientDue(w.db.rows, row) then w
    else
      var reset := w.db.rows[row].(mail := w.db.rows[row].mail.(reminderCount := 0, emailStatus := None));
      w.(db := w.db.(rows := w.db.rows[row := Contact(reset, w.clock, delivered)]))
  }

  // ---- reminders --------------------------------------------------------------

  /** `_is_overdue`: measured from the later of first contact and last reminder. */
  predicate Overdue(mail: Mail, createdAt: int, minDays: int, now: int) {
    if minDays <= 0 then true
    else
      var first := if mail.firstNotified.Some? then mail.firstNotified.value else createdAt;
      var reference := if mail.lastReminded.Some? && mail.lastReminded.value > first
                       then mail.lastReminded.value else first;
      now - reference >= minDays * DAY
  }

  /** `_eligible_submitters`; minDays None is the daily sweep, which follows the envelope's own settings. */
  predicate Eligible(db: Db, createdAt: int, i: nat, minDays: Option<int>, now: int)
    requires i < |db.rows|
  {
    var row := db.rows[i];
    && (row.status.Pending? || row.status.Opened?) && !row.isCc
    && db.sub.status.Pending? && row.mail.reminderCount < REMINDER_MAX
    && (minDays.None? ==> db.sub.settings.remindersEnabled)
    && ActiveOrder(db.rows) == Some(row.order)
    && Overdue(row.mail, createdAt, if minDays.None? then db.sub.settings.intervalDays else minDays.value, now)
  }

  function RemindRow(row: Row, at: int): Row {
    row.(mail := row.mail.(lastReminded := Some(at), reminderCount := row.mail.reminderCount + 1))
  }

  function RemindRows(db: Db, createdAt: int, minDays: Option<int>, now: int, sentAt: int): seq<Row> {
    seq(|db.rows|, i requires 0 <= i < |db.rows| =>
      if Eligible(db, createdAt, i, minDays, now) then RemindRow(db.rows[i], sentAt) else db.rows[i])
  }

  /** The eligible rows among the first n, in row order. */
  function EligibleRows(db: Db, createdAt: int, minDays: Option<int>, now: int, n: nat): seq<nat>
    requires n <= |db.rows|
  {
    if n == 0 then []
    else
      var front := EligibleRows(db, createdAt, minDays, now, n - 1);
      if Eligible(db, createdAt, n - 1, minDays, now) then front + [n - 1] else front
  }

  function ReminderNote(row: nat, at: int, days: Option<int>): Notice {
    Reminded(row, at, days)
  }

  function Notes(due: seq<nat>, at: int, days: Option<int>): seq<Notice> {
    seq(|due|, k requires 0 <= k < |due| => ReminderNote(due[k], at, days))
  }

  function RemindNotices(db: Db, createdAt: int, minDays: Option<int>, now: int, sentAt: int): seq<Notice> {
    Notes(EligibleRows(db, createdAt, minDays, now, |db.rows|), sentAt,
          if minDays.None? then Some(db.sub.settings.intervalDays) else None)
  }

  /** One reminder pass: everybody eligible at `w.clock` is reminded, the mails going out at `sentAt`. */
  function Remind(w: World, minDays: Option<int>, sentAt: int): World {
    if sentAt < w.clock then w
    else
      w.(db := w.db.(rows := RemindRows(w.db, w.createdAt, minDays, w.clock, sentAt)), clock := sentAt,
         notices := w.notices + RemindNotices(w.db, w.createdAt, minDays, w.clock, sentAt))
  }

  // ---- runs -------------------------------------------------------------------

  datatype Op =
    | Request(req: Transactions.Request, actor: UserId, content: Content, chance: Chance, ok: set<nat>)
    | ResendInvite(row: nat, delivered: bool)
    | RemindNow(sentAt: int)
    | DailyReminders(sentAt: int)
    | DailyExpirations
    | View(row: nat)
    | Wait(seconds: nat)

  function Apply(w: World, op: Op): World {
    match op
    case Request(req, actor, content, c, ok) => Serve(w, req, actor, content, c.(now := w.clock), ok)
    case ResendInvite(row, delivered) => Resend(w, row, delivered)
    case RemindNow(sentAt) => if w.db.sub.status.Pending? then Remind(w, Some(0), sentAt) else w
    case DailyReminders(sentAt) => Remind(w, None, sentAt)
    case DailyExpirations => w.(db := Protocol.AfterExpire(w.db, w.clock))
    case View(row) => w.(db := Protocol.AfterView(w.db, row, w.clock))
    case Wait(seconds) => w.(clock := w.clock + seconds)
  }

  function Run(w: World, ops: seq<Op>): World
    decreases |ops|
  {
    if ops == [] then w else Apply(Run(w, ops[..|ops| - 1]), ops[|ops| - 1])
  }

  /** The rows `_create_submission` inserts, before any mail. */
  predicate Unsent(db: Db) {
    && (db.sub.status.Draft? || db.sub.status.Pending?)
    && forall i :: 0 <= i < |db.rows| ==> db.rows[i].status.Pending? && db.rows[i].mail == NO_MAIL
  }

  /** An envelope just created at `at`, its first mails sent unless it is a draft. */
  function Created(db: Db, at: int, ok: set<nat>): World {
    World(if db.sub.status.Pending? then db.(rows := CreatedHook(db.rows, at, ok)) else db, at, at, [])
  }

  // ---- the frontier -----------------------------------------------------------

  predicate Frontier(rows: seq<Row>) {
    forall i :: 0 <= i < |rows| ==> (rows[i].mail.emailStatus.Some? <==> RecipientDue(rows, i))
  }

  predicate CompletedWereDue(rows: seq<Row>) {
    forall i :: 0 <= i < |rows| && rows[i].status.Completed? ==> RecipientDue(rows, i)
  }

  predicate Uncontacted(rows: seq<Row>) {
    forall i :: 0 <= i < |rows| ==> rows[i].mail.emailStatus.None? && !rows[i].status.Completed?
  }

  predicate MailInv(db: Db) {
    && (db.sub.status.Pending? ==> Frontier(db.rows) && CompletedWereDue(db.rows))
    && (db.sub.status.Draft? ==> Uncontacted(db.rows))
    && forall i :: 0 <= i < |db.rows| ==> db.rows[i].mail.reminderCount <= REMINDER_MAX
  }

  /** Rows with the same signers, order and completedness. */
  predicate SameProgress(a: seq<Row>, b: seq<Row>) {
    |a| == |b| && forall i :: 0 <= i < |a| ==>
      a[i].isCc == b[i].isCc && a[i].order == b[i].order && a[i].status.Completed? == b[i].status.Completed?
  }

  lemma SameProgressSameDue(a: seq<Row>, b: seq<Row>)
    requires SameProgress(a, b)
    ensures forall i :: 0 <= i < |a| ==> RecipientDue(a, i) == RecipientDue(b, i)
  {
  }

  lemma CreatedReachesDue(rows: seq<Row>, at: int, ok: set<nat>)
    requires forall i :: 0 <= i < |rows| ==> rows[i].mail.emailStatus.None?
    ensures Frontier(CreatedHook(rows, at, ok)) && SameProgress(rows, CreatedHook(rows, at, ok))
  {
    SameProgressSameDue(rows, CreatedHook(rows, at, ok));
  }

  /** A completion may make later groups due; the hook contacts exactly the rows it reached. */
  lemma CompletionMovesFrontier(rows: seq<Row>, row: nat, signed: seq<Row>, at: int, ok: set<nat>)
    requires Frontier(rows) && CompletedWereDue(rows) && row < |rows| && RecipientDue(rows, row)
    requires |signed| == |rows| && signed[row].status.Completed?
    requires signed[row].mail == rows[row].mail && signed[row].isCc == rows[row].isCc
             && signed[row].order == rows[row].order
    requires forall i :: 0 <= i < |rows| && i != row ==> signed[i] == rows[i]
    ensures Frontier(CompletedHook(signed, at, ok)) && CompletedWereDue(CompletedHook(signed, at, ok))
  {
    forall i | 0 <= i < |rows| && RecipientDue(rows, i)
      ensures RecipientDue(signed, i)
    {
    }
    SameProgressSameDue(signed, CompletedHook(signed, at, ok));
  }

  lemma ServeCompletionKeepsMailInv(w: World, row: nat, values: Values, actor: UserId, content: Content,
                                    c: Chance, ok: set<nat>)
    requires MailInv(w.db)
    ensures MailInv(Serve(w, CompleteSigning(row, values), actor, content, c, ok).db)
  {
    var d := DecideComplete(w.db, content, row, actor, values, w.db.rows, c);
    if Protocol.MayProceed(w.db, CompleteSigning(row, values), actor) && d.Some? {
      var after := Committed(w.db, d.value);
      if w.db.rows[row].status.Completed? {
        assert after.rows == w.db.rows;
      } else if after.sub.status.Pending? {
        assert after.rows[row].status.Completed? && after.rows[row].mail == w.db.rows[row].mail;
        CompletionMovesFrontier(w.db.rows, row, after.rows, w.clock, ok);
      }
    }
  }

  lemma ServeReplacementKeepsMailInv(w: World, row: nat, newUser: UserId, actor: UserId, content: Content,
                                     c: Chance, ok: set<nat>)
    requires MailInv(w.db)
    ensures MailInv(Serve(w, ReplaceSubmitter(row, newUser), actor, content, c, ok).db)
  {
    var req := ReplaceSubmitter(row, newUser);
    var d := DecideReplaceSubmitter(w.db, row, newUser, c);
    if Protocol.MayProceed(w.db, req, actor) && d.Some? {
      var after := Committed(w.db, d.value);
      assert SameProgress(w.db.rows, after.rows);
      SameProgressSameDue(w.db.rows, after.rows);
      SameProgressSameDue(after.rows, Hook(w.db, after, req, w.clock, ok));
    }
  }

  lemma ServeSendKeepsMailInv(w: World, actor: UserId, content: Content, c: Chance, ok: set<nat>)
    requires MailInv(w.db)
    ensures MailInv(Serve(w, SendDraft, actor, content, c, ok).db)
  {
    if w.db.sub.status.Draft? {
      CreatedReachesDue(w.db.rows, w.clock, ok);
    }
  }

  lemma ServeOtherKeepsMailInv(w: World, req: Transactions.Request, actor: UserId, content: Content, c: Chance,
                               ok: set<nat>)
    requires MailInv(w.db) && !req.CompleteSigning? && !req.ReplaceSubmitter? && !req.SendDraft?
    ensures MailInv(Serve(w, req, actor, content, c, ok).db)
  {
    var d := Decide(w.db, content, req, actor, w.db.rows, w.db.rows, c);
    if Protocol.MayProceed(w.db, req, actor) && d.Some? && d.value.Write? {
      var after := Committed(w.db, d.value);
      assert req.DeclineSigning? ==> after.sub.status.Declined?;
      assert !req.DeclineSigning? ==> after.rows == w.db.rows;
    }
  }

  lemma ServeKeepsMailInv(w: World, req: Transactions.Request, actor: UserId, content: Content, c: Chance, ok: set<nat>)
    requires MailInv(w.db)
    ensures MailInv(Serve(w, req, actor, content, c, ok).db)
  {
    match req
    case CompleteSigning(row, values) => ServeCompletionKeepsMailInv(w, row, values, actor, content, c, ok);
    case ReplaceSubmitter(row, newUser) => ServeReplacementKeepsMailInv(w, row, newUser, actor, content, c, ok);
    case SendDraft => ServeSendKeepsMailInv(w, actor, content, c, ok);
    case _ => ServeOtherKeepsMailInv(w, req, actor, content, c, ok);
  }

  lemma ResendKeepsMailInv(w: World, row: nat, delivered: bool)
    requires MailInv(w.db)
    ensures MailInv(Resend(w, row, delivered).db)
  {
    var t := Resend(w, row, delivered);
    assert SameProgress(w.db.rows, t.db.rows);
    SameProgressSameDue(w.db.rows, t.db.rows);
  }

  lemma RemindKeepsMailInv(w: World, minDays: Option<int>, sentAt: int)
    requires MailInv(w.db)
    ensures MailInv(Remind(w, minDays, sentAt).db)
  {
    if sentAt >= w.clock {
      var next := RemindRows(w.db, w.createdAt, minDays, w.clock, sentAt);
      RemindIsMinor(w.db, w.createdAt, minDays, w.clock, sentAt);
      SameFrontier(w.db.rows, next);
    }
  }

  lemma RemindIsMinor(db: Db, createdAt: int, minDays: Option<int>, now: int, sentAt: int)
    requires forall i :: 0 <= i < |db.rows| ==> db.rows[i].mail.reminderCount <= REMINDER_MAX
    ensures var next := RemindRows(db, createdAt, minDays, now, sentAt);
            && SameProgress(db.rows, next)
            && forall i :: 0 <= i < |next| ==>
                 && next[i].mail.emailStatus == db.rows[i].mail.emailStatus && next[i].status == db.rows[i].status
                 && next[i].mail.reminderCount <= REMINDER_MAX
  {
  }

  /** Rows that differ in reminders only. */
  lemma SameFrontier(a: seq<Row>, b: seq<Row>)
    requires SameProgress(a, b)
    requires forall i :: 0 <= i < |a| ==> b[i].mail.emailStatus == a[i].mail.emailStatus && b[i].status == a[i].status
    ensures Frontier(a) ==> Frontier(b)
    ensures CompletedWereDue(a) ==> CompletedWereDue(b)
    ensures Uncontacted(a) ==> Uncontacted(b)
  {
    SameProgressSameDue(a, b);
  }

  lemma ApplyKeepsMailInv(w: World, op: Op)
    requires MailInv(w.db)
    ensures MailInv(Apply(w, op).db)
  {
    match op
    case Request(req, actor, content, c, ok) => ServeKeepsMailInv(w, req, actor, content, c.(now := w.clock), ok);
    case ResendInvite(row, delivered) => ResendKeepsMailInv(w, row, delivered);
    case RemindNow(sentAt) => RemindKeepsMailInv(w, Some(0), sentAt);
    case DailyReminders(sentAt) => RemindKeepsMailInv(w, None, sentAt);
    case View(row) =>
      var t := Apply(w, op);
      assert SameProgress(w.db.rows, t.db.rows);
      SameProgressSameDue(w.db.rows, t.db.rows);
    case _ =>
  }

  lemma {:induction false} RunKeepsMailInv(db: Db, at: int, ok: set<nat>, ops: seq<Op>)
    requires Unsent(db)
    ensures MailInv(Run(Created(db, at, ok), ops).db)
    decreases |ops|
  {
    var w := Created(db, at, ok);
    if ops != [] {
      RunKeepsMailInv(db, at, ok, ops[..|ops| - 1]);
      ApplyKeepsMailInv(Run(w, ops[..|ops| - 1]), ops[|ops| - 1]);
    } else if db.sub.status.Pending? {
      CreatedReachesDue(db.rows, at, ok);
    }
  }

  function Contacted(rows: seq<Row>): set<nat> {
    set i | 0 <= i < |rows| && rows[i].mail.emailStatus.Some?
  }

  function Due(rows: seq<Row>): set<nat> {
    set i | 0 <= i < |rows| && RecipientDue(rows, i)
  }

  function People(rows: seq<Row>, some: set<nat>): set<UserId> {
    set i | i in some && i < |rows| :: rows[i].userId
  }

  /** Whom a void or an expiry writes to: everybody contacted and the sender, except the one who voids. */
  function Audience(rows: seq<Row>, sender: UserId, actor: Option<UserId>): set<UserId> {
    People(rows, Contacted(rows)) + {sender} - (if actor.Some? then {actor.value} else {})
  }

  /** Routing frontier: on a pending envelope exactly the recipients routing has reached were written to, copy
      recipients included; a draft has written to nobody. */
  lemma FrontierHolds(db: Db, at: int, ok: set<nat>, ops: seq<Op>)
    requires Unsent(db)
    ensures var t := Run(Created(db, at, ok), ops).db;
            && (t.sub.status.Pending? ==>
                  && Contacted(t.rows) == Due(t.rows)
                  && forall i :: 0 <= i < |t.rows| ==>
                       (t.rows[i].mail.emailStatus.Some? <==>
                          forall j :: 0 <= j < |t.rows| && !t.rows[j].isCc && t.rows[j].order < t.rows[i].order ==>
                            t.rows[j].status.Completed?))
            && (t.sub.status.Draft? ==> forall i :: 0 <= i < |t.rows| ==> t.rows[i].mail.emailStatus.None?)
  {
    RunKeepsMailInv(db, at, ok, ops);
  }

  /** Voiding or expiring a pending envelope writes to exactly the recipients routing has reached and to the
      sender, except the one who voids. */
  lemma VoidReachesExactlyTheDue(db: Db, at: int, ok: set<nat>, ops: seq<Op>, op: Op, sender: UserId)
    requires Unsent(db) && Run(Created(db, at, ok), ops).db.sub.status.Pending?
    requires op.DailyExpirations? || (op.Request? && op.req.CancelSubmission?)
    ensures var t, u := Run(Created(db, at, ok), ops), Apply(Run(Created(db, at, ok), ops), op);
            && (op.Request? ==>
                  && u.db.sub.status.Cancelled?
                  && Audience(u.db.rows, sender, Some(op.actor))
                       == People(t.db.rows, Due(t.db.rows)) + {sender} - {op.actor})
            && (op.DailyExpirations? ==>
                  && (u.db.sub.status.Expired? <==>
                        t.db.sub.settings.expiresAt.Some? && t.db.sub.settings.expiresAt.value <= t.clock)
                  && Audience(u.db.rows, sender, None) == People(t.db.rows, Due(t.db.rows)) + {sender})
  {
    RunKeepsMailInv(db, at, ok, ops);
    var t := Run(Created(db, at, ok), ops);
    ClosingKeepsRows(t, op);
    assert Contacted(t.db.rows) == Due(t.db.rows);
  }

  lemma ClosingKeepsRows(t: World, op: Op)
    requires t.db.sub.status.Pending?
    requires op.DailyExpirations? || (op.Request? && op.req.CancelSubmission?)
    ensures var u := Apply(t, op).db;
            && u.rows == t.db.rows && (op.Request? ==> u.sub.status.Cancelled?)
            && (op.DailyExpirations? ==>
                  (u.sub.status.Expired? <==>
                     t.db.sub.settings.expiresAt.Some? && t.db.sub.settings.expiresAt.value <= t.clock))
  {
  }

  /** No request raises a reminder count. */
  lemma ServeNeverReminds(w: World, req: Transactions.Request, actor: UserId, content: Content, c: Chance,
                          ok: set<nat>, i: nat)
    ensures var u := Serve(w, req, actor, content, c, ok).db;
            i < |w.db.rows| && i < |u.rows| ==>
              && u.rows[i].mail.reminderCount <= w.db.rows[i].mail.reminderCount
              && (!(req.ReplaceSubmitter? && req.row == i) ==>
                    u.rows[i].mail.lastReminded == w.db.rows[i].mail.lastReminded)
  {
    var d := Decide(w.db, content, req, actor, w.db.rows, w.db.rows, c);
    if Protocol.MayProceed(w.db, req, actor) && d.Some? && d.value.Write? && i < |w.db.rows| {
      DecisionNeverReminds(w.db, content, req, actor, c, i);
    }
  }

  lemma DecisionNeverReminds(db: Db, content: Content, req: Transactions.Request, actor: UserId, c: Chance, i: nat)
    requires i < |db.rows| && Decide(db, content, req, actor, db.rows, db.rows, c).Some?
    ensures var after := Committed(db, Decide(db, content, req, actor, db.rows, db.rows, c).value).rows;
            i < |after| ==>
              && after[i].mail.reminderCount <= db.rows[i].mail.reminderCount
              && (after[i].mail.lastReminded == db.rows[i].mail.lastReminded || (req.ReplaceSubmitter? && req.row == i))
  {
  }

  /** If this step reminded row i, it was an unfinished signer of the active group of a pending envelope. */
  predicate RightlyReminded(t: World, u: World, op: Op, i: nat)
    requires i < |t.db.rows| && i < |u.db.rows|
  {
    u.db.rows[i].mail.reminderCount > t.db.rows[i].mail.reminderCount ==>
      && (op.DailyReminders? || op.RemindNow?)
      && t.db.sub.status.Pending? && !t.db.rows[i].isCc && !t.db.rows[i].status.Completed?
      && (forall j :: 0 <= j < |t.db.rows| && !t.db.rows[j].isCc && t.db.rows[j].order < t.db.rows[i].order ==>
            t.db.rows[j].status.Completed?)
      && (op.DailyReminders? ==> t.db.sub.settings.remindersEnabled)
      && u.db.rows[i].mail.reminderCount == t.db.rows[i].mail.reminderCount + 1
  }

  /** A reminder goes only to an unfinished signer of the active group of a pending envelope, and nobody is
      ever past three reminders. */
  lemma RemindersStayInBudget(db: Db, at: int, ok: set<nat>, ops: seq<Op>, op: Op, i: nat)
    requires Unsent(db)
    ensures var t, u := Run(Created(db, at, ok), ops), Apply(Run(Created(db, at, ok), ops), op);
            && (i < |u.db.rows| ==> u.db.rows[i].mail.reminderCount <= 3)
            && (i < |t.db.rows| && i < |u.db.rows| ==> RightlyReminded(t, u, op, i))
  {
    RunKeepsMailInv(db, at, ok, ops);
    ApplyKeepsMailInv(Run(Created(db, at, ok), ops), op);
    StepRemindsRightly(Run(Created(db, at, ok), ops), op, i);
  }

  /** Whom a reminder pass reaches, exactly: with "remind now" every unfinished signer of the active group who
      has had fewer than three reminders; with the daily sweep those of them, if reminders are on, whose first
      contact and last reminder both lie at least the interval back. */
  lemma RemindedIff(t: World, sweep: bool, sentAt: int, i: nat)
    requires i < |t.db.rows| && sentAt >= t.clock
    ensures var u := Apply(t, if sweep then DailyReminders(sentAt) else RemindNow(sentAt));
            var (row, settings) := (t.db.rows[i], t.db.sub.settings);
            var first := if row.mail.firstNotified.Some? then row.mail.firstNotified.value else t.createdAt;
            var goes :=
              && t.db.sub.status.Pending? && !row.isCc && (row.status.Pending? || row.status.Opened?)
              && row.mail.reminderCount < 3
              && (forall j :: 0 <= j < |t.db.rows| && !t.db.rows[j].isCc && t.db.rows[j].order < row.order ==>
                    t.db.rows[j].status.Completed?)
              && (sweep ==>
                    && settings.remindersEnabled
                    && (settings.intervalDays <= 0
                        || (&& t.clock - first >= settings.intervalDays * 86_400
                            && (row.mail.lastReminded.Some? ==>
                                  t.clock - row.mail.lastReminded.value >= settings.intervalDays * 86_400))));
            && |u.db.rows| == |t.db.rows|
            && u.db.rows[i] == if goes
                 then row.(mail := row.mail.(lastReminded := Some(sentAt), reminderCount := row.mail.reminderCount + 1))
                 else row
  {
    if Unfinished(t.db.rows, i) {
      TurnTestsAgree(t.db.rows, i);
    }
  }

  /** A resend starts a reached, unfinished recipient over: a new attempt, no reminders counted. */
  lemma ResendStartsOver(w: World, row: nat, delivered: bool)
    requires row < |w.db.rows|
    ensures var rows := Apply(w, ResendInvite(row, delivered)).db.rows;
            && |rows| == |w.db.rows|
            && (forall j :: 0 <= j < |rows| && j != row ==> rows[j] == w.db.rows[j])
            && rows[row] == if w.db.sub.status.Pending?
                               && (w.db.rows[row].status.Pending? || w.db.rows[row].status.Opened?)
                               && forall j :: 0 <= j < |w.db.rows| && !w.db.rows[j].isCc
                                              && w.db.rows[j].order < w.db.rows[row].order ==>
                                    w.db.rows[j].status.Completed?
                 then w.db.rows[row].(mail := w.db.rows[row].mail.(
                        reminderCount := 0, emailStatus := Some(if delivered then Sent else Failed),
                        firstNotified := if w.db.rows[row].mail.firstNotified.Some?
                                         then w.db.rows[row].mail.firstNotified else Some(w.clock)))
                 else w.db.rows[row]
  {
  }

  lemma StepRemindsRightly(t: World, op: Op, i: nat)
    ensures i < |t.db.rows| && i < |Apply(t, op).db.rows| ==> RightlyReminded(t, Apply(t, op), op, i)
  {
    if op.Request? {
      ServeNeverReminds(t, op.req, op.actor, op.content, op.chance.(now := t.clock), op.ok, i);
    } else if i < |t.db.rows| {
      match op
      case DailyReminders(sentAt) => OnlyDueAreReminded(t, None, sentAt, i);
      case RemindNow(sentAt) => OnlyDueAreReminded(t, Some(0), sentAt, i);
      case _ =>
    }
  }

  lemma OnlyDueAreReminded(t: World, minDays: Option<int>, sentAt: int, i: nat)
    requires i < |t.db.rows|
    ensures var u := Remind(t, minDays, sentAt);
            && |u.db.rows| == |t.db.rows|
            && (u.db.rows[i].mail.reminderCount > t.db.rows[i].mail.reminderCount ==>
                  && t.db.sub.status.Pending? && Unfinished(t.db.rows, i) && RecipientDue(t.db.rows, i)
                  && (minDays.None? ==> t.db.sub.settings.remindersEnabled)
                  && u.db.rows[i].mail.reminderCount == t.db.rows[i].mail.reminderCount + 1)
  {
    if Unfinished(t.db.rows, i) {
      TurnTestsAgree(t.db.rows, i);
    }
  }

  // ---- spacing ----------------------------------------------------------------

  predicate ReplacedIn(notices: seq<Notice>, lo: nat, hi: nat, row: nat)
    requires hi <= |notices|
  {
    exists m :: lo < m < hi && notices[m] == RowReplaced(row)
  }

  /** A row remembers a time no earlier than any of its reminders since it was last replaced. */
  ghost predicate Remembers(w: World) {
    && (forall k :: 0 <= k < |w.notices| && w.notices[k].Reminded? ==>
          && w.notices[k].at <= w.clock && w.notices[k].row < |w.db.rows|
          && !w.db.sub.status.Draft? && !w.db.sub.status.Deleted?
          && (ReplacedIn(w.notices, k, |w.notices|, w.notices[k].row)
              || RemindedBy(w.db.rows[w.notices[k].row].mail, w.notices[k].at)))
    && (forall i :: 0 <= i < |w.db.rows| && w.db.rows[i].mail.lastReminded.Some? ==>
          w.db.rows[i].mail.lastReminded.value <= w.clock)
  }

  predicate RemindedBy(mail: Mail, at: int) {
    mail.lastReminded.Some? && at <= mail.lastReminded.value
  }

  /** A reminder of the daily sweep comes at least the interval after any earlier reminder of that recipient,
      unless the recipient was replaced in between. */
  ghost predicate Spaced(notices: seq<Notice>) {
    forall j, k :: 0 <= j < k < |notices| ==> SpacedAt(notices, j, k)
  }

  predicate SpacedAt(notices: seq<Notice>, j: nat, k: nat)
    requires j < k < |notices|
  {
    notices[j].Reminded? && notices[k].Reminded? && notices[j].row == notices[k].row && notices[k].days.Some?
    && !ReplacedIn(notices, j, k, notices[k].row) ==>
      notices[k].at - notices[j].at >= notices[k].days.value * 86_400
  }

  ghost predicate PassNotice(db: Db, createdAt: int, minDays: Option<int>, now: int, sentAt: int, note: Notice) {
    && note.Reminded? && note.row < |db.rows| && note.at == sentAt
    && Eligible(db, createdAt, note.row, minDays, now)
    && note.days == (if minDays.None? then Some(db.sub.settings.intervalDays) else None)
  }

  /** The list of a reminder pass holds each eligible row once, in row order. */
  lemma {:induction false} EligibleRowsAreAll(db: Db, createdAt: int, minDays: Option<int>, now: int, n: nat,
                                              due: seq<nat>)
    requires n <= |db.rows| && due == EligibleRows(db, createdAt, minDays, now, n)
    ensures forall k :: 0 <= k < |due| ==> due[k] < n && Eligible(db, createdAt, due[k], minDays, now)
    ensures forall j, k :: 0 <= j < k < |due| ==> due[j] < due[k]
    ensures forall i :: 0 <= i < n && Eligible(db, createdAt, i, minDays, now) ==> i in due
  {
    if n > 0 {
      EligibleRowsAreAll(db, createdAt, minDays, now, n - 1, EligibleRows(db, createdAt, minDays, now, n - 1));
    }
  }

  /** What a reminder pass appends. */
  lemma NoticesAreEligible(db: Db, createdAt: int, minDays: Option<int>, now: int, sentAt: int, added: seq<Notice>)
    requires added == RemindNotices(db, createdAt, minDays, now, sentAt)
    ensures forall k :: 0 <= k < |added| ==> PassNotice(db, createdAt, minDays, now, sentAt, added[k])
    ensures forall j, k :: 0 <= j < k < |added| ==> added[j].row < added[k].row
  {
    var due := EligibleRows(db, createdAt, minDays, now, |db.rows|);
    EligibleRowsAreAll(db, createdAt, minDays, now, |db.rows|, due);
    forall k | 0 <= k < |added|
      ensures PassNotice(db, createdAt, minDays, now, sentAt, added[k])
    {
      assert added[k].row == due[k] && Eligible(db, createdAt, due[k], minDays, now);
    }
  }

  /** An overdue row was last reminded at least the minimum ago. */
  lemma OverdueIsLate(mail: Mail, createdAt: int, minDays: int, now: int, at: int)
    requires Overdue(mail, createdAt, minDays, now) && RemindedBy(mail, at) && at <= now
    ensures now - at >= minDays * DAY
  {
    if minDays > 0 {
      assert now - mail.lastReminded.value >= minDays * DAY;
    } else {
      assert minDays * DAY <= 0;
    }
  }

  /** A sweep reminder against one sent before this pass. */
  lemma PassIsSpacedFromBefore(w: World, minDays: Option<int>, sentAt: int, notices: seq<Notice>, j: nat, k: nat)
    requires Remembers(w) && sentAt >= w.clock && j < |w.notices| <= k < |notices|
    requires notices[..|w.notices|] == w.notices
    requires PassNotice(w.db, w.createdAt, minDays, w.clock, sentAt, notices[k])
    ensures SpacedAt(notices, j, k)
  {
    var row, n := notices[k].row, |w.notices|;
    assert forall m :: 0 <= m < n ==> notices[m] == w.notices[m];
    if notices[j].Reminded? && notices[j].row == row && notices[k].days.Some? && !ReplacedIn(notices, j, k, row) {
      assert !ReplacedIn(w.notices, j, n, row);
      OverdueIsLate(w.db.rows[row].mail, w.createdAt, w.db.sub.settings.intervalDays, w.clock, w.notices[j].at);
    }
  }

  lemma PassKeepsSpacing(w: World, minDays: Option<int>, sentAt: int)
    requires Remembers(w) && Spaced(w.notices) && sentAt >= w.clock
    ensures Spaced(Remind(w, minDays, sentAt).notices)
  {
    var t := Remind(w, minDays, sentAt);
    var n := |w.notices|;
    var added := t.notices[n..];
    NoticesAreEligible(w.db, w.createdAt, minDays, w.clock, sentAt, added);
    forall j, k | 0 <= j < k < |t.notices|
      ensures SpacedAt(t.notices, j, k)
    {
      if k < n {
        assert SpacedAt(w.notices, j, k);
        assert forall m :: j < m < k ==> t.notices[m] == w.notices[m];
      } else if j < n {
        assert t.notices[k] == added[k - n];
        PassIsSpacedFromBefore(w, minDays, sentAt, t.notices, j, k);
      } else {
        assert t.notices[k] == added[k - n] && t.notices[j] == added[j - n];
      }
    }
  }

  lemma PassKeepsMemory(w: World, minDays: Option<int>, sentAt: int)
    requires Remembers(w) && sentAt >= w.clock
    ensures Remembers(Remind(w, minDays, sentAt))
  {
    var t := Remind(w, minDays, sentAt);
    var n := |w.notices|;
    NoticesAreEligible(w.db, w.createdAt, minDays, w.clock, sentAt, t.notices[n..]);
    forall k | 0 <= k < |t.notices| && t.notices[k].Reminded?
      ensures t.notices[k].at <= t.clock && t.notices[k].row < |t.db.rows|
      ensures !t.db.sub.status.Draft? && !t.db.sub.status.Deleted?
      ensures ReplacedIn(t.notices, k, |t.notices|, t.notices[k].row)
              || RemindedBy(t.db.rows[t.notices[k].row].mail, t.notices[k].at)
    {
      if k < n {
        assert t.notices[k] == w.notices[k];
        var row := w.notices[k].row;
        if ReplacedIn(w.notices, k, n, row) {
          var m :| k < m < n && w.notices[m] == RowReplaced(row);
          assert t.notices[m] == RowReplaced(row);
        }
      } else {
        assert t.notices[k] == t.notices[n..][k - n];
        assert PassNotice(w.db, w.createdAt, minDays, w.clock, sentAt, t.notices[k]);
      }
    }
  }

  lemma ServeKeepsMemory(w: World, req: Transactions.Request, actor: UserId, content: Content, c: Chance, ok: set<nat>)
    requires Remembers(w) && Spaced(w.notices)
    ensures Remembers(Serve(w, req, actor, content, c, ok)) && Spaced(Serve(w, req, actor, content, c, ok).notices)
  {
    var t := Serve(w, req, actor, content, c, ok);
    var n := |w.notices|;
    var d := Decide(w.db, content, req, actor, w.db.rows, w.db.rows, c);
    forall j, k | 0 <= j < k < |t.notices|
      ensures SpacedAt(t.notices, j, k)
    {
      if k < n {
        assert SpacedAt(w.notices, j, k);
        assert forall m :: j < m < k ==> t.notices[m] == w.notices[m];
      }
    }
    ServeStatus(w, req, actor, content, c, ok);
    forall k | 0 <= k < n && w.notices[k].Reminded?
      ensures ReplacedIn(t.notices, k, |t.notices|, w.notices[k].row)
              || (w.notices[k].row < |t.db.rows| && RemindedBy(t.db.rows[w.notices[k].row].mail, w.notices[k].at))
    {
      var row := w.notices[k].row;
      if ReplacedIn(w.notices, k, n, row) {
        var m :| k < m < n && w.notices[m] == RowReplaced(row);
        assert t.notices[m] == RowReplaced(row);
      } else {
        ServeNeverReminds(w, req, actor, content, c, ok, row);
        assert |t.notices| > n ==> t.notices[n] == RowReplaced(req.row);
      }
    }
    forall i | 0 <= i < |t.db.rows| && t.db.rows[i].mail.lastReminded.Some?
      ensures t.db.rows[i].mail.lastReminded.value <= t.clock
    {
      ServeLastReminded(w, req, actor, content, c, ok, i);
    }
  }

  lemma ServeStatus(w: World, req: Transactions.Request, actor: UserId, content: Content, c: Chance, ok: set<nat>)
    ensures var u := Serve(w, req, actor, content, c, ok);
            && (u.db.sub.status.Draft? || u.db.sub.status.Deleted? ==>
                  w.db.sub.status.Draft? || w.db.sub.status.Deleted?)
            && (!u.db.sub.status.Deleted? ==> |u.db.rows| == |w.db.rows|)
            && (u.notices != w.notices ==>
                  req.ReplaceSubmitter? && u.notices == w.notices + [RowReplaced(req.row)])
            && (u.notices == w.notices && req.ReplaceSubmitter? ==> u == w)
  {
    var d := Decide(w.db, content, req, actor, w.db.rows, w.db.rows, c);
    if Protocol.MayProceed(w.db, req, actor) && d.Some? && req.ReplaceSubmitter? {
      assert |w.notices + [RowReplaced(req.row)]| == |w.notices| + 1;
    }
  }

  lemma ServeLastReminded(w: World, req: Transactions.Request, actor: UserId, content: Content, c: Chance,
                          ok: set<nat>, i: nat)
    ensures var u := Serve(w, req, actor, content, c, ok).db;
            i < |u.rows| ==>
              && i < |w.db.rows|
              && (u.rows[i].mail.lastReminded.None? || u.rows[i].mail.lastReminded == w.db.rows[i].mail.lastReminded)
  {
    var d := Decide(w.db, content, req, actor, w.db.rows, w.db.rows, c);
    if Protocol.MayProceed(w.db, req, actor) && d.Some? && d.value.Write? {
      var after := Committed(w.db, d.value);
      if i < |w.db.rows| {
        assert after.rows[i].mail.lastReminded.None?
               || after.rows[i].mail.lastReminded == w.db.rows[i].mail.lastReminded;
      }
    }
  }

  lemma ApplyKeepsMemory(w: World, op: Op)
    requires Remembers(w) && Spaced(w.notices)
    ensures Remembers(Apply(w, op)) && Spaced(Apply(w, op).notices)
  {
    match op
    case Request(req, actor, content, c, ok) => ServeKeepsMemory(w, req, actor, content, c.(now := w.clock), ok);
    case RemindNow(sentAt) =>
      if sentAt >= w.clock {
        PassKeepsMemory(w, Some(0), sentAt);
        PassKeepsSpacing(w, Some(0), sentAt);
      }
    case DailyReminders(sentAt) =>
      if sentAt >= w.clock {
        PassKeepsMemory(w, None, sentAt);
        PassKeepsSpacing(w, None, sentAt);
      }
    case _ =>
  }

  /** Reminder spacing over every run: between any reminder of a recipient and a later one sent by the daily
      sweep lies at least the envelope's interval, unless the recipient was replaced in between. */
  lemma {:induction false} SweepRemindersAreSpaced(db: Db, at: int, ok: set<nat>, ops: seq<Op>)
    requires Unsent(db)
    ensures Spaced(Run(Created(db, at, ok), ops).notices) && Remembers(Run(Created(db, at, ok), ops))
    decreases |ops|
  {
    if ops != [] {
      SweepRemindersAreSpaced(db, at, ok, ops[..|ops| - 1]);
      ApplyKeepsMemory(Run(Created(db, at, ok), ops[..|ops| - 1]), ops[|ops| - 1]);
    }
  }
}
