/**
 What validation promises for the finished document.  Over every interleaving, a
 completed row holds values that the validator accepted for that row, its role and the
 user it now belongs to; hence each required field of an executed envelope reaches paper.
 */
module Acceptance {
  import opened Basics
  import opened Envelope
  import opened Transactions
  import opened Protocol
  import opened Invariant
  import Theorems
  import Fields
  import Files

  /** Which values validation lets pass for a row, its role and its user. */
  type Validator = (nat, string, UserId, Values) -> bool

  /** `_validate_values` runs on the row as re-read under the lock; it says yes only to what it accepts. */
  predicate HonestStep(s: State, a: Action, accepts: Validator) {
    a.Work? && a.pid in s.procs && s.procs[a.pid].req.CompleteSigning? && a.chance.valid ==>
      var req := s.procs[a.pid].req;
      req.row < |s.db.rows| ==> accepts(req.row, s.db.rows[req.row].role, s.db.rows[req.row].userId, req.values)
  }

  predicate Honest(s: State, actions: seq<Action>, accepts: Validator)
    decreases |actions|
  {
    actions == [] ||
    var n := |actions| - 1;
    Honest(s, actions[..n], accepts) && HonestStep(Run(s, actions[..n]), actions[n], accepts)
  }

  predicate RowAccepted(row: Row, i: nat, accepts: Validator) {
    row.status.Completed? ==> accepts(i, row.role, row.userId, row.values)
  }

  predicate RowsAccepted(rows: seq<Row>, accepts: Validator) {
    forall i :: 0 <= i < |rows| ==> RowAccepted(rows[i], i, accepts)
  }

  /** A signature about to be committed is the row owner's, with values accepted for them. */
  predicate TxnAccepted(rows: seq<Row>, txn: Txn, accepts: Validator) {
    txn.Write? && txn.patch.SignPatch? && txn.patch.row < |rows| ==>
      var (i, patch) := (txn.patch.row, txn.patch);
      patch.author == rows[i].userId && accepts(i, rows[i].role, patch.author, patch.values)
  }

  predicate ProcAccepted(rows: seq<Row>, proc: Proc, accepts: Validator) {
    proc.phase.Writing? ==> TxnAccepted(rows, proc.phase.txn, accepts)
  }

  predicate Held(s: State, accepts: Validator) {
    && RowsAccepted(s.db.rows, accepts)
    && forall p :: p in s.procs ==> ProcAccepted(s.db.rows, s.procs[p], accepts)
  }

  /** Rows keep their seat: no step but a deletion changes a role or who is a copy. */
  predicate SameSeats(a: seq<Row>, b: seq<Row>) {
    |a| == |b| && forall i :: 0 <= i < |a| ==> a[i].role == b[i].role && a[i].isCc == b[i].isCc
  }

  predicate KeepsSeats(a: Db, b: Db) { b.sub.status.Deleted? || SameSeats(a.rows, b.rows) }

  // ---- one step ---------------------------------------------------------------

  lemma CommitHolds(db: Db, txn: Txn, accepts: Validator)
    requires RowsAccepted(db.rows, accepts) && TxnAccepted(db.rows, txn, accepts)
    ensures RowsAccepted(Committed(db, txn).rows, accepts) && KeepsSeats(db, Committed(db, txn))
  {
    var rows := Committed(db, txn).rows;
    forall i | 0 <= i < |rows|
      ensures RowAccepted(rows[i], i, accepts)
    {
      assert RowAccepted(db.rows[i], i, accepts);
    }
  }

  /** Rows that differ in mail and in pending or opened only. */
  predicate OnlyViewed(a: seq<Row>, b: seq<Row>) {
    |a| == |b| && forall i :: 0 <= i < |a| ==>
      && b[i].role == a[i].role && b[i].userId == a[i].userId && b[i].isCc == a[i].isCc && b[i].values == a[i].values
      && (b[i].status.Completed? ==> a[i].status.Completed?)
  }

  lemma QuietHolds(s: State, t: State, accepts: Validator)
    requires Held(s, accepts) && OnlyViewed(s.db.rows, t.db.rows)
    requires forall q :: q in t.procs && t.procs[q].phase.Writing? ==> q in s.procs && t.procs[q] == s.procs[q]
    ensures Held(t, accepts) && KeepsSeats(s.db, t.db)
  {
    forall i | 0 <= i < |t.db.rows|
      ensures RowAccepted(t.db.rows[i], i, accepts)
    {
      assert RowAccepted(s.db.rows[i], i, accepts);
    }
    forall q | q in t.procs
      ensures ProcAccepted(t.db.rows, t.procs[q], accepts)
    {
      assert t.procs[q].phase.Writing? ==> ProcAccepted(s.db.rows, s.procs[q], accepts);
    }
  }

  lemma DecisionAccepted(db: Db, content: Content, req: Request, actor: UserId, cache: seq<Row>, seen: seq<Row>,
                         c: Chance, accepts: Validator)
    requires Decide(db, content, req, actor, cache, seen, c).Some?
    requires req.CompleteSigning? && c.valid && req.row < |db.rows| ==>
               accepts(req.row, db.rows[req.row].role, db.rows[req.row].userId, req.values)
    ensures TxnAccepted(db.rows, Decide(db, content, req, actor, cache, seen, c).value, accepts)
  {
  }

  lemma WorkHolds(s: State, p: Pid, seen: seq<Row>, c: Chance, accepts: Validator)
    requires Held(s, accepts) && p in s.procs && HonestStep(s, Work(p, seen, c), accepts)
    ensures Held(AfterWork(s, p, seen, c), accepts) && KeepsSeats(s.db, AfterWork(s, p, seen, c).db)
  {
    var t := AfterWork(s, p, seen, c);
    if t != s {
      assert t.db == s.db;
      var proc := s.procs[p];
      if t.procs[p].phase.Writing? {
        DecisionAccepted(s.db, s.files[s.db.sub.template], proc.req, proc.actor, proc.phase.cache, seen, c, accepts);
      }
      forall q | q in t.procs
        ensures ProcAccepted(t.db.rows, t.procs[q], accepts)
      {
        assert q != p ==> ProcAccepted(s.db.rows, s.procs[q], accepts);
      }
    }
  }

  lemma FinishHolds(s: State, p: Pid, accepts: Validator)
    requires Inv(s) && Held(s, accepts) && p in s.procs
    ensures Held(AfterFinish(s, p), accepts) && KeepsSeats(s.db, AfterFinish(s, p).db)
  {
    var t := AfterFinish(s, p);
    if s.procs[p].phase.Writing? {
      assert ProcAccepted(s.db.rows, s.procs[p], accepts);
      CommitHolds(s.db, s.procs[p].phase.txn, accepts);
      forall q | q in t.procs
        ensures ProcAccepted(t.db.rows, t.procs[q], accepts)
      {
        assert q != p ==> !Holding(s.procs[q].phase);
      }
    } else {
      QuietHolds(s, t, accepts);
    }
  }

  lemma StepHolds(s: State, a: Action, accepts: Validator)
    requires Inv(s) && Held(s, accepts) && HonestStep(s, a, accepts)
    ensures Held(Step(s, a), accepts) && KeepsSeats(s.db, Step(s, a).db)
  {
    match a
    case Work(p, seen, c) => if p in s.procs { WorkHolds(s, p, seen, c, accepts); }
    case Finish(p) => if p in s.procs { FinishHolds(s, p, accepts); }
    case View(row, now) => ViewIsQuiet(s.db, row, now); QuietHolds(s, Step(s, a), accepts);
    case Bookkeep(row, mail) => BookkeepIsQuiet(s.db, row, mail); QuietHolds(s, Step(s, a), accepts);
    case _ => OtherHolds(s, a, accepts);
  }

  lemma OtherHolds(s: State, a: Action, accepts: Validator)
    requires Held(s, accepts) && !a.Work? && !a.Finish? && !a.View? && !a.Bookkeep?
    ensures Held(Step(s, a), accepts) && KeepsSeats(s.db, Step(s, a).db)
  {
    assert Step(s, a).db.rows == s.db.rows;
    QuietHolds(s, Step(s, a), accepts);
  }

  lemma ViewIsQuiet(db: Db, row: nat, now: int)
    ensures OnlyViewed(db.rows, AfterView(db, row, now).rows)
  {
  }

  lemma BookkeepIsQuiet(db: Db, row: nat, mail: Mail)
    ensures OnlyViewed(db.rows, AfterBookkeep(db, row, mail).rows)
  {
  }

  // ---- every run --------------------------------------------------------------

  /** Over every interleaving, replacements included, a completed row holds values accepted for its role and
      for the user it belongs to now. */
  lemma {:induction false} CompletedRowsAreAccepted(s: State, actions: seq<Action>, accepts: Validator)
    requires Initial(s) && Honest(s, actions, accepts)
    ensures Inv(Run(s, actions)) && Held(Run(s, actions), accepts)
    ensures KeepsSeats(s.db, Run(s, actions).db)
    decreases |actions|
  {
    Theorems.ReachableInv(s, actions);
    if actions != [] {
      var n := |actions| - 1;
      CompletedRowsAreAccepted(s, actions[..n], accepts);
      var t := Run(s, actions[..n]);
      StepHolds(t, actions[n], accepts);
      if t.db.sub.status.Deleted? {
        DeletedStays(t, actions[n]);
      }
      SeatsKeptTwice(s.db, t.db, Step(t, actions[n]).db);
    }
  }

  lemma SeatsKeptTwice(a: Db, b: Db, c: Db)
    requires KeepsSeats(a, b) && KeepsSeats(b, c) && (b.sub.status.Deleted? ==> c.sub.status.Deleted?)
    ensures KeepsSeats(a, c)
  {
  }

  lemma DeletedStays(s: State, a: Action)
    requires Inv(s) && s.db.sub.status.Deleted?
    ensures Step(s, a).db.sub.status.Deleted?
  {
    Theorems.StepKeepsTerminal(s, a);
  }

  /** The validator of these fields: the values pass for the fields of the role, given by this person. */
  ghost function FieldValidator(fields: seq<Fields.Field>, at: Fields.Lookup): Validator {
    (i: nat, role: string, user: UserId, values: Values) =>
      Fields.AcceptedValues(Fields.MyFields(fields, role), values, Fields.Person(user, i), at)
  }

  /** An executed envelope is filled: its rows sit where the mapping put them, and every signer has completed
      with values accepted for them. */
  lemma ExecutedIsFilled(s: State, actions: seq<Action>, signers: seq<Fields.Signer>, fields: seq<Fields.Field>,
                         at: Fields.Lookup)
    requires Initial(s) && Fields.Seats(s.db.rows, signers) && Honest(s, actions, FieldValidator(fields, at))
    requires Run(s, actions).db.sub.status.Completed?
    ensures Fields.Seats(Run(s, actions).db.rows, signers)
    ensures Fields.AllFilled(Run(s, actions).db.rows, fields, at)
  {
    var accepts := FieldValidator(fields, at);
    CompletedRowsAreAccepted(s, actions, accepts);
    var rows := Run(s, actions).db.rows;
    forall i | 0 <= i < |rows| && !rows[i].isCc
      ensures rows[i].status.Completed? && Fields.Filled(rows[i], i, fields, at)
    {
      assert RowAccepted(rows[i], i, accepts);
    }
  }

  /** Nobody signs with another's mark: on an executed envelope every value of a signature or initials field was
      drawn by the row's user, and every file in an attachment field was uploaded by that very recipient. */
  lemma MarksAreOwn(s: State, actions: seq<Action>, signers: seq<Fields.Signer>, fields: seq<Fields.Field>,
                    at: Fields.Lookup, i: nat, k: nat)
    requires Initial(s) && Fields.Seats(s.db.rows, signers) && Honest(s, actions, FieldValidator(fields, at))
    requires Run(s, actions).db.sub.status.Completed? && Fields.FieldIdsDistinct(fields) && k < |fields|
    requires i < |Run(s, actions).db.rows| && !Run(s, actions).db.rows[i].isCc
    ensures var row := Run(s, actions).db.rows[i];
            fields[k].id in row.values ==>
              var value := row.values[fields[k].id];
              && (fields[k].kind.Signature? || fields[k].kind.Initials? ==>
                    value.Id? && value.n in at.signatures && at.signatures[value.n] == row.userId)
              && (fields[k].kind.Upload? ==> value.Id? && value.n in at.uploads && at.uploads[value.n] == i)
              && Fields.ProperValue(fields[k], value, Fields.Person(row.userId, i), at)
  {
    ExecutedIsFilled(s, actions, signers, fields, at);
    var row := Run(s, actions).db.rows[i];
    if fields[k].id in row.values {
      Fields.AcceptedEntryFits(fields, row, i, at, k);
      Fields.FitsIffProper(fields[k], row.values[fields[k].id], Fields.Person(row.userId, i), at);
    }
  }

  // ---- the validator of each moment, and the pages of the document ------------

  /** Every signing is validated against what has been drawn and uploaded by then. */
  ghost predicate ValidatedInTime(s: State, actions: seq<Action>, fields: seq<Fields.Field>,
                                  lookups: seq<Fields.Lookup>)
    decreases |actions|
  {
    |lookups| == |actions| &&
    (actions == [] ||
     var n := |actions| - 1;
     && ValidatedInTime(s, actions[..n], fields, lookups[..n])
     && HonestStep(Run(s, actions[..n]), actions[n], FieldValidator(fields, lookups[n])))
  }

  lemma HonestLater(s: State, a: Action, fields: seq<Fields.Field>, early: Fields.Lookup, at: Fields.Lookup)
    requires HonestStep(s, a, FieldValidator(fields, early)) && Fields.Grown(early, at)
    ensures HonestStep(s, a, FieldValidator(fields, at))
  {
    if a.Work? && a.pid in s.procs && s.procs[a.pid].req.CompleteSigning? && a.chance.valid {
      var req := s.procs[a.pid].req;
      if req.row < |s.db.rows| {
        var row := s.db.rows[req.row];
        Fields.AcceptanceLasts(Fields.MyFields(fields, row.role), req.values, Fields.Person(row.userId, req.row),
                               early, at);
      }
    }
  }

  /** Signatures and uploads only accumulate, so a run validated moment by moment is honest for the final ones. */
  lemma {:induction false} InTimeIsHonest(s: State, actions: seq<Action>, fields: seq<Fields.Field>,
                                          lookups: seq<Fields.Lookup>, at: Fields.Lookup)
    requires ValidatedInTime(s, actions, fields, lookups)
    requires forall k :: 0 <= k < |lookups| ==> Fields.Grown(lookups[k], at)
    ensures Honest(s, actions, FieldValidator(fields, at))
    decreases |actions|
  {
    if actions != [] {
      var n := |actions| - 1;
      InTimeIsHonest(s, actions[..n], fields, lookups[..n], at);
      HonestLater(Run(s, actions[..n]), actions[n], fields, lookups[n], at);
    }
  }

  function FieldPages(fields: seq<Fields.Field>): seq<nat> {
    seq(|fields|, k requires 0 <= k < |fields| => fields[k].page)
  }

  /** The stored row of this template. */
  predicate StoredAs(row: Files.Template, t: Fields.Template) {
    row.pageCount == t.pageCount && row.lastFieldPage == Files.LastPage(FieldPages(t.fields))
  }

  /** Whatever was created, edited, copied and replaced before: the fields of a stored template lie on its pages. */
  lemma StoredFieldsAreInRange(ops: seq<Files.Op>, id: nat, t: Fields.Template)
    requires id in Files.Run(Files.EMPTY, ops).templates && StoredAs(Files.Run(Files.EMPTY, ops).templates[id], t)
    ensures Fields.InRange(t)
  {
    Files.FieldsAlwaysFit(ops);
    Files.LastPageIsLast(FieldPages(t.fields));
    assert forall k :: 0 <= k < |t.fields| ==> FieldPages(t.fields)[k] == t.fields[k].page;
  }

  /** From the accepted mapping over every interleaving of requests to the signed PDF: on an executed envelope
      each required field has exactly one owner, the values stamped for that owner have a fitting entry for it,
      and the built pages show that entry once, on the field's page and on no other, or nothing exactly for an
      empty text or an unticked box.  `t` is the template as stored at completion. */
  lemma RequiredFieldReachesPaper(s: State, actions: seq<Action>, t: Fields.Template, signers: seq<Fields.Signer>,
                                  lookups: seq<Fields.Lookup>, at: Fields.Lookup, stored: set<int>, p: Fields.Paper,
                                  ops: seq<Files.Op>, id: nat, pages: seq<seq<Fields.Mark>>, k: nat)
    returns (i: nat)
    requires Initial(s) && Fields.Mapping(t, signers).None? && Fields.Seats(s.db.rows, signers)
    requires Fields.FieldIdsDistinct(t.fields) && !at.isoDate("")
    requires k < |t.fields| && t.fields[k].required && !t.fields[k].kind.Label? && !t.fields[k].kind.Name?
    requires ValidatedInTime(s, actions, t.fields, lookups)
    requires forall j :: 0 <= j < |lookups| ==> Fields.Grown(lookups[j], at)
    requires Run(s, actions).db.sub.status.Completed? && at.signatures.Keys <= stored
    requires Fields.Gathered(t.fields, Fields.Finished(Run(s, actions).db.rows), stored, p.images)
    requires id in Files.Run(Files.EMPTY, ops).templates && StoredAs(Files.Run(Files.EMPTY, ops).templates[id], t)
    requires Fields.IsBuilt(pages, t.pageCount, t.fields, Fields.Finished(Run(s, actions).db.rows), p)
    ensures var (now, field) := (Run(s, actions).db, t.fields[k]);
            && Fields.Owns(now.rows, i, field) && field.id in now.rows[i].values
            && now.sub.signedPdf.Some? && i < |now.sub.signedPdf.value.entries|
            && now.sub.signedPdf.value.entries[i] == Some(now.rows[i].values)
            && var value := now.rows[i].values[field.id];
               && Fields.ProperValue(field, value, Fields.Person(now.rows[i].userId, i), at)
               && field.page < |pages|
               && (forall page :: 0 <= page < |pages| ==>
                     Fields.MarksOf(pages[page], field.id)
                       == if page == field.page then Fields.Once(Fields.Inked(field, value), field.id) else [])
               && (Fields.Inked(field, value).None? <==> value == Text("") || value == Flag(false))
  {
    InTimeIsHonest(s, actions, t.fields, lookups, at);
    ExecutedIsFilled(s, actions, signers, t.fields, at);
    StoredFieldsAreInRange(ops, id, t);
    i := Fields.FilledFieldReachesPaper(t, signers, Run(s, actions).db.rows, at, stored, p, pages, k);
    Theorems.SignaturesOnStampedDocument(s, actions);
    var row := Run(s, actions).db.rows[i];
    Fields.FitsIffProper(t.fields[k], row.values[t.fields[k].id], Fields.Person(row.userId, i), at);
  }
}
