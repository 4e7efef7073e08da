/** The inductive invariant of the completion protocol and the proof that every step keeps it. */
module Invariant {
  import opened Basics
  import opened Envelope
  import opened Transactions
  import opened Protocol

  function Times(log: seq<Event>, e: Event): nat {
    multiset(log)[e]
  }

  // ---- what is true of the committed rows -----------------------------------

  /** A completed signer implies every lower-order signer is completed. */
  predicate InOrder(rows: seq<Row>) {
    forall i, j ::
      (0 <= i < |rows| && 0 <= j < |rows| && rows[i].status.Completed?
       && !rows[j].isCc && rows[j].order < rows[i].order) ==> rows[j].status.Completed?
  }

  predicate SignedOn(rows: seq<Row>, content: Content) {
    forall i :: 0 <= i < |rows| && rows[i].status.Completed? ==> rows[i].signedOn == Some(content)
  }

  predicate CopiesNeverSign(rows: seq<Row>) {
    forall i :: 0 <= i < |rows| && rows[i].isCc ==> !rows[i].status.Completed?
  }

  /** A completed row holds values entered by the user it belongs to, and the log has exactly one
      `signed` event for it, naming that user; a live envelope has no other `signed` event. */
  ghost predicate Attributed(rows: seq<Row>, log: seq<Event>, live: bool) {
    && (forall i :: 0 <= i < |rows| && rows[i].status.Completed? ==> rows[i].enteredBy == Some(rows[i].userId))
    && (forall i, u :: 0 <= i < |rows| && rows[i].status.Completed? ==>
          Times(log, SignedBy(i, u)) == if u == rows[i].userId then 1 else 0)
    && (live ==> forall i, u :: 0 <= i < |rows| && !rows[i].status.Completed? ==> Times(log, SignedBy(i, u)) == 0)
  }

  /** The record of a completed envelope is whole, and no other envelope has any part of it. */
  predicate Sealed(sub: Submission, rows: seq<Row>, log: seq<Event>, content: Content) {
    && Times(log, EnvelopeCompleted) == (if sub.status.Completed? then 1 else 0)
    && sub.signedPdf.Some? == sub.certificate.Some? == sub.completedAt.Some? == sub.status.Completed?
    && (sub.status.Completed? ==>
          && AllSigned(rows)
          && sub.signedPdf == Some(Stamp(content, Entries(rows)))
          && Trail(sub.certificate.value, rows))
  }

  /** The certificate's trail shows each signer's own `signed` event. */
  predicate Trail(trail: seq<Event>, rows: seq<Row>) {
    forall i :: 0 <= i < |rows| && !rows[i].isCc ==> Times(trail, SignedBy(i, rows[i].userId)) == 1
  }

  ghost predicate DbInv(db: Db, files: map<TemplateId, Content>, lastFailed: bool) {
    && db.sub.template in files
    && (db.sub.status.Deleted? || HasSigner(db.rows))
    && CopiesNeverSign(db.rows)
    && (db.sub.status.Draft? ==> forall i :: 0 <= i < |db.rows| ==> !db.rows[i].status.Completed?)
    && (Live(db.sub.status) ==> InOrder(db.rows) && SignedOn(db.rows, files[db.sub.template]))
    && Attributed(db.rows, db.log, Live(db.sub.status))
    && Sealed(db.sub, db.rows, db.log, files[db.sub.template])
    && (db.sub.status.Pending? ==> (AllSigned(db.rows) <==> lastFailed))
    && (db.sub.status.Draft? ==> !lastFailed)
  }

  // ---- what is true of a request --------------------------------------------

  predicate SameShape(a: seq<Row>, b: seq<Row>) {
    |a| == |b| && forall i :: 0 <= i < |a| ==> a[i].isCc == b[i].isCc && a[i].order == b[i].order
  }

  /** Completedness only grows. */
  predicate Grows(a: seq<Row>, b: seq<Row>)
    requires |a| == |b|
  {
    forall i :: 0 <= i < |a| && a[i].status.Completed? ==> b[i].status.Completed?
  }

  predicate CacheOk(db: Db, req: Request, actor: UserId, cache: seq<Row>) {
    !db.sub.status.Deleted? ==>
      && SameShape(cache, db.rows)
      && (Live(db.sub.status) ==> Grows(cache, db.rows))
      && (req.CompleteSigning? || req.DeclineSigning? ==>
            req.row < |cache| && !cache[req.row].isCc && cache[req.row].userId == actor)
  }

  predicate OutcomeFits(sub: Submission, txn: Txn) {
    match OutcomeOf(txn)
    case Some(Finalized(true)) => sub.status.Pending? && txn.sub.status.Completed?
    case Some(Finalized(false)) => sub.status.Pending? && txn.sub == sub
    case _ => txn.Write? ==> txn.sub.status.Completed? == sub.status.Completed?
  }

  function LastFailed(txn: Txn, lastFailed: bool): bool {
    match OutcomeOf(txn)
    case Some(Finalized(stamped)) => !stamped
    case _ => lastFailed
  }

  /** What a commit may do to the rows other requests have read. */
  predicate Extends(db: Db, next: Db) {
    !next.sub.status.Deleted? ==>
      && !db.sub.status.Deleted?
      && SameShape(db.rows, next.rows)
      && (Live(next.sub.status) ==> Live(db.sub.status) && Grows(db.rows, next.rows))
  }

  predicate WritesNothing(sub: Submission, txn: Txn) {
    txn.Write? && txn.sub == sub && txn.patch.NoPatch? && txn.events == []
  }

  ghost predicate CommitSafe(db: Db, files: map<TemplateId, Content>, lastFailed: bool, txn: Txn) {
    && DbInv(Committed(db, txn), files, LastFailed(txn, lastFailed))
    && Extends(db, Committed(db, txn))
    && (Terminal(db.sub.status) ==> WritesNothing(db.sub, txn))
    && OutcomeFits(db.sub, txn)
  }

  ghost predicate ProcInv(s: State, proc: Proc) {
    match proc.phase
    case Waiting(cache) => CacheOk(s.db, proc.req, proc.actor, cache)
    case Locked(cache) => !s.db.sub.status.Deleted? && CacheOk(s.db, proc.req, proc.actor, cache)
    case Writing(txn) => CommitSafe(s.db, s.files, s.hist.lastFailed, txn)
    case _ => true
  }

  ghost predicate LockInv(s: State) {
    && (s.lock.Some? ==> s.lock.value in s.procs)
    && forall p :: p in s.procs ==> (Holding(s.procs[p].phase) <==> s.lock == Some(p))
  }

  /** How the history and the phases of the finished requests hang together. */
  ghost predicate HistInv(s: State) {
    var h := s.hist;
    && h.finalized <= s.procs.Keys
    && h.mailed <= h.finalized
    && h.finalized == h.failed + (if h.winner.Some? then {h.winner.value} else {})
    && (h.winner.Some? ==> h.winner.value !in h.failed)
    && (h.winner.Some? <==> s.db.sub.status.Completed?)
    && (h.mailed != {} ==> s.db.sub.status.Completed?)
    && (forall p :: p in s.procs ==> HistOf(h, p, s.procs[p].phase))
  }

  ghost predicate HistOf(h: History, p: Pid, phase: Phase) {
    match phase
    case Posted(Some(Finalized(stamped))) =>
      p in h.finalized && p !in h.mailed && (stamped <==> h.winner == Some(p))
    case Done => h.winner == Some(p) ==> p in h.mailed
    case _ => p !in h.finalized
  }

  ghost predicate Inv(s: State) {
    && DbInv(s.db, s.files, s.hist.lastFailed)
    && LockInv(s)
    && HistInv(s)
    && forall p :: p in s.procs ==> ProcInv(s, s.procs[p])
  }

  // ---- rows that differ only in "opened" and mail ---------------------------

  /** A row up to the difference between pending and opened, and up to mail. */
  function Core(row: Row): Row {
    row.(status := if row.status.Opened? then RowStatus.Pending else row.status, mail := NO_MAIL)
  }

  ghost predicate Similar(db: Db, next: Db) {
    && next.sub == db.sub
    && |next.rows| == |db.rows|
    && (forall i :: 0 <= i < |db.rows| ==> Core(next.rows[i]) == Core(db.rows[i]))
    && (forall e: Event :: !e.OpenedBy? ==> Times(next.log, e) == Times(db.log, e))
  }

  lemma SimilarKeepsDbInv(db: Db, next: Db, files: map<TemplateId, Content>, lastFailed: bool)
    requires DbInv(db, files, lastFailed) && Similar(db, next)
    ensures DbInv(next, files, lastFailed)
  {
    SimilarRows(db.rows, next.rows);
    if HasSigner(db.rows) {
      var i :| 0 <= i < |db.rows| && !db.rows[i].isCc;
      assert !next.rows[i].isCc;
    }
    SimilarKeepsRecord(db, next, files[db.sub.template]);
  }

  lemma SimilarKeepsRecord(db: Db, next: Db, content: Content)
    requires Similar(db, next)
    requires Attributed(db.rows, db.log, Live(db.sub.status)) && Sealed(db.sub, db.rows, db.log, content)
    ensures Attributed(next.rows, next.log, Live(next.sub.status)) && Sealed(next.sub, next.rows, next.log, content)
  {
    SimilarRows(db.rows, next.rows);
  }

  lemma SimilarRows(a: seq<Row>, b: seq<Row>)
    requires |a| == |b| && forall i :: 0 <= i < |a| ==> Core(b[i]) == Core(a[i])
    ensures forall i :: 0 <= i < |a| ==>
              && b[i].isCc == a[i].isCc && b[i].order == a[i].order && b[i].userId == a[i].userId
              && b[i].status.Completed? == a[i].status.Completed?
              && b[i].enteredBy == a[i].enteredBy && b[i].signedOn == a[i].signedOn
    ensures Entries(a) == Entries(b)
  {
    forall i | 0 <= i < |a|
      ensures b[i].isCc == a[i].isCc && b[i].order == a[i].order && b[i].userId == a[i].userId
              && b[i].status.Completed? == a[i].status.Completed? && b[i].values == a[i].values
              && b[i].enteredBy == a[i].enteredBy && b[i].signedOn == a[i].signedOn
    {
      assert Core(b[i]).isCc == Core(a[i]).isCc && Core(b[i]).order == Core(a[i]).order;
      assert Core(b[i]).values == Core(a[i]).values && Core(b[i]).signedOn == Core(a[i]).signedOn;
      assert Core(b[i]).enteredBy == Core(a[i]).enteredBy && Core(b[i]).userId == Core(a[i]).userId;
      assert Core(b[i]).status == Core(a[i]).status;
    }
  }

  /** Committing after such a change is as good as changing after the commit. */
  lemma CommitKeepsSimilar(db: Db, next: Db, txn: Txn)
    requires Similar(db, next)
    ensures Similar(Committed(db, txn), Committed(next, txn))
  {
    if txn.Write? {
      var a, b := Committed(db, txn), Committed(next, txn);
      forall i | 0 <= i < |a.rows|
        ensures Core(b.rows[i]) == Core(a.rows[i])
      {
        assert Core(next.rows[i]) == Core(db.rows[i]);
      }
      forall e: Event | !e.OpenedBy?
        ensures Times(b.log, e) == Times(a.log, e)
      {
        assert Times(next.log, e) == Times(db.log, e);
        assert multiset(next.log + txn.events) == multiset(next.log) + multiset(txn.events);
        assert multiset(db.log + txn.events) == multiset(db.log) + multiset(txn.events);
      }
    }
  }

  lemma SimilarKeepsCommitSafe(db: Db, next: Db, files: map<TemplateId, Content>, lastFailed: bool, txn: Txn)
    requires CommitSafe(db, files, lastFailed, txn) && Similar(db, next)
    ensures CommitSafe(next, files, lastFailed, txn)
  {
    CommitKeepsSimilar(db, next, txn);
    SimilarKeepsDbInv(Committed(db, txn), Committed(next, txn), files, LastFailed(txn, lastFailed));
    SimilarRows(db.rows, next.rows);
    SimilarRows(Committed(db, txn).rows, Committed(next, txn).rows);
  }

  lemma SimilarKeepsInv(s: State, next: Db)
    requires Inv(s) && Similar(s.db, next)
    ensures Inv(s.(db := next))
  {
    var t := s.(db := next);
    SimilarKeepsDbInv(s.db, next, s.files, s.hist.lastFailed);
    SimilarRows(s.db.rows, next.rows);
    forall p | p in t.procs
      ensures ProcInv(t, t.procs[p])
    {
      assert ProcInv(s, s.procs[p]);
      if s.procs[p].phase.Writing? {
        SimilarKeepsCommitSafe(s.db, next, s.files, s.hist.lastFailed, s.procs[p].phase.txn);
      }
    }
  }

  lemma ViewIsSimilar(db: Db, row: nat, now: int)
    ensures Similar(db, AfterView(db, row, now))
  {
    var next := AfterView(db, row, now);
    if next != db {
      var e := OpenedBy(row, db.rows[row].userId);
      assert multiset(db.log + [e]) == multiset(db.log) + multiset{e};
    }
  }

  // ---- every decision is safe to commit -------------------------------------

  /** Appending events that record no signature and no completion changes nothing the invariant counts. */
  lemma QuietEvents(log: seq<Event>, more: seq<Event>)
    requires forall e: Event :: e in more ==> !e.SignedBy? && !e.EnvelopeCompleted?
    ensures forall i, u :: Times(log + more, SignedBy(i, u)) == Times(log, SignedBy(i, u))
    ensures Times(log + more, EnvelopeCompleted) == Times(log, EnvelopeCompleted)
  {
    assert multiset(log + more) == multiset(log) + multiset(more);
    forall e: Event | e.SignedBy? || e.EnvelopeCompleted?
      ensures multiset(more)[e] == 0
    {
      assert e !in more;
    }
  }

  /** A write that changes neither who has completed nor the document keeps the invariant. */
  lemma QuietWriteIsSafe(db: Db, files: map<TemplateId, Content>, lastFailed: bool, txn: Txn)
    requires DbInv(db, files, lastFailed)
    requires txn.Write? && txn.outcome == None && !Terminal(db.sub.status) && !txn.sub.status.Completed?
    requires txn.sub.template == db.sub.template
    requires txn.sub.signedPdf == None && txn.sub.certificate == None && txn.sub.completedAt == None
    requires !txn.sub.status.Deleted?
    requires txn.patch.NoPatch?
             || (txn.patch.ReplacePatch? && txn.patch.row < |db.rows| && !db.rows[txn.patch.row].status.Completed?)
    requires txn.sub.status == db.sub.status || (db.sub.status.Pending? && Terminal(txn.sub.status))
             || (db.sub.status.Draft? && txn.sub.status.Pending?)
    requires forall e :: e in txn.events ==> !e.SignedBy? && !e.EnvelopeCompleted?
    ensures CommitSafe(db, files, lastFailed, txn)
  {
    QuietEvents(db.log, txn.events);
    var next := Committed(db, txn);
    assert |next.rows| == |db.rows|;
    assert forall i :: 0 <= i < |db.rows| ==>
      next.rows[i].isCc == db.rows[i].isCc && next.rows[i].order == db.rows[i].order
      && next.rows[i].status.Completed? == db.rows[i].status.Completed?
      && (db.rows[i].status.Completed? ==> next.rows[i] == db.rows[i]);
    var k :| 0 <= k < |db.rows| && !db.rows[k].isCc;
    assert !next.rows[k].isCc;
    assert AllSigned(next.rows) <==> AllSigned(db.rows);
    assert db.sub.status.Draft? ==> !db.rows[k].status.Completed?;
  }

  lemma StampIsSafe(db: Db, files: map<TemplateId, Content>, now: int, lastFailed: bool)
    requires DbInv(db, files, lastFailed) && db.sub.status.Pending? && AllSigned(db.rows)
    ensures var sub := db.sub.(signedPdf := Some(Stamp(files[db.sub.template], Entries(db.rows))),
                               certificate := Some(db.log), status := Status.Completed, completedAt := Some(now));
            DbInv(Db(sub, db.rows, db.log + [EnvelopeCompleted]), files, false)
  {
    assert multiset(db.log + [EnvelopeCompleted]) == multiset(db.log) + multiset{EnvelopeCompleted};
    forall i | 0 <= i < |db.rows| && !db.rows[i].isCc
      ensures Times(db.log, SignedBy(i, db.rows[i].userId)) == 1
    {
      assert db.rows[i].status.Completed?;
    }
  }

  lemma FinalizeIsSafe(db: Db, files: map<TemplateId, Content>, lastFailed: bool, c: Chance)
    requires DbInv(db, files, lastFailed)
    ensures CommitSafe(db, files, lastFailed, WithFinalize(db, NoPatch, [], files[db.sub.template], c))
  {
    var txn := WithFinalize(db, NoPatch, [], files[db.sub.template], c);
    assert db.log + [] == db.log && [] + [EnvelopeCompleted] == [EnvelopeCompleted];
    if txn.outcome == Some(Finalized(true)) {
      assert txn.events == [EnvelopeCompleted];
      assert Committed(db, txn) == Db(txn.sub, db.rows, db.log + [EnvelopeCompleted]);
      StampedIsSafe(db, files, lastFailed, c.now, txn);
    } else {
      assert txn.events == [] && Committed(db, txn) == db;
      NothingFinalizedIsSafe(db, files, lastFailed, txn);
    }
  }

  lemma StampedIsSafe(db: Db, files: map<TemplateId, Content>, lastFailed: bool, now: int, txn: Txn)
    requires DbInv(db, files, lastFailed) && db.sub.status.Pending? && AllSigned(db.rows)
    requires txn.Write? && txn.outcome == Some(Finalized(true))
    requires txn.sub == db.sub.(signedPdf := Some(Stamp(files[db.sub.template], Entries(db.rows))),
                                certificate := Some(db.log), status := Status.Completed, completedAt := Some(now))
    requires Committed(db, txn) == Db(txn.sub, db.rows, db.log + [EnvelopeCompleted])
    ensures CommitSafe(db, files, lastFailed, txn)
  {
    StampIsSafe(db, files, now, lastFailed);
  }

  lemma NothingFinalizedIsSafe(db: Db, files: map<TemplateId, Content>, lastFailed: bool, txn: Txn)
    requires DbInv(db, files, lastFailed) && WritesNothing(db.sub, txn) && Committed(db, txn) == db
    requires txn.outcome == Some(NotPending) || txn.outcome == Some(NotAllCompleted)
             || (txn.outcome == Some(Finalized(false)) && db.sub.status.Pending? && AllSigned(db.rows))
    ensures CommitSafe(db, files, lastFailed, txn)
  {
  }

  /** The signature itself, before the finalize step of the same transaction: the invariant holds of the
      rows as that step sees them, except that they may now all be completed. */
  lemma SignatureIsSafe(db: Db, files: map<TemplateId, Content>, lastFailed: bool, row: nat, values: Values)
    requires DbInv(db, files, lastFailed) && db.sub.status.Pending?
    requires row < |db.rows| && !db.rows[row].isCc && !db.rows[row].status.Completed?
    requires GroupReached(db.rows, db.rows[row].order)
    ensures var user := db.rows[row].userId;
            var signed := Committed(db, Write(db.sub, SignPatch(row, user, values, files[db.sub.template]),
                                              [SignedBy(row, user)], None));
            && DbInv(signed, files, AllSigned(signed.rows))
            && SameShape(db.rows, signed.rows) && Grows(db.rows, signed.rows)
  {
    var user := db.rows[row].userId;
    var patch := SignPatch(row, user, values, files[db.sub.template]);
    var rows := ApplyPatch(db.rows, patch);
    var log := db.log + [SignedBy(row, user)];
    assert multiset(log) == multiset(db.log) + multiset{SignedBy(row, user)};
    assert rows[row].status.Completed? && !rows[row].isCc;
    assert forall i :: 0 <= i < |rows| && i != row ==> rows[i] == db.rows[i];
    assert rows[row].order == db.rows[row].order;
  }

  /** Signing and finalizing in one transaction is signing, then finalizing the signed rows. */
  lemma SignThenFinalize(db: Db, row: nat, content: Content, values: Values, c: Chance)
    requires row < |db.rows|
    ensures var user := db.rows[row].userId;
            var patch := SignPatch(row, user, values, content);
            var signed := Committed(db, Write(db.sub, patch, [SignedBy(row, user)], None));
            var both := WithFinalize(db, patch, [SignedBy(row, user)], content, c);
            var second := WithFinalize(signed, NoPatch, [], content, c);
            && Committed(db, both) == Committed(signed, second)
            && both.sub == second.sub && both.outcome == second.outcome && signed.sub == db.sub
  {
    var user := db.rows[row].userId;
    var patch := SignPatch(row, user, values, content);
    var signed := Committed(db, Write(db.sub, patch, [SignedBy(row, user)], None));
    var second := WithFinalize(signed, NoPatch, [], content, c);
    assert signed.log + [] == signed.log;
    assert signed.log + second.events == db.log + ([SignedBy(row, user)] + second.events);
  }

  lemma SigningIsSafe(db: Db, files: map<TemplateId, Content>, lastFailed: bool, row: nat, values: Values, c: Chance)
    requires DbInv(db, files, lastFailed) && db.sub.status.Pending?
    requires row < |db.rows| && !db.rows[row].isCc && !db.rows[row].status.Completed?
    requires GroupReached(db.rows, db.rows[row].order)
    ensures var user, content := db.rows[row].userId, files[db.sub.template];
            CommitSafe(db, files, lastFailed,
                       WithFinalize(db, SignPatch(row, user, values, content), [SignedBy(row, user)], content, c))
  {
    var user, content := db.rows[row].userId, files[db.sub.template];
    SignatureIsSafe(db, files, lastFailed, row, values);
    var signed := Committed(db, Write(db.sub, SignPatch(row, user, values, content), [SignedBy(row, user)], None));
    FinalizeIsSafe(signed, files, AllSigned(signed.rows), c);
    SignThenFinalize(db, row, content, values, c);
    BothAreSafe(db, signed, files, lastFailed, WithFinalize(signed, NoPatch, [], content, c),
                WithFinalize(db, SignPatch(row, user, values, content), [SignedBy(row, user)], content, c));
  }

  /** Two transactions in a row as one. */
  lemma BothAreSafe(db: Db, signed: Db, files: map<TemplateId, Content>, lastFailed: bool, second: Txn, both: Txn)
    requires DbInv(db, files, lastFailed) && db.sub.status.Pending? && !AllSigned(db.rows)
    requires signed.sub == db.sub && Extends(db, signed) && CommitSafe(signed, files, AllSigned(signed.rows), second)
    requires second.Write? && both.Write? && both.sub == second.sub && both.outcome == second.outcome
    requires Committed(db, both) == Committed(signed, second)
    requires second.outcome == if AllSigned(signed.rows) then Some(Finalized(second.sub.status.Completed?))
                               else Some(NotAllCompleted)
    ensures CommitSafe(db, files, lastFailed, both)
  {
  }

  lemma CompletionIsSafe(db: Db, files: map<TemplateId, Content>, lastFailed: bool, row: nat, actor: UserId,
                         values: Values, seen: seq<Row>, c: Chance)
    requires DbInv(db, files, lastFailed)
    requires row < |db.rows| && !db.rows[row].isCc
    requires SameShape(seen, db.rows) && (Live(db.sub.status) ==> Grows(seen, db.rows))
    ensures var d := DecideComplete(db, files[db.sub.template], row, actor, values, seen, c);
            d.Some? ==> CommitSafe(db, files, lastFailed, d.value)
  {
    var d := DecideComplete(db, files[db.sub.template], row, actor, values, seen, c);
    if d.Some? {
      if db.rows[row].status.Completed? {
        FinalizeIsSafe(db, files, lastFailed, c);
      } else {
        assert GroupReached(db.rows, db.rows[row].order) by {
          forall j | 0 <= j < |db.rows| && !db.rows[j].isCc && db.rows[j].order < db.rows[row].order
            ensures db.rows[j].status.Completed?
          {
            assert seen[j].isCc == db.rows[j].isCc && seen[j].order == db.rows[j].order;
          }
        }
        SigningIsSafe(db, files, lastFailed, row, values, c);
      }
    }
  }

  lemma ReplaceDocumentIsSafe(db: Db, files: map<TemplateId, Content>, lastFailed: bool, content: Content, c: Chance)
    requires DbInv(db, files, lastFailed) && c.freshTemplate !in files
    ensures var d := DecideReplaceDocument(db, c);
            d.Some? ==>
              var changed := files[d.value.sub.template := content];
              DbInv(db, changed, lastFailed) && CommitSafe(db, changed, lastFailed, d.value)
  {
    var d := DecideReplaceDocument(db, c);
    if d.Some? {
      QuietEvents(db.log, d.value.events);
      var k :| 0 <= k < |db.rows| && !db.rows[k].isCc;
      assert !db.rows[k].status.Completed?;
      assert forall i :: 0 <= i < |db.rows| ==> !db.rows[i].status.Completed?;
    }
  }

  lemma DeclineIsSafe(db: Db, files: map<TemplateId, Content>, lastFailed: bool, row: nat, me: Row,
                      seen: seq<Row>, c: Chance)
    requires DbInv(db, files, lastFailed) && row < |db.rows|
    ensures var d := DecideDecline(db, row, me, seen, c);
            d.Some? ==> CommitSafe(db, files, lastFailed, d.value)
  {
    var d := DecideDecline(db, row, me, seen, c);
    if d.Some? {
      QuietEvents(db.log, d.value.events);
      var next := Committed(db, d.value);
      assert forall i :: 0 <= i < |db.rows| && i != row ==> next.rows[i] == db.rows[i];
      var k :| 0 <= k < |db.rows| && !db.rows[k].isCc;
      assert !next.rows[k].isCc;
    }
  }

  lemma QuietDecisionIsSafe(db: Db, files: map<TemplateId, Content>, lastFailed: bool, req: Request,
                            actor: UserId, cache: seq<Row>, seen: seq<Row>, c: Chance)
    requires DbInv(db, files, lastFailed)
    requires req.CancelSubmission? || req.ReplaceSubmitter? || req.CorrectSubmission? || req.SendDraft?
    ensures var d := Decide(db, files[db.sub.template], req, actor, cache, seen, c);
            d.Some? ==> CommitSafe(db, files, lastFailed, d.value)
  {
    var d := Decide(db, files[db.sub.template], req, actor, cache, seen, c);
    if d.Some? {
      QuietWriteIsSafe(db, files, lastFailed, d.value);
    }
  }

  lemma DropIsSafe(db: Db, files: map<TemplateId, Content>, lastFailed: bool)
    requires DbInv(db, files, lastFailed) && db.sub.status.Draft?
    ensures CommitSafe(db, files, lastFailed, DropEnvelope)
  {
  }

  /** Whatever a request decides under the lock may be committed; a replaced document is already in
      storage by then. */
  lemma DecisionIsSafe(s: State, p: Pid, seen: seq<Row>, c: Chance)
    requires Inv(s) && p in s.procs && s.procs[p].phase.Locked?
    requires Sees(seen, s.procs[p].phase.cache, s.db.rows) && c.freshTemplate !in s.files
    ensures var proc := s.procs[p];
            var d := Decide(s.db, s.files[s.db.sub.template], proc.req, proc.actor, proc.phase.cache, seen, c);
            d.Some? ==>
              var files := if proc.req.ReplaceDocument? && d.value.Write?
                           then s.files[d.value.sub.template := proc.req.content] else s.files;
              DbInv(s.db, files, s.hist.lastFailed) && CommitSafe(s.db, files, s.hist.lastFailed, d.value)
  {
    var proc, db, lf := s.procs[p], s.db, s.hist.lastFailed;
    var cache := proc.phase.cache;
    assert ProcInv(s, proc);
    match proc.req
    case CompleteSigning(row, values) => CompletionIsSafe(db, s.files, lf, row, proc.actor, values, seen, c);
    case DeclineSigning(row) => DeclineIsSafe(db, s.files, lf, row, cache[row], seen, c);
    case ReplaceDocument(content) => ReplaceDocumentIsSafe(db, s.files, lf, content, c);
    case RetryCompletion => FinalizeIsSafe(db, s.files, lf, c);
    case DeleteDraft => if db.sub.status.Draft? { DropIsSafe(db, s.files, lf); }
    case _ => QuietDecisionIsSafe(db, s.files, lf, proc.req, proc.actor, cache, seen, c);
  }

  // ---- every step keeps the invariant ---------------------------------------

  lemma LoadKeepsInv(s: State, p: Pid)
    requires Inv(s) && p in s.procs
    ensures Inv(AfterLoad(s, p))
  {
    var t := AfterLoad(s, p);
    forall q | q in t.procs
      ensures ProcInv(t, t.procs[q])
    {
      assert ProcInv(s, s.procs[q]);
    }
  }

  lemma AcquireKeepsInv(s: State, p: Pid)
    requires Inv(s) && p in s.procs
    ensures Inv(AfterAcquire(s, p))
  {
    var t := AfterAcquire(s, p);
    forall q | q in t.procs
      ensures ProcInv(t, t.procs[q])
    {
      assert ProcInv(s, s.procs[q]);
    }
  }

  lemma WorkKeepsProc(s: State, p: Pid, q: Pid, seen: seq<Row>, c: Chance)
    requires Inv(s) && p in s.procs && q in s.procs && AfterWork(s, p, seen, c) != s
    ensures ProcInv(AfterWork(s, p, seen, c), AfterWork(s, p, seen, c).procs[q])
  {
    assert ProcInv(s, s.procs[q]);
    if q == p {
      DecisionIsSafe(s, p, seen, c);
    } else {
      assert !Holding(s.procs[q].phase);
    }
  }

  lemma WorkKeepsHist(s: State, p: Pid, seen: seq<Row>, c: Chance)
    requires Inv(s) && p in s.procs
    ensures LockInv(AfterWork(s, p, seen, c)) && HistInv(AfterWork(s, p, seen, c))
  {
    var t := AfterWork(s, p, seen, c);
    forall q | q in t.procs
      ensures HistOf(t.hist, q, t.procs[q].phase)
    {
      assert HistOf(s.hist, q, s.procs[q].phase);
    }
  }

  lemma WorkKeepsInv(s: State, p: Pid, seen: seq<Row>, c: Chance)
    requires Inv(s) && p in s.procs
    ensures Inv(AfterWork(s, p, seen, c))
  {
    var t := AfterWork(s, p, seen, c);
    if t != s {
      WorkKeepsHist(s, p, seen, c);
      WorkKeepsDb(s, p, seen, c);
      forall q | q in t.procs
        ensures ProcInv(t, t.procs[q])
      {
        WorkKeepsProc(s, p, q, seen, c);
      }
    }
  }

  lemma WorkKeepsDb(s: State, p: Pid, seen: seq<Row>, c: Chance)
    requires Inv(s) && p in s.procs
    ensures var t := AfterWork(s, p, seen, c);
            DbInv(t.db, t.files, t.hist.lastFailed)
  {
    if AfterWork(s, p, seen, c) != s {
      DecisionIsSafe(s, p, seen, c);
    }
  }

  lemma FinishKeepsHistOf(s: State, p: Pid, q: Pid)
    requires Inv(s) && p in s.procs && q in s.procs && s.procs[p].phase.Writing?
    ensures HistOf(AfterFinish(s, p).hist, q, AfterFinish(s, p).procs[q].phase)
  {
    assert ProcInv(s, s.procs[p]) && HistOf(s.hist, p, s.procs[p].phase) && HistOf(s.hist, q, s.procs[q].phase);
  }

  lemma FinishKeepsHist(s: State, p: Pid)
    requires Inv(s) && p in s.procs && s.procs[p].phase.Writing?
    ensures HistInv(AfterFinish(s, p))
  {
    assert ProcInv(s, s.procs[p]) && HistOf(s.hist, p, s.procs[p].phase);
    var t := AfterFinish(s, p);
    forall q | q in t.procs
      ensures HistOf(t.hist, q, t.procs[q].phase)
    {
      FinishKeepsHistOf(s, p, q);
    }
  }

  /** A commit leaves the requests that wait for the lock with a cache they may still use. */
  lemma CommitKeepsCache(db: Db, next: Db, req: Request, actor: UserId, cache: seq<Row>)
    requires Extends(db, next) && CacheOk(db, req, actor, cache)
    ensures CacheOk(next, req, actor, cache)
  {
  }

  /** After p has committed, every other request is where it was, with a cache it may still use. */
  lemma CommitKeepsProc(s: State, p: Pid, q: Pid)
    requires Inv(s) && p in s.procs && q in s.procs && s.procs[p].phase.Writing?
    ensures ProcInv(AfterFinish(s, p), AfterFinish(s, p).procs[q])
  {
    assert ProcInv(s, s.procs[p]) && ProcInv(s, s.procs[q]);
    if q != p {
      assert !Holding(s.procs[q].phase);
      if s.procs[q].phase.Waiting? {
        CommitKeepsCache(s.db, AfterFinish(s, p).db, s.procs[q].req, s.procs[q].actor, s.procs[q].phase.cache);
      }
    }
  }

  lemma FinishKeepsInv(s: State, p: Pid)
    requires Inv(s) && p in s.procs
    ensures Inv(AfterFinish(s, p))
  {
    assert ProcInv(s, s.procs[p]);
    if s.procs[p].phase.Writing? {
      FinishKeepsHist(s, p);
      forall q | q in s.procs
        ensures ProcInv(AfterFinish(s, p), AfterFinish(s, p).procs[q])
      {
        CommitKeepsProc(s, p, q);
      }
    } else {
      ReleaseKeepsInv(s, p);
    }
  }

  lemma ReleaseKeepsInv(s: State, p: Pid)
    requires Inv(s) && p in s.procs && !s.procs[p].phase.Writing?
    ensures Inv(AfterFinish(s, p))
  {
    var t := AfterFinish(s, p);
    forall q | q in t.procs
      ensures ProcInv(t, t.procs[q])
    {
      assert ProcInv(s, s.procs[q]);
    }
  }

  lemma AbortKeepsInv(s: State, p: Pid)
    requires Inv(s) && p in s.procs
    ensures Inv(AfterAbort(s, p))
  {
    var t := AfterAbort(s, p);
    assert HistOf(s.hist, p, s.procs[p].phase);
    forall q | q in t.procs
      ensures ProcInv(t, t.procs[q])
    {
      assert ProcInv(s, s.procs[q]);
    }
  }

  lemma LookKeepsInv(s: State, p: Pid)
    requires Inv(s) && p in s.procs
    ensures Inv(AfterLook(s, p))
  {
    var t := AfterLook(s, p);
    assert HistOf(s.hist, p, s.procs[p].phase);
    forall q | q in t.procs
      ensures ProcInv(t, t.procs[q]) && HistOf(t.hist, q, t.procs[q].phase)
    {
      assert ProcInv(s, s.procs[q]) && HistOf(s.hist, q, s.procs[q].phase);
    }
  }

  lemma ExpireKeepsInv(s: State, now: int)
    requires Inv(s) && s.lock == None
    ensures Inv(s.(db := AfterExpire(s.db, now)))
  {
    var t := s.(db := AfterExpire(s.db, now));
    if t != s {
      var txn := Write(t.db.sub, NoPatch, [EnvelopeExpired], None);
      QuietWriteIsSafe(s.db, s.files, s.hist.lastFailed, txn);
      assert Committed(s.db, txn) == t.db;
    }
    forall q | q in t.procs
      ensures ProcInv(t, t.procs[q])
    {
      assert ProcInv(s, s.procs[q]) && !Holding(s.procs[q].phase);
    }
  }

  lemma ArriveKeepsInv(s: State, p: Pid, req: Request, actor: UserId)
    requires Inv(s) && p !in s.procs
    ensures Inv(s.(procs := s.procs[p := Proc(req, actor, Fresh)]))
  {
    var t := s.(procs := s.procs[p := Proc(req, actor, Fresh)]);
    forall q | q in t.procs
      ensures ProcInv(t, t.procs[q]) && HistOf(t.hist, q, t.procs[q].phase)
    {
      assert q in s.procs ==> ProcInv(s, s.procs[q]) && HistOf(s.hist, q, s.procs[q].phase);
    }
  }

  lemma StepKeepsInv(s: State, a: Action)
    requires Inv(s)
    ensures Inv(Step(s, a))
  {
    match a
    case Arrive(p, req, actor) => if p !in s.procs { ArriveKeepsInv(s, p, req, actor); }
    case Load(p) => if p in s.procs { LoadKeepsInv(s, p); }
    case Acquire(p) => if p in s.procs { AcquireKeepsInv(s, p); }
    case Work(p, seen, c) => if p in s.procs { WorkKeepsInv(s, p, seen, c); }
    case Finish(p) => if p in s.procs { FinishKeepsInv(s, p); }
    case Abort(p) => if p in s.procs { AbortKeepsInv(s, p); }
    case Look(p) => if p in s.procs { LookKeepsInv(s, p); }
    case View(row, now) => ViewKeepsInv(s, row, now);
    case Expire(now) => if s.lock == None { ExpireKeepsInv(s, now); }
    case Bookkeep(row, mail) => BookkeepKeepsInv(s, row, mail);
  }

  lemma ViewKeepsInv(s: State, row: nat, now: int)
    requires Inv(s)
    ensures Inv(s.(db := AfterView(s.db, row, now)))
  {
    ViewIsSimilar(s.db, row, now);
    SimilarKeepsInv(s, AfterView(s.db, row, now));
  }

  lemma BookkeepKeepsInv(s: State, row: nat, mail: Mail)
    requires Inv(s)
    ensures Inv(s.(db := AfterBookkeep(s.db, row, mail)))
  {
    SimilarKeepsInv(s, AfterBookkeep(s.db, row, mail));
  }

  lemma InitialInv(s: State)
    requires Initial(s)
    ensures Inv(s)
  {
    assert forall i, u :: SignedBy(i, u) !in s.db.log;
    assert EnvelopeCompleted !in s.db.log;
  }

  lemma {:induction false} RunKeepsInv(s: State, actions: seq<Action>)
    requires Inv(s)
    ensures Inv(Run(s, actions))
    decreases |actions|
  {
    if actions != [] {
      RunKeepsInv(s, actions[..|actions| - 1]);
      StepKeepsInv(Run(s, actions[..|actions| - 1]), actions[|actions| - 1]);
    }
  }
}
