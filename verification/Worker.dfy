/**
 The Worker's envelope: SQLite rows behind one object, every request atomic.  SHA-256 is
 an unknown function of the bytes; a request's `Chance` says whether the stored PDF can
 be read and what stamping gives.
 */
module Worker {
  import opened Basics

  type Bytes = seq<bv8>
  type Hash = string

  datatype Status = Draft | Pending | Completed | Declined | Cancelled | Expired | Deleted

  predicate Terminal(s: Status) { !s.Draft? && !s.Pending? }

  datatype Standing = Waiting | Signed | Refused

  datatype Submitter = Submitter(order: int, isCc: bool, standing: Standing)

  /** Evidence that a submitter accepted the disclosure, with the hash of what was shown. */
  datatype Consent = Consent(submitter: nat, reviewed: Hash)

  /** A signer's line on the certificate page. */
  datatype Line = Line(submitter: nat, reviewed: Option<Hash>)

  datatype Executed = Executed(stamped: Bytes, certificate: seq<Line>, originalHash: Hash, completedHash: Hash)

  /** Only a full timestamp can be compared with the clock. */
  datatype Deadline = Open | Loose(text: string) | Moment(at: int)

  datatype Event =
    | Created | Sent | Reminded | SignedBy(submitter: nat) | DeclinedBy(submitter: nat) | Voided | Lapsed
    | DocumentReplaced | Corrected | CompletionFailed | EnvelopeCompleted(originalHash: Hash, completedHash: Hash)

  datatype Envelope = Envelope(status: Status, original: Option<Bytes>, originalHash: Option<Hash>, pageCount: nat,
                               fieldPages: seq<int>, deadline: Deadline, submitters: seq<Submitter>,
                               consents: seq<Consent>, executed: Option<Executed>, log: seq<Event>)

  datatype Prepared = Prepared(merged: Bytes, pageCount: nat)

  datatype Request =
    | Complete(submitter: nat, consents: bool, fieldsFilled: bool)
    | Decline(submitter: nat)
    | Cancel
    | SendOrRemind
    | RetryCompletion
    | ReplaceDocument(prepared: Option<Prepared>)
    | Correct(settings: bool, deadline: Option<Deadline>)
    | DeleteDraft
    | Sweep(now: int)

  /** None for `stamped`: stamping or storing the result throws. */
  datatype Chance = Chance(readable: bool, attachmentsReadable: bool, stamped: Option<Bytes>)

  const OK := 200
  const CREATED := 201
  const MALFORMED := 400
  const MISSING := 404
  const CONFLICT := 409
  const GONE := 410
  const INVALID := 422
  const THROWN := 500
  const UNAVAILABLE := 503

  // ---- what the statements compute --------------------------------------------

  predicate Turn(submitters: seq<Submitter>, i: nat)
    requires i < |submitters|
  {
    forall j :: 0 <= j < |submitters| && !submitters[j].isCc && submitters[j].order < submitters[i].order ==>
      submitters[j].standing.Signed?
  }

  predicate AllSigned(submitters: seq<Submitter>) {
    forall i :: 0 <= i < |submitters| && !submitters[i].isCc ==> submitters[i].standing.Signed?
  }

  predicate HasSigner(submitters: seq<Submitter>) {
    exists i :: 0 <= i < |submitters| && !submitters[i].isCc
  }

  predicate SomeoneSigned(submitters: seq<Submitter>) {
    exists i :: 0 <= i < |submitters| && submitters[i].standing.Signed?
  }

  function Load(e: Envelope, c: Chance): Option<Bytes> {
    if c.readable then e.original else None
  }

  function LinesOf(consents: seq<Consent>, i: nat): seq<Line> {
    if consents == [] then []
    else
      var front, last := LinesOf(consents[..|consents| - 1], i), consents[|consents| - 1];
      if last.submitter == i then front + [Line(i, Some(last.reviewed))] else front
  }

  /** `submitters LEFT JOIN signer_consents ... WHERE is_cc = 0`. */
  function Certificate(submitters: seq<Submitter>, consents: seq<Consent>): seq<Line> {
    if submitters == [] then []
    else
      var n := |submitters| - 1;
      var front, lines := Certificate(submitters[..n], consents), LinesOf(consents, n);
      if submitters[n].isCc then front else front + (if lines == [] then [Line(n, None)] else lines)
  }

  datatype Finish = Finished | Failed | Threw

  function Finalize(e: Envelope, sha: Bytes -> Hash, c: Chance): (Envelope, Finish) {
    var original := Load(e, c);
    if original.None? || !c.attachmentsReadable then (e.(log := e.log + [CompletionFailed]), Failed)
    else if c.stamped.None? then (e, Threw)
    else
      var hash, stamped := sha(original.value), c.stamped.value;
      (e.(status := Completed, originalHash := Some(hash),
          executed := Some(Executed(stamped, Certificate(e.submitters, e.consents), hash, sha(stamped))),
          log := e.log + [EnvelopeCompleted(hash, sha(stamped))]),
       Finished)
  }

  function FinishCode(f: Finish): int {
    match f case Finished => OK case Failed => UNAVAILABLE case Threw => THROWN
  }

  function WithSignature(e: Envelope, i: nat, reviewed: Hash): Envelope
    requires i < |e.submitters|
  {
    e.(consents := e.consents + [Consent(i, reviewed)],
       submitters := e.submitters[i := e.submitters[i].(standing := Signed)],
       log := e.log + [SignedBy(i)])
  }

  /** The recorded hash of the original or, for want of one, the hash of what the store returns. */
  function ReviewedHash(e: Envelope, sha: Bytes -> Hash, c: Chance): Option<Hash> {
    if e.originalHash.Some? then e.originalHash
    else if Load(e, c).Some? then Some(sha(Load(e, c).value)) else None
  }

  function DecideComplete(e: Envelope, i: nat, consents: bool, filled: bool, sha: Bytes -> Hash, c: Chance)
    : (Envelope, int)
  {
    if i >= |e.submitters| then (e, MISSING)
    else if Terminal(e.status) then (e, GONE)
    else if e.submitters[i].standing.Signed? || !Turn(e.submitters, i) then (e, CONFLICT)
    else if !consents then (e, INVALID)
    else if !filled then (e, MALFORMED)
    else
      match ReviewedHash(e, sha, c)
      case None => (e, CONFLICT)
      case Some(hash) =>
        var signed := WithSignature(e, i, hash);
        if !AllSigned(signed.submitters) then (signed, OK)
        else
          var (done, finish) := Finalize(signed, sha, c);
          (done, FinishCode(finish))
  }

  function DecideDecline(e: Envelope, i: nat): (Envelope, int) {
    if i >= |e.submitters| then (e, MISSING)
    else if Terminal(e.status) || e.submitters[i].standing.Signed? || !Turn(e.submitters, i) then (e, CONFLICT)
    else (e.(submitters := e.submitters[i := e.submitters[i].(standing := Refused)], status := Declined,
             log := e.log + [DeclinedBy(i)]),
          OK)
  }

  function DecideCancel(e: Envelope): (Envelope, int) {
    if Terminal(e.status) then (e, CONFLICT) else (e.(status := Cancelled, log := e.log + [Voided]), OK)
  }

  function DecideSend(e: Envelope): (Envelope, int) {
    match e.status
    case Draft => (e.(status := Pending, log := e.log + [Sent]), OK)
    case Pending => (e.(log := e.log + [Reminded]), OK)
    case _ => (e, CONFLICT)
  }

  function DecideRetry(e: Envelope, sha: Bytes -> Hash, c: Chance): (Envelope, int) {
    if e.status.Completed? then (e, OK)
    else if Terminal(e.status) || !HasSigner(e.submitters) || !AllSigned(e.submitters) then (e, CONFLICT)
    else
      var (done, finish) := Finalize(e, sha, c);
      (done, FinishCode(finish))
  }

  function DecideReplaceDocument(e: Envelope, prepared: Option<Prepared>, sha: Bytes -> Hash): (Envelope, int) {
    if Terminal(e.status) || SomeoneSigned(e.submitters) then (e, CONFLICT)
    else if prepared.None? || exists k :: 0 <= k < |e.fieldPages| && e.fieldPages[k] >= prepared.value.pageCount then
      (e, INVALID)
    else
      var p := prepared.value;
      (e.(original := Some(p.merged), originalHash := Some(sha(p.merged)), pageCount := p.pageCount,
          log := e.log + [DocumentReplaced]),
       OK)
  }

  function DecideCorrect(e: Envelope, settings: bool, deadline: Option<Deadline>): (Envelope, int) {
    if (settings || deadline.Some?) && Terminal(e.status) then (e, CONFLICT)
    else (e.(deadline := if deadline.Some? then deadline.value else e.deadline, log := e.log + [Corrected]), OK)
  }

  function DecideDelete(e: Envelope): (Envelope, int) {
    if !e.status.Draft? then (e, CONFLICT)
    else (e.(status := Deleted, original := None, originalHash := None, submitters := [], fieldPages := [], log := []),
          OK)
  }

  predicate Due(e: Envelope, now: int) {
    e.status.Pending? && e.deadline.Moment? && e.deadline.at < now
  }

  function Swept(e: Envelope, now: int): Envelope {
    if Due(e, now) then e.(status := Expired, log := e.log + [Lapsed]) else e
  }

  /** One request.  On a deleted envelope every route answers that there is none. */
  function Step(e: Envelope, r: Request, sha: Bytes -> Hash, c: Chance): (Envelope, int) {
    if e.status.Deleted? then (e, MISSING)
    else match r
      case Complete(i, consents, filled) => DecideComplete(e, i, consents, filled, sha, c)
      case Decline(i) => DecideDecline(e, i)
      case Cancel => DecideCancel(e)
      case SendOrRemind => DecideSend(e)
      case RetryCompletion => DecideRetry(e, sha, c)
      case ReplaceDocument(prepared) => DecideReplaceDocument(e, prepared, sha)
      case Correct(settings, deadline) => DecideCorrect(e, settings, deadline)
      case DeleteDraft => DecideDelete(e)
      case Sweep(now) => (Swept(e, now), OK)
  }

  // ---- creation ---------------------------------------------------------------

  /** A recipient of a create request, and whether the directory knows them. */
  datatype Recipient = Recipient(order: int, isCc: bool, known: bool)

  /** The rows inserted before the first unknown recipient. */
  function Inserted(recipients: seq<Recipient>): (rows: seq<Submitter>)
    ensures |rows| <= |recipients|
    ensures forall i :: 0 <= i < |rows| ==>
              recipients[i].known && rows[i] == Submitter(recipients[i].order, recipients[i].isCc, Waiting)
    ensures |rows| < |recipients| ==> !recipients[|rows|].known
  {
    if recipients == [] || !recipients[0].known then []
    else [Submitter(recipients[0].order, recipients[0].isCc, Waiting)] + Inserted(recipients[1..])
  }

  /** The create routes.  An unknown recipient is answered with an error, but the rows inserted so far stay. */
  function Create(draft: bool, pdf: Option<Bytes>, pageCount: nat, fieldPages: seq<int>, deadline: Deadline,
                  recipients: seq<Recipient>, sha: Bytes -> Hash): (Option<Envelope>, int)
  {
    if forall i :: 0 <= i < |recipients| ==> recipients[i].isCc then (None, MALFORMED)
    else
      var rows, hash := Inserted(recipients), if pdf.Some? then Some(sha(pdf.value)) else None;
      var status := if draft then Draft else Pending;
      if |rows| < |recipients|
      then (Some(Envelope(status, pdf, hash, pageCount, [], deadline, rows, [], None, [])), MALFORMED)
      else (Some(Envelope(status, pdf, hash, pageCount, fieldPages, deadline, rows, [], None,
                          [if draft then Created else Sent])), CREATED)
  }

  function Unsigned(submitters: seq<Submitter>): seq<Submitter> {
    seq(|submitters|, i requires 0 <= i < |submitters| => submitters[i].(standing := Waiting))
  }

  /** The copy route: a draft with the source's bytes, if they can be read, and no recorded hash. */
  function CopyOf(e: Envelope, c: Chance): Envelope {
    Envelope(Draft, Load(e, c), None, e.pageCount, e.fieldPages, Open, Unsigned(e.submitters), [], None, [Created])
  }

  // ---- the routes -------------------------------------------------------------

  class EnvelopeRows {
    var status: Status
    var original: Option<Bytes>
    var originalHash: Option<Hash>
    var pageCount: nat
    var fieldPages: seq<int>
    var deadline: Deadline
    var submitters: seq<Submitter>
    var consents: seq<Consent>
    var executed: Option<Executed>
    var log: seq<Event>

    function View(): Envelope
      reads this
    {
      Envelope(status, original, originalHash, pageCount, fieldPages, deadline, submitters, consents, executed, log)
    }

    method Audit(e: Event)
      modifies this`log
      ensures log == old(log) + [e]
    {
      log := log + [e];
    }

    /** A failure costs nothing but a log line; a success executes with one certificate line for each signer. */
    method FinalizeEnvelope(sha: Bytes -> Hash, c: Chance) returns (finish: Finish)
      modifies this
      ensures (View(), finish) == Finalize(old(View()), sha, c)
      ensures finish.Finished? <==> c.readable && original.Some? && c.attachmentsReadable && c.stamped.Some?
      ensures !finish.Finished? ==> View().(log := old(log)) == old(View())
      ensures finish.Finished? ==>
                && status.Completed? && c.stamped == Some(executed.value.stamped)
                && executed.value.originalHash == sha(original.value) && original == old(original)
                && executed.value.completedHash == sha(c.stamped.value)
      ensures Sound(old(View()), sha) && Stranded(old(View())) ==>
                && Sound(View(), sha)
                && (finish.Finished? ==>
                      executed.value.certificate == SignerLines(submitters, executed.value.originalHash))
    {
      if Sound(View(), sha) && Stranded(View()) {
        FinalizeIsSound(View(), sha, c);
      }
      if !c.readable || original.None? {
        Audit(CompletionFailed);
        return Failed;
      }
      var bytes := original.value;
      if !c.attachmentsReadable {
        Audit(CompletionFailed);
        return Failed;
      }
      if c.stamped.None? {
        return Threw;
      }
      var hash, stamped := sha(bytes), c.stamped.value;
      status := Completed;
      executed := Some(Executed(stamped, Certificate(submitters, consents), hash, sha(stamped)));
      originalHash := Some(hash);
      Audit(EnvelopeCompleted(hash, sha(stamped)));
      finish := Finished;
    }

    /** A signature is saved exactly on an open envelope, for a submitter who has not signed, with every signer of
        lower order done, consent given, the fields filled and the document's evidence at hand.  The answer tells
        whether it was; its consent is about the document then in store, and what it executes is what stamping
        returned. */
    method CompleteSigning(i: nat, accepted: bool, filled: bool, sha: Bytes -> Hash, c: Chance) returns (code: int)
      modifies this
      ensures (View(), code) == DecideComplete(old(View()), i, accepted, filled, sha, c)
      ensures Sound(old(View()), sha) ==> Sound(View(), sha)
      ensures submitters != old(submitters) <==>
                && i < |old(submitters)| && (old(status).Draft? || old(status).Pending?)
                && !old(submitters)[i].standing.Signed?
                && (forall j :: 0 <= j < |old(submitters)| && !old(submitters)[j].isCc
                                && old(submitters)[j].order < old(submitters)[i].order ==>
                      old(submitters)[j].standing.Signed?)
                && accepted && filled && (old(originalHash).Some? || (c.readable && old(original).Some?))
      ensures submitters != old(submitters) ==>
                && |submitters| == |old(submitters)| && submitters[i].standing.Signed?
                && forall j :: 0 <= j < |submitters| && j != i ==> submitters[j] == old(submitters)[j]
      ensures submitters != old(submitters) ==>
                (status.Completed? <==>
                   && (forall j :: 0 <= j < |submitters| && !submitters[j].isCc ==> submitters[j].standing.Signed?)
                   && c.readable && original.Some? && c.attachmentsReadable && c.stamped.Some?)
      ensures submitters != old(submitters) && status.Completed? ==> c.stamped == Some(executed.value.stamped)
      ensures (old(status).Draft? || old(status).Pending?) && i < |old(submitters)|
              && !old(submitters)[i].standing.Signed? && accepted && filled && old(originalHash).Some? ==>
                (code == CONFLICT <==>
                   exists j :: 0 <= j < |old(submitters)| && !old(submitters)[j].isCc
                               && old(submitters)[j].order < old(submitters)[i].order
                               && !old(submitters)[j].standing.Signed?)
      ensures submitters != old(submitters) <==> code in {OK, UNAVAILABLE, THROWN}
      ensures Sound(old(View()), sha) && submitters != old(submitters) ==>
                && original.Some? && original == old(original)
                && consents == old(consents) + [Consent(i, sha(original.value))]
    {
      if Sound(View(), sha) && !status.Deleted? {
        StepIsSound(View(), Complete(i, accepted, filled), sha, c);
      }
      if i >= |submitters| { return MISSING; }
      if Terminal(status) { return GONE; }
      if submitters[i].standing.Signed? { return CONFLICT; }
      if !Turn(submitters, i) { return CONFLICT; }
      if !accepted { return INVALID; }
      if !filled { return MALFORMED; }
      var reviewed := originalHash;
      if reviewed.None? && c.readable && original.Some? {
        reviewed := Some(sha(original.value));
      }
      if reviewed.None? { return CONFLICT; }
      consents := consents + [Consent(i, reviewed.value)];
      submitters := submitters[i := submitters[i].(standing := Signed)];
      Audit(SignedBy(i));
      if !AllSigned(submitters) { return OK; }
      var finish := FinalizeEnvelope(sha, c);
      code := FinishCode(finish);
    }

    /** A decline goes through exactly on an open envelope, for a submitter who has not signed, with every signer
        of lower order done.  It closes the envelope for good, and never on someone who gave consent. */
    method DeclineSigning(i: nat, ghost sha: Bytes -> Hash) returns (code: int)
      modifies this
      ensures (View(), code) == DecideDecline(old(View()), i)
      ensures Sound(old(View()), sha) ==> Sound(View(), sha)
      ensures code == OK <==>
                && i < |old(submitters)| && (old(status).Draft? || old(status).Pending?)
                && !old(submitters)[i].standing.Signed?
                && forall j :: 0 <= j < |old(submitters)| && !old(submitters)[j].isCc
                               && old(submitters)[j].order < old(submitters)[i].order ==>
                     old(submitters)[j].standing.Signed?
      ensures code == OK ==>
                && |submitters| == |old(submitters)| && submitters[i].standing.Refused?
                && forall j :: 0 <= j < |submitters| && j != i ==> submitters[j] == old(submitters)[j]
      ensures code == OK ==> forall actions :: Run(View(), actions, sha).status.Declined?
      ensures code == OK && Sound(old(View()), sha) ==> Consents(consents, i) == 0
    {
      if Sound(View(), sha) && !status.Deleted? {
        DeclineIsSound(View(), i, sha);
      }
      if i >= |submitters| { return MISSING; }
      if Terminal(status) { return CONFLICT; }
      if submitters[i].standing.Signed? { return CONFLICT; }
      if !Turn(submitters, i) { return CONFLICT; }
      submitters := submitters[i := submitters[i].(standing := Refused)];
      status := Declined;
      Audit(DeclinedBy(i));
      AlwaysClosed(View(), sha);
      code := OK;
    }

    /** Voiding is for good, and never hits an executed envelope. */
    method CancelEnvelope(ghost sha: Bytes -> Hash) returns (code: int)
      modifies this
      ensures (View(), code) == DecideCancel(old(View()))
      ensures Sound(old(View()), sha) ==> Sound(View(), sha)
      ensures code == OK <==> old(status).Draft? || old(status).Pending?
      ensures code == OK ==> forall actions :: Run(View(), actions, sha).status.Cancelled?
      ensures code == OK && Sound(old(View()), sha) ==> executed.None? && Completions(log) == 0
    {
      if Sound(View(), sha) && !status.Deleted? {
        OthersAreSound(View(), Cancel, sha, Chance(false, false, None));
      }
      if Terminal(status) { return CONFLICT; }
      status := Cancelled;
      Audit(Voided);
      AlwaysClosed(View(), sha);
      code := OK;
    }

    /** Exactly an open envelope can be sent or reminded; signatures and evidence stay. */
    method SendEnvelope(ghost sha: Bytes -> Hash) returns (code: int)
      modifies this
      ensures (View(), code) == DecideSend(old(View()))
      ensures Sound(old(View()), sha) ==> Sound(View(), sha)
      ensures code == OK <==> old(status).Draft? || old(status).Pending?
      ensures code == OK ==> status.Pending?
      ensures View().(status := old(status), log := old(log)) == old(View())
    {
      if Sound(View(), sha) && !status.Deleted? {
        OthersAreSound(View(), SendOrRemind, sha, Chance(false, false, None));
      }
      if status.Draft? {
        status := Pending;
        Audit(Sent);
      } else if !status.Pending? {
        return CONFLICT;
      } else {
        Audit(Reminded);
      }
      code := OK;
    }

    /** The answer 200 means executed, by this request or before; anything else leaves the status alone. */
    method Retry(sha: Bytes -> Hash, c: Chance) returns (code: int)
      modifies this
      ensures (View(), code) == DecideRetry(old(View()), sha, c)
      ensures Sound(old(View()), sha) ==> Sound(View(), sha)
      ensures code == OK <==> status.Completed?
      ensures status.Completed? && !old(status).Completed? <==>
                && (old(status).Draft? || old(status).Pending?)
                && (exists i :: 0 <= i < |submitters| && !submitters[i].isCc)
                && (forall i :: 0 <= i < |submitters| && !submitters[i].isCc ==> submitters[i].standing.Signed?)
                && c.readable && original.Some? && c.attachmentsReadable && c.stamped.Some?
      ensures status.Completed? && !old(status).Completed? ==> c.stamped == Some(executed.value.stamped)
      ensures code != OK ==> View().(log := old(log)) == old(View())
    {
      if Sound(View(), sha) && !status.Deleted? {
        StepIsSound(View(), RetryCompletion, sha, c);
      }
      if status.Completed? { return OK; }
      if Terminal(status) { return CONFLICT; }
      if !HasSigner(submitters) || !AllSigned(submitters) { return CONFLICT; }
      var finish := FinalizeEnvelope(sha, c);
      code := FinishCode(finish);
    }

    /** Nobody has consented to another document by then, every field keeps its page, and whoever signs next
        is recorded as having reviewed the new one. */
    method SwapDocument(prepared: Option<Prepared>, sha: Bytes -> Hash) returns (code: int)
      modifies this
      ensures (View(), code) == DecideReplaceDocument(old(View()), prepared, sha)
      ensures Sound(old(View()), sha) ==> Sound(View(), sha)
      ensures code == OK <==>
                && (old(status).Draft? || old(status).Pending?)
                && (forall i :: 0 <= i < |submitters| ==> !submitters[i].standing.Signed?)
                && prepared.Some? && forall k :: 0 <= k < |fieldPages| ==> fieldPages[k] < prepared.value.pageCount
      ensures code == OK ==> original == Some(prepared.value.merged) && submitters == old(submitters)
      ensures code == OK && Sound(old(View()), sha) ==> consents == []
      ensures code == OK ==> forall k :: 0 <= k < |fieldPages| ==> fieldPages[k] < pageCount
      ensures code == OK ==>
                prepared.Some? && forall c :: ReviewedHash(View(), sha, c) == Some(sha(prepared.value.merged))
    {
      if Sound(View(), sha) && !status.Deleted? {
        ReplaceIsSound(View(), prepared, sha);
        if consents != [] {
          ConsentMeansSigned(View(), sha);
        }
      }
      if !status.Draft? && !status.Pending? { return CONFLICT; }
      if SomeoneSigned(submitters) { return CONFLICT; }
      if prepared.None? { return INVALID; }
      var p := prepared.value;
      if exists k :: 0 <= k < |fieldPages| && fieldPages[k] >= p.pageCount { return INVALID; }
      original := Some(p.merged);
      pageCount := p.pageCount;
      originalHash := Some(sha(p.merged));
      Audit(DocumentReplaced);
      code := OK;
    }

    method CorrectEnvelope(settings: bool, newDeadline: Option<Deadline>, ghost sha: Bytes -> Hash)
      returns (code: int)
      modifies this
      ensures (View(), code) == DecideCorrect(old(View()), settings, newDeadline)
      ensures Sound(old(View()), sha) ==> Sound(View(), sha)
      ensures code == OK <==> (!settings && newDeadline.None?) || old(status).Draft? || old(status).Pending?
      ensures deadline == if code == OK && newDeadline.Some? then newDeadline.value else old(deadline)
    {
      if Sound(View(), sha) && !status.Deleted? {
        OthersAreSound(View(), Correct(settings, newDeadline), sha, Chance(false, false, None));
      }
      if (settings || newDeadline.Some?) && Terminal(status) { return CONFLICT; }
      if newDeadline.Some? {
        deadline := newDeadline.value;
      }
      Audit(Corrected);
      code := OK;
    }

    /** A deleted draft is gone for good, and was never executed. */
    method DeleteEnvelope(ghost sha: Bytes -> Hash) returns (code: int)
      modifies this
      ensures (View(), code) == DecideDelete(old(View()))
      ensures Sound(old(View()), sha) ==> Sound(View(), sha)
      ensures code == OK <==> old(status).Draft?
      ensures code == OK ==> forall actions :: Run(View(), actions, sha) == View()
      ensures code == OK && Sound(old(View()), sha) ==> executed.None? && old(Completions(log)) == 0
    {
      if !status.Draft? { return CONFLICT; }
      fieldPages, submitters, log := [], [], [];
      original, originalHash, status := None, None, Deleted;
      AlwaysClosed(View(), sha);
      code := OK;
    }
  }

  /** The sweep selects the envelopes that are due, then moves them one by one. */
  method SweepExpired(table: seq<Envelope>, now: int) returns (swept: seq<Envelope>, moved: nat)
    ensures |swept| == |table|
    ensures forall i :: 0 <= i < |table| ==> swept[i] == Swept(table[i], now)
    ensures forall i :: 0 <= i < |table| ==>
              swept[i] == if table[i].status.Pending? && table[i].deadline.Moment? && table[i].deadline.at < now
                          then table[i].(status := Expired, log := table[i].log + [Lapsed]) else table[i]
    ensures moved == |DueRows(table, now)|
  {
    var due := DueRows(table, now);
    swept := table;
    for k := 0 to |due|
      invariant |swept| == |table|
      invariant forall i :: 0 <= i < |table| ==>
                  swept[i] == if i in due[..k] then Swept(table[i], now) else table[i]
    {
      var i := due[k];
      assert i in due;
      if swept[i].status.Pending? {
        swept := swept[i := swept[i].(status := Expired, log := swept[i].log + [Lapsed])];
      }
      assert due[..k + 1] == due[..k] + [due[k]];
    }
    assert due[..|due|] == due;
    moved := |due|;
  }

  function DueRows(table: seq<Envelope>, now: int): (due: seq<nat>)
    ensures forall i :: i in due <==> 0 <= i < |table| && Due(table[i], now)
    ensures forall j, k :: 0 <= j < k < |due| ==> due[j] < due[k]
  {
    if table == [] then []
    else
      var n := |table| - 1;
      var front := DueRows(table[..n], now);
      assert forall i :: 0 <= i < n ==> table[..n][i] == table[i];
      assert forall j :: 0 <= j < |front| ==> front[j] in front;
      front + (if Due(table[n], now) then [n] else [])
  }

  // ---- the invariant ----------------------------------------------------------

  function Consents(consents: seq<Consent>, i: nat): nat { |LinesOf(consents, i)| }

  function Completions(log: seq<Event>): nat {
    if log == [] then 0
    else Completions(log[..|log| - 1]) + if log[|log| - 1].EnvelopeCompleted? then 1 else 0
  }

  predicate Matched(submitters: seq<Submitter>, consents: seq<Consent>) {
    forall i :: 0 <= i < |submitters| ==> Consents(consents, i) == if submitters[i].standing.Signed? then 1 else 0
  }

  predicate OneConsentEach(e: Envelope) { Matched(e.submitters, e.consents) }

  predicate AllAbout(consents: seq<Consent>, hash: Hash) {
    forall k :: 0 <= k < |consents| ==> consents[k].reviewed == hash
  }

  /** Every consent is a submitter's, and about the current original. */
  predicate Reviewed(e: Envelope, sha: Bytes -> Hash) {
    && (e.originalHash.Some? ==> e.original.Some? && e.originalHash.value == sha(e.original.value))
    && (e.consents != [] ==> e.original.Some? && AllAbout(e.consents, sha(e.original.value)))
    && forall k :: 0 <= k < |e.consents| ==> e.consents[k].submitter < |e.submitters|
  }

  predicate Ordered(submitters: seq<Submitter>) {
    forall i :: 0 <= i < |submitters| && submitters[i].standing.Signed? ==> Turn(submitters, i)
  }

  /** One line for each signer, in order, all with this hash. */
  function SignerLines(submitters: seq<Submitter>, hash: Hash): seq<Line> {
    if submitters == [] then []
    else
      var n := |submitters| - 1;
      SignerLines(submitters[..n], hash) + if submitters[n].isCc then [] else [Line(n, Some(hash))]
  }

  predicate Closed(e: Envelope, sha: Bytes -> Hash) {
    && (e.status.Completed? <==> e.executed.Some?)
    && Completions(e.log) == (if e.status.Completed? then 1 else 0)
    && (e.executed.Some? ==>
          && AllSigned(e.submitters) && e.original.Some? && e.originalHash == Some(sha(e.original.value))
          && e.executed.value.originalHash == sha(e.original.value)
          && e.executed.value.completedHash == sha(e.executed.value.stamped)
          && EnvelopeCompleted(e.executed.value.originalHash, e.executed.value.completedHash) in e.log
          && e.executed.value.certificate == SignerLines(e.submitters, sha(e.original.value)))
  }

  predicate Sound(e: Envelope, sha: Bytes -> Hash) {
    e.status.Deleted? || (
      && OneConsentEach(e) && Reviewed(e, sha) && Ordered(e.submitters) && Closed(e, sha)
      && forall i :: 0 <= i < |e.submitters| && e.submitters[i].standing.Refused? ==> e.status.Declined?)
  }

  /** An envelope nobody has acted on: the hash may be unrecorded, and a template may have no PDF. */
  predicate Fresh(e: Envelope, sha: Bytes -> Hash) {
    && !Terminal(e.status) && e.consents == [] && e.executed.None?
    && (e.originalHash.Some? ==> e.original.Some? && e.originalHash.value == sha(e.original.value))
    && (forall i :: 0 <= i < |e.submitters| ==> e.submitters[i].standing.Waiting?)
    && (e.log == [] || e.log == [Created] || e.log == [Sent])
  }

  /** Whatever is created or copied starts unsigned and without evidence, even when creation is refused halfway;
      creation succeeds exactly with a signer and only known recipients. */
  lemma NewIsFresh(draft: bool, pdf: Option<Bytes>, pageCount: nat, fieldPages: seq<int>, deadline: Deadline,
                   recipients: seq<Recipient>, source: Envelope, c: Chance, sha: Bytes -> Hash)
    ensures var (made, code) := Create(draft, pdf, pageCount, fieldPages, deadline, recipients, sha);
            && (made.Some? <==> exists i :: 0 <= i < |recipients| && !recipients[i].isCc)
            && (made.Some? ==>
                  && Fresh(made.value, sha) && made.value.status == (if draft then Draft else Pending)
                  && made.value.original == pdf && (pdf.Some? ==> made.value.originalHash == Some(sha(pdf.value)))
                  && made.value.pageCount == pageCount && made.value.deadline == deadline)
            && (code == CREATED <==>
                  && (exists i :: 0 <= i < |recipients| && !recipients[i].isCc)
                  && forall i :: 0 <= i < |recipients| ==> recipients[i].known)
            && (code == CREATED ==>
                  && made.value.fieldPages == fieldPages && |made.value.submitters| == |recipients|
                  && forall i :: 0 <= i < |recipients| ==>
                       made.value.submitters[i] == Submitter(recipients[i].order, recipients[i].isCc, Waiting))
    ensures var copy := CopyOf(source, c);
            && Fresh(copy, sha) && copy.status.Draft? && copy.deadline.Open?
            && copy.original == (if c.readable then source.original else None)
            && copy.pageCount == source.pageCount && copy.fieldPages == source.fieldPages
            && |copy.submitters| == |source.submitters|
            && forall i :: 0 <= i < |copy.submitters| ==>
                 copy.submitters[i].order == source.submitters[i].order
                 && copy.submitters[i].isCc == source.submitters[i].isCc
  {
    var rows := Inserted(recipients);
    if |rows| == |recipients| && !(forall i :: 0 <= i < |recipients| ==> recipients[i].isCc) {
      var i :| 0 <= i < |recipients| && !recipients[i].isCc;
      assert !rows[i].isCc;
    }
  }

  lemma FreshIsSound(e: Envelope, sha: Bytes -> Hash)
    requires Fresh(e, sha)
    ensures Sound(e, sha)
  {
    assert Completions(e.log) == 0 by {
      assert e.log != [] ==> e.log[..0] == [];
    }
    assert OneConsentEach(e) && Reviewed(e, sha) && Ordered(e.submitters) && Closed(e, sha);
  }

  lemma CompletionsOneMore(log: seq<Event>, e: Event)
    ensures Completions(log + [e]) == Completions(log) + if e.EnvelopeCompleted? then 1 else 0
  {
    assert (log + [e])[..|log|] == log;
  }

  lemma LinesOneMore(consents: seq<Consent>, c: Consent, i: nat)
    ensures LinesOf(consents + [c], i)
              == LinesOf(consents, i) + if c.submitter == i then [Line(i, Some(c.reviewed))] else []
  {
    assert (consents + [c])[..|consents|] == consents;
  }

  lemma {:induction false} LinesHold(consents: seq<Consent>, i: nat, hash: Hash)
    requires AllAbout(consents, hash)
    ensures forall k :: 0 <= k < |LinesOf(consents, i)| ==> LinesOf(consents, i)[k] == Line(i, Some(hash))
  {
    if consents != [] {
      LinesHold(consents[..|consents| - 1], i, hash);
    }
  }

  /** With one consent for each signer, all about the same hash, the join gives every signer exactly one line. */
  lemma {:induction false} CertificateIsFaithful(submitters: seq<Submitter>, consents: seq<Consent>, hash: Hash)
    requires forall i :: 0 <= i < |submitters| && !submitters[i].isCc ==> Consents(consents, i) == 1
    requires AllAbout(consents, hash)
    ensures Certificate(submitters, consents) == SignerLines(submitters, hash)
  {
    if submitters != [] {
      var n := |submitters| - 1;
      CertificateIsFaithful(submitters[..n], consents, hash);
      LinesHold(consents, n, hash);
      if !submitters[n].isCc {
        assert Consents(consents, n) == 1;
        assert LinesOf(consents, n) == [Line(n, Some(hash))];
      }
    }
  }

  lemma FinalizeIsSound(e: Envelope, sha: Bytes -> Hash, c: Chance)
    requires Sound(e, sha) && !Terminal(e.status) && AllSigned(e.submitters)
    ensures Sound(Finalize(e, sha, c).0, sha)
  {
    if Finalize(e, sha, c).1.Finished? {
      ExecutionIsSound(e, sha, c);
    } else if Finalize(e, sha, c).1.Failed? {
      QuietIsSound(e, Finalize(e, sha, c).0, CompletionFailed, sha);
    }
  }

  lemma ExecutionIsSound(e: Envelope, sha: Bytes -> Hash, c: Chance)
    requires Sound(e, sha) && !Terminal(e.status) && AllSigned(e.submitters) && Finalize(e, sha, c).1.Finished?
    ensures Sound(Finalize(e, sha, c).0, sha)
  {
    var hash := sha(e.original.value);
    CompletionsOneMore(e.log, EnvelopeCompleted(hash, sha(c.stamped.value)));
    CertificateIsFaithful(e.submitters, e.consents, hash);
  }

  lemma SignatureIsSound(e: Envelope, i: nat, sha: Bytes -> Hash, c: Chance)
    requires Sound(e, sha) && !Terminal(e.status) && i < |e.submitters|
    requires !e.submitters[i].standing.Signed? && Turn(e.submitters, i)
    requires ReviewedHash(e, sha, c).Some?
    ensures Sound(WithSignature(e, i, ReviewedHash(e, sha, c).value), sha)
  {
    var hash := ReviewedHash(e, sha, c).value;
    CompletionsOneMore(e.log, SignedBy(i));
    SignatureKeepsOrder(e.submitters, i);
    SignatureAddsConsent(e, i, hash);
    SignatureIsReviewed(e, i, sha, c);
    assert Closed(WithSignature(e, i, hash), sha);
  }

  lemma SignatureIsReviewed(e: Envelope, i: nat, sha: Bytes -> Hash, c: Chance)
    requires Reviewed(e, sha) && i < |e.submitters| && ReviewedHash(e, sha, c).Some?
    ensures Reviewed(WithSignature(e, i, ReviewedHash(e, sha, c).value), sha)
  {
  }

  lemma SignatureKeepsOrder(submitters: seq<Submitter>, i: nat)
    requires Ordered(submitters) && i < |submitters| && Turn(submitters, i)
    ensures Ordered(submitters[i := submitters[i].(standing := Signed)])
  {
    var signed := submitters[i := submitters[i].(standing := Signed)];
    forall j | 0 <= j < |signed| && signed[j].standing.Signed?
      ensures Turn(signed, j)
    {
      assert Turn(submitters, j);
    }
  }

  lemma SignatureAddsConsent(e: Envelope, i: nat, hash: Hash)
    requires OneConsentEach(e) && i < |e.submitters| && !e.submitters[i].standing.Signed?
    ensures OneConsentEach(WithSignature(e, i, hash))
  {
    var signed := WithSignature(e, i, hash);
    forall j | 0 <= j < |signed.submitters|
      ensures Consents(signed.consents, j) == if signed.submitters[j].standing.Signed? then 1 else 0
    {
      LinesOneMore(e.consents, Consent(i, hash), j);
    }
  }

  lemma StepIsSound(e: Envelope, r: Request, sha: Bytes -> Hash, c: Chance)
    requires Sound(e, sha)
    ensures Sound(Step(e, r, sha, c).0, sha)
  {
    if !e.status.Deleted? {
      match r
      case Complete(i, consents, filled) => CompleteIsSound(e, i, consents, filled, sha, c);
      case RetryCompletion =>
        if !Terminal(e.status) && AllSigned(e.submitters) {
          FinalizeIsSound(e, sha, c);
        }
      case Decline(i) => DeclineIsSound(e, i, sha);
      case ReplaceDocument(prepared) => ReplaceIsSound(e, prepared, sha);
      case DeleteDraft =>
      case _ => OthersAreSound(e, r, sha, c);
    }
  }

  /** A step that only writes a log line, a deadline or one of the statuses without a record. */
  lemma QuietIsSound(e: Envelope, next: Envelope, event: Event, sha: Bytes -> Hash)
    requires Sound(e, sha) && !e.status.Deleted? && !event.EnvelopeCompleted?
    requires next == e.(status := next.status, deadline := next.deadline, log := e.log + [event])
    requires next.status == e.status
             || (!Terminal(e.status) && (next.status.Cancelled? || next.status.Expired? || next.status.Pending?))
    ensures Sound(next, sha)
  {
    assert OneConsentEach(next) && Reviewed(next, sha) && Ordered(next.submitters);
    QuietIsClosed(e, next, event, sha);
  }

  lemma QuietIsClosed(e: Envelope, next: Envelope, event: Event, sha: Bytes -> Hash)
    requires Closed(e, sha) && !event.EnvelopeCompleted? && next.log == e.log + [event]
    requires next.executed == e.executed && next.submitters == e.submitters && next.original == e.original
    requires next.originalHash == e.originalHash && next.status.Completed? == e.status.Completed?
    ensures Closed(next, sha)
  {
    CompletionsOneMore(e.log, event);
  }

  lemma OthersAreSound(e: Envelope, r: Request, sha: Bytes -> Hash, c: Chance)
    requires Sound(e, sha) && !e.status.Deleted? && (r.Cancel? || r.SendOrRemind? || r.Correct? || r.Sweep?)
    ensures Sound(Step(e, r, sha, c).0, sha)
  {
    var next := Step(e, r, sha, c).0;
    if next != e {
      var event := next.log[|e.log|];
      assert next.log == e.log + [event];
      QuietIsSound(e, next, event, sha);
    }
  }

  lemma CompleteIsSound(e: Envelope, i: nat, consents: bool, filled: bool, sha: Bytes -> Hash, c: Chance)
    requires Sound(e, sha) && !e.status.Deleted?
    ensures Sound(DecideComplete(e, i, consents, filled, sha, c).0, sha)
  {
    if i < |e.submitters| && !Terminal(e.status) && !e.submitters[i].standing.Signed? && Turn(e.submitters, i)
       && ReviewedHash(e, sha, c).Some? {
      SignatureIsSound(e, i, sha, c);
      var signed := WithSignature(e, i, ReviewedHash(e, sha, c).value);
      if AllSigned(signed.submitters) {
        FinalizeIsSound(signed, sha, c);
      }
    }
  }

  lemma DeclineIsSound(e: Envelope, i: nat, sha: Bytes -> Hash)
    requires Sound(e, sha) && !e.status.Deleted?
    ensures Sound(DecideDecline(e, i).0, sha)
  {
    var (next, code) := DecideDecline(e, i);
    if code == OK {
      CompletionsOneMore(e.log, DeclinedBy(i));
      RefusalKeepsEvidence(e.submitters, e.consents, i);
      assert OneConsentEach(next) && Reviewed(next, sha) && Ordered(next.submitters);
      assert Closed(next, sha);
    }
  }

  lemma RefusalKeepsEvidence(submitters: seq<Submitter>, consents: seq<Consent>, i: nat)
    requires i < |submitters| && !submitters[i].standing.Signed? && Ordered(submitters)
    requires Matched(submitters, consents)
    ensures var refused := submitters[i := submitters[i].(standing := Refused)];
            Ordered(refused) && Matched(refused, consents)
  {
    var refused := submitters[i := submitters[i].(standing := Refused)];
    forall j | 0 <= j < |refused| && refused[j].standing.Signed?
      ensures Turn(refused, j)
    {
      assert Turn(submitters, j);
    }
  }

  lemma ConsentMeansSigned(e: Envelope, sha: Bytes -> Hash)
    requires OneConsentEach(e) && Reviewed(e, sha) && e.consents != []
    ensures SomeoneSigned(e.submitters)
  {
    var last := e.consents[|e.consents| - 1];
    assert Consents(e.consents, last.submitter) > 0;
    assert e.submitters[last.submitter].standing.Signed?;
  }

  /** Before anyone signed there is no consent that a new document could contradict. */
  lemma ReplaceIsSound(e: Envelope, prepared: Option<Prepared>, sha: Bytes -> Hash)
    requires Sound(e, sha) && !e.status.Deleted?
    ensures Sound(DecideReplaceDocument(e, prepared, sha).0, sha)
  {
    CompletionsOneMore(e.log, DocumentReplaced);
    if e.consents != [] {
      ConsentMeansSigned(e, sha);
    }
  }

  // ---- every run --------------------------------------------------------------

  datatype Action = Action(request: Request, chance: Chance)

  function Run(e: Envelope, actions: seq<Action>, sha: Bytes -> Hash): Envelope {
    if actions == [] then e
    else
      var n := |actions| - 1;
      Step(Run(e, actions[..n], sha), actions[n].request, sha, actions[n].chance).0
  }

  lemma {:induction false} RunIsSound(e: Envelope, actions: seq<Action>, sha: Bytes -> Hash)
    requires Sound(e, sha)
    ensures Sound(Run(e, actions, sha), sha)
  {
    if actions != [] {
      var n := |actions| - 1;
      RunIsSound(e, actions[..n], sha);
      StepIsSound(Run(e, actions[..n], sha), actions[n].request, sha, actions[n].chance);
    }
  }

  /** The chain of evidence.  On every envelope a run can reach: who signed has exactly one consent and nobody
      else has any; every consent carries the hash of the present original; and once completed, that hash is
      the recorded original hash, the one in the single completion event and the one on each signer's line. */
  lemma EvidenceChain(e: Envelope, actions: seq<Action>, sha: Bytes -> Hash)
    requires Fresh(e, sha)
    ensures var now := Run(e, actions, sha);
            !now.status.Deleted? ==>
              && OneConsentEach(now)
              && (now.consents != [] ==> now.original.Some? && AllAbout(now.consents, sha(now.original.value)))
              && (now.status.Completed? ==>
                    && now.executed.Some? && Completions(now.log) == 1
                    && (forall i :: 0 <= i < |now.submitters| && !now.submitters[i].isCc ==>
                          now.submitters[i].standing.Signed?)
                    && now.executed.value.completedHash == sha(now.executed.value.stamped)
                    && EnvelopeCompleted(now.executed.value.originalHash, now.executed.value.completedHash) in now.log
                    && AllAbout(now.consents, now.executed.value.originalHash)
                    && now.originalHash == Some(now.executed.value.originalHash)
                    && now.executed.value.certificate
                         == SignerLines(now.submitters, now.executed.value.originalHash))
              && (!now.status.Completed? ==> Completions(now.log) == 0 && now.executed.None?)
  {
    FreshIsSound(e, sha);
    RunIsSound(e, actions, sha);
    var now := Run(e, actions, sha);
    assert !now.status.Deleted? ==> Reviewed(now, sha) && Closed(now, sha);
  }

  /** Signing order over runs: whoever has signed, every signer of lower order has signed. */
  lemma SigningOrderHolds(e: Envelope, actions: seq<Action>, sha: Bytes -> Hash, i: nat, j: nat)
    requires Fresh(e, sha)
    ensures var now := Run(e, actions, sha).submitters;
            (&& !Run(e, actions, sha).status.Deleted? && i < |now| && j < |now| && now[i].standing.Signed?
             && !now[j].isCc && now[j].order < now[i].order) ==> now[j].standing.Signed?
  {
    FreshIsSound(e, sha);
    RunIsSound(e, actions, sha);
    var now := Run(e, actions, sha).submitters;
    assert !Run(e, actions, sha).status.Deleted? && i < |now| && now[i].standing.Signed? ==> Turn(now, i);
  }

  /** And it never locks everybody out: on an open envelope of any run with an unsigned signer, some unsigned
      signer's request, with consent, filled fields and a readable document, saves the signature. */
  lemma SomeoneMaySign(e: Envelope, actions: seq<Action>, sha: Bytes -> Hash, c: Chance) returns (i: nat)
    requires Fresh(e, sha) && c.readable
    requires var now := Run(e, actions, sha);
             && (now.status.Draft? || now.status.Pending?) && now.original.Some?
             && exists j :: 0 <= j < |now.submitters| && !now.submitters[j].isCc && !now.submitters[j].standing.Signed?
    ensures var now := Run(e, actions, sha);
            && i < |now.submitters| && !now.submitters[i].isCc && !now.submitters[i].standing.Signed?
            && var next := Step(now, Complete(i, true, true), sha, c).0;
               i < |next.submitters| && next.submitters[i].standing.Signed?
  {
    var rows := Run(e, actions, sha).submitters;
    i :| i < |rows| && !rows[i].isCc && !rows[i].standing.Signed?;
    i := FirstUnsigned(rows, i);
  }

  /** From an unsigned signer down to one with no unsigned signer of lower order. */
  lemma {:induction false} FirstUnsigned(rows: seq<Submitter>, from: nat) returns (i: nat)
    requires from < |rows| && !rows[from].isCc && !rows[from].standing.Signed?
    ensures i < |rows| && !rows[i].isCc && !rows[i].standing.Signed? && Turn(rows, i)
    decreases Lower(rows, rows[from].order)
  {
    i := from;
    if !Turn(rows, from) {
      var j :| 0 <= j < |rows| && !rows[j].isCc && rows[j].order < rows[from].order && !rows[j].standing.Signed?;
      FewerLower(rows, rows[j].order, rows[from].order, j);
      i := FirstUnsigned(rows, j);
    }
  }

  /** How many rows have a lower order. */
  function Lower(rows: seq<Submitter>, order: int): nat {
    if rows == [] then 0
    else Lower(rows[..|rows| - 1], order) + if rows[|rows| - 1].order < order then 1 else 0
  }

  lemma {:induction false} FewerLower(rows: seq<Submitter>, a: int, b: int, k: nat)
    requires a < b
    ensures Lower(rows, a) <= Lower(rows, b)
    ensures k < |rows| && a <= rows[k].order < b ==> Lower(rows, a) < Lower(rows, b)
  {
    if rows != [] {
      FewerLower(rows[..|rows| - 1], a, b, k);
    }
  }

  /** The executed document of every run is what stamping returned to the one request that completed the
      envelope, stamped on the original as it still is. */
  lemma {:induction false} ExecutedWasStamped(e: Envelope, actions: seq<Action>, sha: Bytes -> Hash) returns (k: nat)
    requires Fresh(e, sha) && Run(e, actions, sha).status.Completed?
    ensures var now := Run(e, actions, sha);
            && k < |actions| && now.executed.Some?
            && (actions[k].request.Complete? || actions[k].request.RetryCompletion?)
            && !Run(e, actions[..k], sha).status.Completed? && Run(e, actions[..k + 1], sha).status.Completed?
            && actions[k].chance.stamped == Some(now.executed.value.stamped)
            && Run(e, actions[..k], sha).original == now.original
  {
    var n := |actions| - 1;
    var before := Run(e, actions[..n], sha);
    assert actions[..n + 1] == actions;
    if before.status.Completed? {
      k := ExecutedWasStamped(e, actions[..n], sha);
      assert actions[..n][..k] == actions[..k] && actions[..n][..k + 1] == actions[..k + 1];
      CompletedStays(before, actions[n].request, sha, actions[n].chance);
    } else {
      k := n;
      CompletionStamps(before, actions[n].request, sha, actions[n].chance);
    }
  }

  lemma CompletedStays(e: Envelope, r: Request, sha: Bytes -> Hash, c: Chance)
    requires e.status.Completed?
    ensures Step(e, r, sha, c).0.executed == e.executed && Step(e, r, sha, c).0.original == e.original
  {
  }

  lemma CompletionStamps(e: Envelope, r: Request, sha: Bytes -> Hash, c: Chance)
    requires !e.status.Completed? && Step(e, r, sha, c).0.status.Completed?
    ensures var next := Step(e, r, sha, c).0;
            && (r.Complete? || r.RetryCompletion?) && next.original == e.original
            && next.executed.Some? && c.stamped == Some(next.executed.value.stamped)
  {
  }

  /** A closed envelope stays exactly as it is, but for the log lines of corrections to its words. */
  lemma {:induction false} ClosedForGood(e: Envelope, actions: seq<Action>, sha: Bytes -> Hash)
    requires !e.status.Draft? && !e.status.Pending?
    ensures var now := Run(e, actions, sha);
            && now.(log := e.log) == e
            && |e.log| <= |now.log| && now.log[..|e.log|] == e.log
            && forall k :: |e.log| <= k < |now.log| ==> now.log[k].Corrected?
  {
    if actions != [] {
      ClosedForGood(e, actions[..|actions| - 1], sha);
    }
  }

  lemma AlwaysClosed(e: Envelope, sha: Bytes -> Hash)
    requires Terminal(e.status)
    ensures forall actions :: Run(e, actions, sha).status == e.status
    ensures e.status.Deleted? ==> forall actions :: Run(e, actions, sha) == e
  {
    forall actions
      ensures Run(e, actions, sha).status == e.status
      ensures e.status.Deleted? ==> Run(e, actions, sha) == e
    {
      ClosedForGood(e, actions, sha);
      if e.status.Deleted? {
        DeletedStays(e, actions, sha);
      }
    }
  }

  lemma {:induction false} DeletedStays(e: Envelope, actions: seq<Action>, sha: Bytes -> Hash)
    requires e.status.Deleted?
    ensures Run(e, actions, sha) == e
  {
    if actions != [] {
      DeletedStays(e, actions[..|actions| - 1], sha);
    }
  }

  predicate KeepsSignature(e: Envelope, next: Envelope, i: nat)
    requires i < |e.submitters|
  {
    next.status.Deleted? ||
    (&& next.original == e.original
     && |next.submitters| == |e.submitters| && next.submitters[i] == e.submitters[i])
  }

  lemma StepKeepsSignature(e: Envelope, r: Request, sha: Bytes -> Hash, c: Chance, i: nat)
    requires i < |e.submitters| && e.submitters[i].standing.Signed?
    ensures KeepsSignature(e, Step(e, r, sha, c).0, i)
  {
  }

  /** Once anybody has signed, the document cannot change any more, only go with a deleted draft; and what was
      signed stays signed. */
  lemma {:induction false} SignedDocumentIsFrozen(e: Envelope, actions: seq<Action>, sha: Bytes -> Hash, i: nat)
    requires i < |e.submitters| && e.submitters[i].standing.Signed?
    ensures KeepsSignature(e, Run(e, actions, sha), i)
  {
    if actions != [] {
      var n := |actions| - 1;
      SignedDocumentIsFrozen(e, actions[..n], sha, i);
      var before := Run(e, actions[..n], sha);
      if !before.status.Deleted? {
        StepKeepsSignature(before, actions[n].request, sha, actions[n].chance, i);
      }
    }
  }

  /** An open envelope that everybody has signed. */
  predicate Stranded(e: Envelope) { !Terminal(e.status) && AllSigned(e.submitters) }

  /** Signatures strand an envelope only when the request that leaves it so reports a failure. */
  lemma StrandingIsReported(e: Envelope, r: Request, sha: Bytes -> Hash, c: Chance)
    requires !Stranded(e) && Stranded(Step(e, r, sha, c).0)
    ensures Failing(e, Action(r, c), sha)
  {
  }

  predicate Failing(e: Envelope, action: Action, sha: Bytes -> Hash) {
    action.request.Complete? && Step(e, action.request, sha, action.chance).1 in {UNAVAILABLE, THROWN}
  }

  /** So an envelope found stranded has been so, without a break, since a last signature whose answer was a
      failure. */
  lemma {:induction false} StrandedSinceFailure(e: Envelope, actions: seq<Action>, sha: Bytes -> Hash) returns (k: nat)
    requires !Stranded(e) && Stranded(Run(e, actions, sha))
    ensures k < |actions| && Failing(Run(e, actions[..k], sha), actions[k], sha)
    ensures forall j :: k < j <= |actions| ==> Stranded(Run(e, actions[..j], sha))
  {
    var n := |actions| - 1;
    var before := Run(e, actions[..n], sha);
    assert actions[..n + 1] == actions;
    if Stranded(before) {
      k := StrandedSinceFailure(e, actions[..n], sha);
      assert actions[..n][..k] == actions[..k];
      StrandedOneMore(e, actions, actions[..n], sha, k);
    } else {
      k := n;
      StrandingIsReported(before, actions[n].request, sha, actions[n].chance);
    }
  }

  lemma StrandedOneMore(e: Envelope, actions: seq<Action>, front: seq<Action>, sha: Bytes -> Hash, k: nat)
    requires actions != [] && front == actions[..|actions| - 1] && Stranded(Run(e, actions, sha))
    requires forall j :: k < j <= |front| ==> Stranded(Run(e, front[..j], sha))
    ensures forall j :: k < j <= |actions| ==> Stranded(Run(e, actions[..j], sha))
  {
    forall j | k < j <= |actions|
      ensures Stranded(Run(e, actions[..j], sha))
    {
      if j <= |front| {
        assert front[..j] == actions[..j];
      } else {
        assert actions[..j] == actions;
      }
    }
  }

  /** Recipients stay recipients and signers signers. */
  predicate SameSeats(a: seq<Submitter>, b: seq<Submitter>) {
    |a| == |b| && forall i :: 0 <= i < |a| ==> a[i].isCc == b[i].isCc
  }

  lemma {:induction false} SeatsStay(e: Envelope, actions: seq<Action>, sha: Bytes -> Hash)
    ensures Run(e, actions, sha).status.Deleted? || SameSeats(e.submitters, Run(e, actions, sha).submitters)
  {
    if actions != [] {
      var n := |actions| - 1;
      SeatsStay(e, actions[..n], sha);
      StepKeepsSeats(Run(e, actions[..n], sha), actions[n].request, sha, actions[n].chance);
    }
  }

  lemma StepKeepsSeats(e: Envelope, r: Request, sha: Bytes -> Hash, c: Chance)
    ensures Step(e, r, sha, c).0.status.Deleted? || SameSeats(e.submitters, Step(e, r, sha, c).0.submitters)
  {
  }

  lemma SeatsKeepSigner(a: seq<Submitter>, b: seq<Submitter>)
    requires SameSeats(a, b)
    ensures HasSigner(a) <==> HasSigner(b)
  {
    if HasSigner(a) {
      var i :| 0 <= i < |a| && !a[i].isCc;
      assert !b[i].isCc;
    }
  }

  /** Recovery over runs: wherever an envelope is found stranded, a retry completes it exactly when it was
      created with a signer and its files can be read and stamped, and the completed envelope then has its whole
      chain of evidence.  Without a signer no retry ever does. */
  lemma RetryFinishesIff(e: Envelope, actions: seq<Action>, sha: Bytes -> Hash, c: Chance)
    requires Fresh(e, sha) && Stranded(Run(e, actions, sha))
    ensures var now := Run(e, actions + [Action(RetryCompletion, c)], sha);
            && (now.status.Completed? <==>
                  HasSigner(e.submitters) && c.readable && c.attachmentsReadable && c.stamped.Some?)
            && (now.status.Completed? ==>
                  && AllSigned(now.submitters) && Completions(now.log) == 1 && now.original.Some?
                  && now.executed.value.certificate == SignerLines(now.submitters, sha(now.original.value))
                  && AllAbout(now.consents, sha(now.original.value)))
  {
    var before := Run(e, actions, sha);
    var all := actions + [Action(RetryCompletion, c)];
    assert all[..|actions|] == actions;
    FreshIsSound(e, sha);
    RunIsSound(e, actions, sha);
    SeatsStay(e, actions, sha);
    SeatsKeepSigner(e.submitters, before.submitters);
    if HasSigner(before.submitters) {
      SignerMeansOriginal(before, sha);
    }
    RunIsSound(e, all, sha);
    EvidenceChain(e, all, sha);
  }

  lemma SignerMeansOriginal(e: Envelope, sha: Bytes -> Hash)
    requires OneConsentEach(e) && Reviewed(e, sha) && AllSigned(e.submitters) && HasSigner(e.submitters)
    ensures e.original.Some?
  {
    var i :| 0 <= i < |e.submitters| && !e.submitters[i].isCc;
    assert Consents(e.consents, i) == 1;
  }

  // ---- execution without a signer ---------------------------------------------

  predicate SignedBySigner(submitters: seq<Submitter>) {
    exists i :: 0 <= i < |submitters| && !submitters[i].isCc && submitters[i].standing.Signed?
  }

  /** This run executes the envelope although nobody asked to sign has signed. */
  predicate ExecutesUnsigned(e: Envelope, actions: seq<Action>, sha: Bytes -> Hash) {
    var now := Run(e, actions, sha);
    now.status.Completed? && !SignedBySigner(now.submitters)
  }

  /** A page count that leaves every field its page. */
  function Enough(pages: seq<int>): (count: nat)
    ensures count > 0
    ensures forall k :: 0 <= k < |pages| ==> pages[k] < count
  {
    if pages == [] then 1
    else
      var n := |pages| - 1;
      var count := Enough(pages[..n]);
      assert forall k :: 0 <= k < n ==> pages[..n][k] == pages[k];
      if pages[n] < count then count else pages[n] + 1
  }

  lemma SignerMustSign(e: Envelope, actions: seq<Action>, sha: Bytes -> Hash)
    requires Fresh(e, sha) && HasSigner(e.submitters)
    ensures !ExecutesUnsigned(e, actions, sha)
  {
    var now := Run(e, actions, sha);
    FreshIsSound(e, sha);
    RunIsSound(e, actions, sha);
    SeatsStay(e, actions, sha);
    if now.status.Completed? {
      SeatsKeepSigner(e.submitters, now.submitters);
      var i :| 0 <= i < |now.submitters| && !now.submitters[i].isCc;
      assert AllSigned(now.submitters);
    }
  }

  /** Two requests are enough: a document, and the first copy recipient's signature. */
  lemma CopyExecutes(e: Envelope, sha: Bytes -> Hash) returns (actions: seq<Action>)
    requires Fresh(e, sha) && !HasSigner(e.submitters) && e.submitters != []
    ensures ExecutesUnsigned(e, actions, sha)
  {
    var c := Chance(true, true, Some([]));
    var document := Action(ReplaceDocument(Some(Prepared([], Enough(e.fieldPages)))), c);
    var signature := Action(Complete(0, true, true), c);
    actions := [document, signature];
    assert actions[..1] == [document] && [document][..0] == [] && Run(e, [], sha) == e;
    var replaced := Step(e, document.request, sha, c).0;
    assert Run(e, [document], sha) == replaced && replaced.submitters == e.submitters && replaced.original == Some([]);
    var signed := WithSignature(replaced, 0, sha([]));
    assert AllSigned(signed.submitters) && Turn(e.submitters, 0);
    var now := Step(replaced, signature.request, sha, c).0;
    assert now == Finalize(signed, sha, c).0;
    assert forall i :: 0 <= i < |now.submitters| ==> now.submitters[i].isCc;
  }

  /** An envelope can be executed without the signature of a signer exactly when it has recipients and none of
      them is a signer. */
  lemma ExecutesUnsignedIff(e: Envelope, sha: Bytes -> Hash)
    requires Fresh(e, sha)
    ensures (exists actions :: ExecutesUnsigned(e, actions, sha)) <==> !HasSigner(e.submitters) && e.submitters != []
  {
    if HasSigner(e.submitters) {
      forall actions
        ensures !ExecutesUnsigned(e, actions, sha)
      {
        SignerMustSign(e, actions, sha);
      }
    } else if e.submitters != [] {
      var actions := CopyExecutes(e, sha);
    } else {
      forall actions
        ensures !ExecutesUnsigned(e, actions, sha)
      {
        NobodyExecutes(e, actions, sha);
      }
    }
  }

  lemma {:induction false} NobodyExecutes(e: Envelope, actions: seq<Action>, sha: Bytes -> Hash)
    requires e.submitters == [] && !e.status.Completed?
    ensures Run(e, actions, sha).submitters == [] && !Run(e, actions, sha).status.Completed?
  {
    if actions != [] {
      NobodyExecutes(e, actions[..|actions| - 1], sha);
    }
  }

  /** In terms of the create request, for every request the routes do not refuse outright: this happens exactly
      when the directory knows the first recipient and only copies come before the first unknown one. */
  lemma CreationExecutesUnsignedIff(draft: bool, pdf: Option<Bytes>, pageCount: nat, fieldPages: seq<int>,
                                    deadline: Deadline, recipients: seq<Recipient>, sha: Bytes -> Hash)
    requires exists i :: 0 <= i < |recipients| && !recipients[i].isCc
    ensures var made := Create(draft, pdf, pageCount, fieldPages, deadline, recipients, sha).0;
            && made.Some?
            && ((exists actions :: ExecutesUnsigned(made.value, actions, sha)) <==>
                  recipients[0].known && !KnownSigner(recipients))
            && (HasSigner(Inserted(recipients)) <==> KnownSigner(recipients))
  {
    var made := Create(draft, pdf, pageCount, fieldPages, deadline, recipients, sha).0.value;
    NewIsFresh(draft, pdf, pageCount, fieldPages, deadline, recipients, made, Chance(true, true, None), sha);
    assert Fresh(made, sha);
    ExecutesUnsignedIff(made, sha);
    KnownSignerIsInserted(recipients);
  }

  /** A signer with no unknown recipient up to and including them. */
  predicate KnownSigner(recipients: seq<Recipient>) {
    exists i :: 0 <= i < |recipients| && !recipients[i].isCc && KnownUpTo(recipients, i)
  }

  predicate KnownUpTo(recipients: seq<Recipient>, i: nat)
    requires i < |recipients|
  {
    forall j :: 0 <= j <= i ==> recipients[j].known
  }

  lemma KnownSignerIsInserted(recipients: seq<Recipient>)
    ensures HasSigner(Inserted(recipients)) <==> KnownSigner(recipients)
  {
    var rows := Inserted(recipients);
    if HasSigner(rows) {
      var i :| 0 <= i < |rows| && !rows[i].isCc;
      assert KnownUpTo(recipients, i);
    }
    if KnownSigner(recipients) {
      var i :| 0 <= i < |recipients| && !recipients[i].isCc && KnownUpTo(recipients, i);
      assert |rows| < |recipients| ==> !recipients[|rows|].known;
      assert i < |rows| && !rows[i].isCc;
    }
  }

  /** A creation that stops at an unknown recipient is answered with an error and leaves its rows.  If those are
      copies only, no retry can finish the envelope, but the first copy recipient to sign executes an agreement
      that nobody was asked to sign. */
  lemma CopyRecipientExecutes(sha: Bytes -> Hash, pdf: Bytes, stamped: Bytes)
    ensures var recipients := [Recipient(1, true, true), Recipient(1, false, false)];
            var (made, code) := Create(false, Some(pdf), 1, [], Open, recipients, sha);
            var c := Chance(true, true, Some(stamped));
            && code == MALFORMED && made.Some?
            && Step(made.value, RetryCompletion, sha, c).1 == CONFLICT
            && Run(made.value, [Action(Complete(0, true, true), c)], sha).status.Completed?
  {
    var recipients := [Recipient(1, true, true), Recipient(1, false, false)];
    var rows := Inserted(recipients);
    assert !recipients[1].isCc && recipients[0].known && !recipients[1].known;
    assert recipients[1..][0] == recipients[1] && Inserted(recipients[1..]) == [];
    assert rows == [Submitter(1, true, Waiting)];
    var c := Chance(true, true, Some(stamped));
    var action := Action(Complete(0, true, true), c);
    var e := Create(false, Some(pdf), 1, [], Open, recipients, sha).0.value;
    assert [action][..0] == [] && Run(e, [], sha) == e;
  }
}
