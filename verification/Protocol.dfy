/**
 Any number of requests racing on one envelope.  Each request reads without a lock,
 waits for the row lock, decides on the rows as the lock made them current, and then
 commits or rolls back; after its commit it looks at the status once more to decide
 about the completion mail.  `Step` is total: an action that is not enabled changes
 nothing, so every sequence of actions is a run.

 Three writers take no lock (the first view of a signer, the expiry sweep and the mail
 bookkeeping); each is one atomic step here, and the expiry sweep waits for the lock.
 */
module Protocol {
  import opened Basics
  import opened Envelope
  import opened Transactions

  type Pid = nat

  datatype Phase =
    | Fresh
    | Waiting(cache: seq<Row>)
    | Locked(cache: seq<Row>)
    | Writing(txn: Txn)
    | Refused
    | Posted(outcome: Option<Outcome>)
    | Done

  datatype Proc = Proc(req: Request, actor: UserId, phase: Phase)

  /** What happened so far: which requests were told FINALIZED, whose stamp failed, who completed the
      envelope, who passed the mail test, and whether the latest committed attempt failed to stamp. */
  datatype History = History(finalized: set<Pid>, failed: set<Pid>, winner: Option<Pid>, mailed: set<Pid>,
                             lastFailed: bool)

  /** `files` is document storage, which is not transactional: it keeps what a rolled-back request wrote. */
  datatype State = State(db: Db, files: map<TemplateId, Content>, lock: Option<Pid>,
                         procs: map<Pid, Proc>, hist: History)

  datatype Action =
    | Arrive(pid: Pid, req: Request, actor: UserId)
    | Load(pid: Pid)
    | Acquire(pid: Pid)
    | Work(pid: Pid, seen: seq<Row>, chance: Chance)
    | Finish(pid: Pid)
    | Abort(pid: Pid)
    | Look(pid: Pid)
    | View(row: nat, now: int)
    | Expire(now: int)
    | Bookkeep(row: nat, mail: Mail)

  function At(s: State, p: Pid, phase: Phase): State
    requires p in s.procs
  {
    s.(procs := s.procs[p := s.procs[p].(phase := phase)])
  }

  predicate Holding(phase: Phase) {
    phase.Locked? || phase.Writing? || phase.Refused?
  }

  /** Each peer in the turn check is the row read before the lock or the row of now: re-reading the
      submission drops the cached list of peers, but not peers still held in memory. */
  predicate Sees(seen: seq<Row>, cache: seq<Row>, rows: seq<Row>) {
    |seen| == |cache| == |rows|
    && forall j :: 0 <= j < |seen| ==> seen[j] == cache[j] || seen[j] == rows[j]
  }

  /** `_get_submitter_authorized`, or the unlocked pre-check of the other routes. */
  predicate MayProceed(db: Db, req: Request, actor: UserId) {
    match req
    case CompleteSigning(row, _) => Authorized(db, row, actor)
    case DeclineSigning(row) => Authorized(db, row, actor)
    case RetryCompletion => db.sub.status.Pending? && AllSigned(db.rows)
    case _ => !db.sub.status.Deleted?
  }

  predicate Authorized(db: Db, row: nat, actor: UserId) {
    row < |db.rows| && !db.sub.status.Draft? && !db.sub.status.Deleted?
    && db.rows[row].userId == actor && !db.rows[row].isCc
  }

  function AfterLoad(s: State, p: Pid): State
    requires p in s.procs
  {
    if !s.procs[p].phase.Fresh? then s
    else At(s, p, if MayProceed(s.db, s.procs[p].req, s.procs[p].actor) then Waiting(s.db.rows) else Done)
  }

  function AfterAcquire(s: State, p: Pid): State
    requires p in s.procs
  {
    if !s.procs[p].phase.Waiting? || s.lock.Some? then s
    else if s.db.sub.status.Deleted? then At(s, p, Done)
    else At(s, p, Locked(s.procs[p].phase.cache)).(lock := Some(p))
  }

  function AfterWork(s: State, p: Pid, seen: seq<Row>, c: Chance): State
    requires p in s.procs
  {
    var proc := s.procs[p];
    if !proc.phase.Locked? || !Sees(seen, proc.phase.cache, s.db.rows) then s
    else if s.db.sub.template !in s.files || c.freshTemplate in s.files then s
    else
      match Decide(s.db, s.files[s.db.sub.template], proc.req, proc.actor, proc.phase.cache, seen, c)
      case None => At(s, p, Refused)
      case Some(txn) =>
        var t := At(s, p, Writing(txn));
        if proc.req.ReplaceDocument? && txn.Write?
        then t.(files := s.files[txn.sub.template := proc.req.content])
        else t
  }

  function Record(h: History, p: Pid, outcome: Option<Outcome>): History {
    match outcome
    case Some(Finalized(true)) =>
      h.(finalized := h.finalized + {p}, winner := Some(p), lastFailed := false)
    case Some(Finalized(false)) =>
      h.(finalized := h.finalized + {p}, failed := h.failed + {p}, lastFailed := true)
    case _ => h
  }

  function OutcomeOf(txn: Txn): Option<Outcome> {
    if txn.Write? then txn.outcome else None
  }

  function AfterFinish(s: State, p: Pid): State
    requires p in s.procs
  {
    match s.procs[p].phase
    case Writing(txn) =>
      At(s, p, Posted(OutcomeOf(txn))).(db := Committed(s.db, txn), lock := None,
                                        hist := Record(s.hist, p, OutcomeOf(txn)))
    case Refused => At(s, p, Done).(lock := None)
    case _ => s
  }

  /** A request that fails before its commit: the session closes, the lock goes, nothing is written. */
  function AfterAbort(s: State, p: Pid): State
    requires p in s.procs
  {
    if s.procs[p].phase.Posted? || s.procs[p].phase.Done? then s
    else At(s, p, Done).(lock := if Holding(s.procs[p].phase) then None else s.lock)
  }

  /** The post-commit test that decides whether this request sends the completion mail. */
  predicate SendsMail(s: State, outcome: Option<Outcome>) {
    outcome.Some? && outcome.value.Finalized? && s.db.sub.status.Completed?
  }

  function AfterLook(s: State, p: Pid): State
    requires p in s.procs
  {
    if !s.procs[p].phase.Posted? then s
    else
      At(s, p, Done).(hist := if SendsMail(s, s.procs[p].phase.outcome)
                              then s.hist.(mailed := s.hist.mailed + {p}) else s.hist)
  }

  function AfterView(db: Db, row: nat, now: int): Db {
    if row >= |db.rows| || db.rows[row].isCc || !db.rows[row].status.Pending? then db
    else if !db.sub.status.Pending? || ExpiryPassed(db.sub, now) || !RecipientDue(db.rows, row) then db
    else db.(rows := db.rows[row := db.rows[row].(status := RowStatus.Opened)],
             log := db.log + [OpenedBy(row, db.rows[row].userId)])
  }

  function AfterExpire(db: Db, now: int): Db {
    if !db.sub.status.Pending? || !ExpiryPassed(db.sub, now) then db
    else db.(sub := db.sub.(status := Expired), log := db.log + [EnvelopeExpired])
  }

  function AfterBookkeep(db: Db, row: nat, mail: Mail): Db {
    if row >= |db.rows| then db else db.(rows := db.rows[row := db.rows[row].(mail := mail)])
  }

  function Step(s: State, a: Action): State {
    match a
    case Arrive(p, req, actor) =>
      if p in s.procs then s else s.(procs := s.procs[p := Proc(req, actor, Fresh)])
    case Load(p) => if p in s.procs then AfterLoad(s, p) else s
    case Acquire(p) => if p in s.procs then AfterAcquire(s, p) else s
    case Work(p, seen, c) => if p in s.procs then AfterWork(s, p, seen, c) else s
    case Finish(p) => if p in s.procs then AfterFinish(s, p) else s
    case Abort(p) => if p in s.procs then AfterAbort(s, p) else s
    case Look(p) => if p in s.procs then AfterLook(s, p) else s
    case View(row, now) => s.(db := AfterView(s.db, row, now))
    case Expire(now) => if s.lock.Some? then s else s.(db := AfterExpire(s.db, now))
    case Bookkeep(row, mail) => s.(db := AfterBookkeep(s.db, row, mail))
  }

  function Run(s: State, actions: seq<Action>): State
    decreases |actions|
  {
    if actions == [] then s else Step(Run(s, actions[..|actions| - 1]), actions[|actions| - 1])
  }

  /** An envelope as `_create_submission` leaves it, before any request has come. */
  ghost predicate Initial(s: State) {
    && s.db.sub.template in s.files
    && (s.db.sub.status.Draft? || s.db.sub.status.Pending?)
    && s.db.sub.signedPdf == None && s.db.sub.certificate == None && s.db.sub.completedAt == None
    && HasSigner(s.db.rows)
    && (forall i :: 0 <= i < |s.db.rows| ==> s.db.rows[i].status.Pending? && s.db.rows[i].enteredBy == None)
    && (forall e :: e in s.db.log ==> e.Created? || e.SentTo?)
    && s.lock == None && s.procs == map[]
    && s.hist == History({}, {}, None, {}, false)
  }
}
