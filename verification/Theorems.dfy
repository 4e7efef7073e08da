/** What the completion protocol promises, over every interleaving of any number of requests. */
module Theorems {
  import opened Basics
  import opened Envelope
  import opened Transactions
  import opened Protocol
  import opened Invariant

  lemma ReachableInv(s: State, actions: seq<Action>)
    requires Initial(s)
    ensures Inv(Run(s, actions))
  {
    InitialInv(s);
    RunKeepsInv(s, actions);
  }

  /** No stranding: a pending envelope is fully signed exactly when its latest finalize attempt failed to stamp. */
  lemma NoStranding(s: State, actions: seq<Action>)
    requires Initial(s)
    ensures var t := Run(s, actions);
            t.db.sub.status.Pending? ==>
              ((forall i :: 0 <= i < |t.db.rows| && !t.db.rows[i].isCc ==> t.db.rows[i].status.Completed?)
               <==> t.hist.lastFailed)
  {
    ReachableInv(s, actions);
  }

  /** Every signature on an executed envelope was recorded on the document that was stamped, the stamp
      shows every signer's values and nothing else, and that document is still the one in storage. */
  lemma SignaturesOnStampedDocument(s: State, actions: seq<Action>)
    requires Initial(s)
    ensures var t := Run(s, actions);
            t.db.sub.status.Completed? ==>
              && t.db.sub.template in t.files
              && t.db.sub.signedPdf.Some?
              && t.db.sub.signedPdf.value.content == t.files[t.db.sub.template]
              && |t.db.sub.signedPdf.value.entries| == |t.db.rows|
              && forall i :: 0 <= i < |t.db.rows| ==>
                   if t.db.rows[i].isCc then t.db.sub.signedPdf.value.entries[i] == None
                   else t.db.sub.signedPdf.value.entries[i] == Some(t.db.rows[i].values)
                        && t.db.rows[i].signedOn == Some(t.db.sub.signedPdf.value.content)
  {
    ReachableInv(s, actions);
  }

  /** Signing order survives stale reads. */
  lemma SigningOrderHolds(s: State, actions: seq<Action>, i: nat, j: nat)
    requires Initial(s)
    ensures var t := Run(s, actions);
            (t.db.sub.status.Pending? || t.db.sub.status.Completed?)
            && i < |t.db.rows| && j < |t.db.rows| && t.db.rows[i].status.Completed?
            && !t.db.rows[j].isCc && t.db.rows[j].order < t.db.rows[i].order
            ==> t.db.rows[j].status.Completed?
  {
    ReachableInv(s, actions);
  }

  /** The four faces of completion agree, completion happens at most once, and only on a fully signed envelope. */
  lemma FinalizedExactlyOnce(s: State, actions: seq<Action>)
    requires Initial(s)
    ensures var t := Run(s, actions);
            && Times(t.db.log, EnvelopeCompleted) <= 1
            && (t.db.sub.status.Completed? <==> Times(t.db.log, EnvelopeCompleted) == 1)
            && (t.db.sub.status.Completed? <==> t.db.sub.signedPdf.Some?)
            && (t.db.sub.status.Completed? <==> t.db.sub.certificate.Some?)
            && (t.db.sub.status.Completed? <==> t.db.sub.completedAt.Some?)
            && (t.db.sub.status.Completed? ==>
                  forall i :: 0 <= i < |t.db.rows| && !t.db.rows[i].isCc ==> t.db.rows[i].status.Completed?)
  {
    ReachableInv(s, actions);
  }

  /** A completed row holds values entered by the user it belongs to; its one `signed` event names that user,
      and the certificate of an executed envelope shows that event. */
  lemma SignaturesAreAttributed(s: State, actions: seq<Action>, i: nat)
    requires Initial(s)
    ensures var t := Run(s, actions);
            i < |t.db.rows| && t.db.rows[i].status.Completed? ==>
              && t.db.rows[i].enteredBy == Some(t.db.rows[i].userId)
              && !t.db.rows[i].isCc
              && (forall u :: Times(t.db.log, SignedBy(i, u)) == if u == t.db.rows[i].userId then 1 else 0)
              && (t.db.sub.certificate.Some? ==>
                    Times(t.db.sub.certificate.value, SignedBy(i, t.db.rows[i].userId)) == 1)
  {
    ReachableInv(s, actions);
  }

  // ---- terminal statuses ------------------------------------------------------

  predicate SameRecord(a: State, b: State) {
    && b.db.sub == a.db.sub
    && b.db.log == a.db.log
    && |b.db.rows| == |a.db.rows|
    && (forall i :: 0 <= i < |a.db.rows| ==> b.db.rows[i].(mail := NO_MAIL) == a.db.rows[i].(mail := NO_MAIL))
    && a.db.sub.template in a.files && b.db.sub.template in b.files
    && b.files[b.db.sub.template] == a.files[a.db.sub.template]
  }

  lemma StepKeepsTerminal(s: State, a: Action)
    requires Inv(s) && Terminal(s.db.sub.status)
    ensures SameRecord(s, Step(s, a))
  {
    match a
    case Finish(p) => if p in s.procs { FinishKeepsTerminal(s, p); }
    case Work(p, seen, c) => if p in s.procs { WorkKeepsTerminal(s, p, seen, c); }
    case Bookkeep(row, mail) => BookkeepKeepsTerminal(s, row, mail);
    case _ =>
      assert Step(s, a).db == s.db && Step(s, a).files == s.files;
  }

  lemma BookkeepKeepsTerminal(s: State, row: nat, mail: Mail)
    requires Inv(s)
    ensures SameRecord(s, s.(db := AfterBookkeep(s.db, row, mail)))
  {
  }

  /** On a closed envelope every decision is a refusal or writes nothing. */
  lemma WorkKeepsTerminal(s: State, p: Pid, seen: seq<Row>, c: Chance)
    requires Inv(s) && Terminal(s.db.sub.status) && p in s.procs
    ensures SameRecord(s, AfterWork(s, p, seen, c))
  {
    assert ProcInv(s, s.procs[p]);
    var t := AfterWork(s, p, seen, c);
    assert t.db == s.db;
    assert t.files == s.files;
  }

  lemma FinishKeepsTerminal(s: State, p: Pid)
    requires Inv(s) && Terminal(s.db.sub.status) && p in s.procs
    ensures SameRecord(s, AfterFinish(s, p))
  {
    assert ProcInv(s, s.procs[p]);
  }

  lemma {:induction false} TerminalStays(s: State, actions: seq<Action>)
    requires Inv(s) && Terminal(s.db.sub.status)
    ensures Inv(Run(s, actions)) && SameRecord(s, Run(s, actions))
    decreases |actions|
  {
    if actions != [] {
      var n := |actions| - 1;
      TerminalStays(s, actions[..n]);
      var t := Run(s, actions[..n]);
      StepKeepsInv(t, actions[n]);
      StepKeepsTerminal(t, actions[n]);
      SameRecordTwice(s, t, Step(t, actions[n]));
    }
  }

  /** Once closed, an envelope is closed for good: whatever runs afterwards, its status, its signatures,
      its trail and its stored document stay; only mail bookkeeping may still be written. */
  lemma TerminalIsAbsorbing(s: State, before: seq<Action>, after: seq<Action>)
    requires Initial(s)
    requires !Run(s, before).db.sub.status.Draft? && !Run(s, before).db.sub.status.Pending?
    ensures SameRecord(Run(s, before), Run(s, before + after))
  {
    ReachableInv(s, before);
    RunConcat(s, before, after);
    TerminalStays(Run(s, before), after);
  }

  lemma SameRecordTwice(a: State, b: State, c: State)
    requires SameRecord(a, b) && SameRecord(b, c)
    ensures SameRecord(a, c)
  {
  }

  // ---- the completion mail ----------------------------------------------------

  /** Requests that pass the post-commit mail test were told FINALIZED, so they never outnumber those
      outcomes.  Without a failed stamp only the request that completed the envelope passes, and it does
      as soon as it looks; with failed stamps the others that pass are requests whose own stamp failed. */
  lemma CompletionMailCount(s: State, actions: seq<Action>)
    requires Initial(s)
    ensures var t := Run(s, actions);
            && t.hist.mailed <= t.hist.finalized
            && |t.hist.mailed| <= |t.hist.finalized|
            && (t.hist.mailed != {} ==> t.db.sub.status.Completed?)
            && (t.db.sub.status.Completed? ==>
                  && t.hist.winner.Some? && t.hist.winner.value in t.procs
                  && t.hist.mailed <= {t.hist.winner.value} + t.hist.failed
                  && (t.procs[t.hist.winner.value].phase.Done? <==> t.hist.winner.value in t.hist.mailed)
                  && (t.hist.failed == {} && t.procs[t.hist.winner.value].phase.Done? ==>
                        t.hist.mailed == {t.hist.winner.value}))
  {
    ReachableInv(s, actions);
    var t := Run(s, actions);
    Subset(t.hist.mailed, t.hist.finalized);
    if t.hist.winner.Some? {
      var p := t.hist.winner.value;
      assert HistOf(t.hist, p, t.procs[p].phase);
    }
  }

  lemma Subset<T>(a: set<T>, b: set<T>)
    requires a <= b
    ensures |a| <= |b|
  {
    assert b == a + (b - a);
  }

  /** Action k is the look of a request whose stamp failed, on an envelope some other request has completed. */
  predicate LooksLate(s: State, actions: seq<Action>, k: nat, p: Pid) {
    k < |actions| && actions[k] == Look(p) &&
    var t := Run(s, actions[..k]);
    p in t.procs && t.procs[p].phase == Posted(Some(Finalized(false))) && t.db.sub.status.Completed?
  }

  predicate SomeLateLook(s: State, actions: seq<Action>, p: Pid) {
    exists k :: 0 <= k < |actions| && LooksLate(s, actions, k, p)
  }

  lemma LateLookOneMore(s: State, actions: seq<Action>, p: Pid)
    requires actions != []
    ensures var n := |actions| - 1;
            SomeLateLook(s, actions, p) <==> SomeLateLook(s, actions[..n], p) || LooksLate(s, actions, n, p)
  {
    var n := |actions| - 1;
    assert forall k :: 0 <= k < n ==> actions[..n][..k] == actions[..k];
    forall k | 0 <= k < n
      ensures LooksLate(s, actions[..n], k, p) <==> LooksLate(s, actions, k, p)
    {
      assert actions[..n][..k] == actions[..k] && actions[..n][k] == actions[k];
    }
    if SomeLateLook(s, actions, p) {
      var k :| 0 <= k < |actions| && LooksLate(s, actions, k, p);
      assert k < n ==> LooksLate(s, actions[..n], k, p);
    }
  }

  /** Who completed the envelope stays so, and one step adds to the mail exactly who looks on a completed one. */
  lemma StepMails(s: State, a: Action, p: Pid)
    requires Inv(s)
    ensures s.hist.winner.Some? ==> Step(s, a).hist.winner == s.hist.winner
    ensures p in Step(s, a).hist.mailed <==>
              p in s.hist.mailed || (a == Look(p) && p in s.procs && s.procs[p].phase.Posted?
                                     && SendsMail(s, s.procs[p].phase.outcome))
  {
    if a.Finish? && a.pid in s.procs {
      assert ProcInv(s, s.procs[a.pid]);
    }
  }

  /** "Only the caller that flips the row sends the mail" is false.  Over every run, a request other than the one
      that completed the envelope sends it exactly when its own stamp failed and it looked after the completion. */
  lemma {:induction false} SecondMailIff(s: State, actions: seq<Action>, p: Pid)
    requires Initial(s)
    ensures var h := Run(s, actions).hist;
            p in h.mailed && h.winner != Some(p) <==> SomeLateLook(s, actions, p)
    decreases |actions|
  {
    if actions != [] {
      var n := |actions| - 1;
      var t := Run(s, actions[..n]);
      ReachableInv(s, actions[..n]);
      ReachableInv(s, actions);
      SecondMailIff(s, actions[..n], p);
      LateLookOneMore(s, actions, p);
      StepMails(t, actions[n], p);
      if p in t.procs {
        assert HistOf(t.hist, p, t.procs[p].phase);
      }
    }
  }

  /** So once the completing request has looked, the mail went out once exactly when no request with a failed
      stamp looked after the completion. */
  lemma OneMailIff(s: State, actions: seq<Action>)
    requires Initial(s)
    requires Run(s, actions).hist.winner.Some? && Run(s, actions).hist.winner.value in Run(s, actions).hist.mailed
    ensures var h := Run(s, actions).hist;
            h.mailed == {h.winner.value} <==> forall p :: !SomeLateLook(s, actions, p)
  {
    var h := Run(s, actions).hist;
    forall p
      ensures p in h.mailed && h.winner != Some(p) <==> SomeLateLook(s, actions, p)
    {
      SecondMailIff(s, actions, p);
    }
  }

  // ---- progress ---------------------------------------------------------------

  /** Arrive, read, lock, decide on the rows as they are, commit. */
  function Alone(s: State, p: Pid, req: Request, actor: UserId, c: Chance): seq<Action> {
    [Arrive(p, req, actor), Load(p), Acquire(p), Work(p, s.db.rows, c), Finish(p)]
  }

  lemma {:induction false} RunUnfolds(s: State, actions: seq<Action>)
    requires actions != []
    ensures Run(s, actions) == Run(Step(s, actions[0]), actions[1..])
    decreases |actions|
  {
    var n := |actions| - 1;
    if n > 0 {
      var (front, rest, t) := (actions[..n], actions[1..], Step(s, actions[0]));
      RunUnfolds(s, front);
      assert front[1..] == rest[..n - 1] && rest[n - 1] == actions[n] && |rest| == n;
      assert Run(t, rest) == Step(Run(t, rest[..n - 1]), rest[n - 1]);
    } else {
      assert Run(s, actions[..0]) == s && actions[1..] == [];
    }
  }

  lemma AloneUnfolds(s: State, p: Pid, req: Request, actor: UserId, c: Chance)
    ensures Run(s, Alone(s, p, req, actor, c))
              == Step(Step(Step(Step(Step(s, Arrive(p, req, actor)), Load(p)), Acquire(p)), Work(p, s.db.rows, c)),
                      Finish(p))
  {
    var all := Alone(s, p, req, actor, c);
    var s1 := Step(s, all[0]);
    var s2 := Step(s1, all[1]);
    var s3 := Step(s2, all[2]);
    var s4 := Step(s3, all[3]);
    RunUnfolds(s, all);
    RunUnfolds(s1, all[1..]);
    RunUnfolds(s2, all[2..]);
    RunUnfolds(s3, all[3..]);
    RunUnfolds(s4, all[4..]);
    assert all[1..][1..] == all[2..] && all[2..][1..] == all[3..] && all[3..][1..] == all[4..];
    assert all[4..][1..] == [];
  }

  lemma AloneCommits(s: State, p: Pid, req: Request, actor: UserId, c: Chance)
    requires s.lock == None && p !in s.procs && MayProceed(s.db, req, actor) && !s.db.sub.status.Deleted?
    requires s.db.sub.template in s.files && c.freshTemplate !in s.files
    requires Decide(s.db, s.files[s.db.sub.template], req, actor, s.db.rows, s.db.rows, c).Some?
    ensures var txn := Decide(s.db, s.files[s.db.sub.template], req, actor, s.db.rows, s.db.rows, c).value;
            var t := Run(s, Alone(s, p, req, actor, c));
            && t.db == Committed(s.db, txn) && t.lock == None && t.hist == Record(s.hist, p, OutcomeOf(txn))
            && t.procs == s.procs[p := Proc(req, actor, Posted(OutcomeOf(txn)))]
            && (!req.ReplaceDocument? ==> t.files == s.files)
  {
    AloneUnfolds(s, p, req, actor, c);
    AloneLocks(s, p, req, actor);
    var locked := s.(procs := s.procs[p := Proc(req, actor, Locked(s.db.rows))], lock := Some(p));
    LockedCommits(locked, p, c);
    assert s.procs[p := Proc(req, actor, Locked(s.db.rows))][p := Proc(req, actor, Posted(OutcomeOf(
      Decide(s.db, s.files[s.db.sub.template], req, actor, s.db.rows, s.db.rows, c).value)))]
        == s.procs[p := Proc(req, actor, Posted(OutcomeOf(
      Decide(s.db, s.files[s.db.sub.template], req, actor, s.db.rows, s.db.rows, c).value)))];
  }

  /** From the lock to the commit, on rows read under it. */
  lemma LockedCommits(s: State, p: Pid, c: Chance)
    requires p in s.procs && s.procs[p].phase == Locked(s.db.rows) && s.db.sub.template in s.files
    requires c.freshTemplate !in s.files
    requires Decide(s.db, s.files[s.db.sub.template], s.procs[p].req, s.procs[p].actor, s.db.rows, s.db.rows, c).Some?
    ensures var (req, actor) := (s.procs[p].req, s.procs[p].actor);
            var txn := Decide(s.db, s.files[s.db.sub.template], req, actor, s.db.rows, s.db.rows, c).value;
            var t := Step(Step(s, Work(p, s.db.rows, c)), Finish(p));
            && t.db == Committed(s.db, txn) && t.lock == None && t.hist == Record(s.hist, p, OutcomeOf(txn))
            && t.procs == s.procs[p := Proc(req, actor, Posted(OutcomeOf(txn)))]
            && (!req.ReplaceDocument? ==> t.files == s.files)
  {
    var proc := s.procs[p];
    var txn := Decide(s.db, s.files[s.db.sub.template], proc.req, proc.actor, s.db.rows, s.db.rows, c).value;
    var s4 := AfterWork(s, p, s.db.rows, c);
    assert s4.procs[p].phase == Writing(txn) && s4.db == s.db && s4.hist == s.hist;
  }

  lemma AloneLocks(s: State, p: Pid, req: Request, actor: UserId)
    requires s.lock == None && p !in s.procs && MayProceed(s.db, req, actor) && !s.db.sub.status.Deleted?
    ensures Step(Step(Step(s, Arrive(p, req, actor)), Load(p)), Acquire(p))
              == s.(procs := s.procs[p := Proc(req, actor, Locked(s.db.rows))], lock := Some(p))
  {
    var s1 := Step(s, Arrive(p, req, actor));
    assert s1 == s.(procs := s.procs[p := Proc(req, actor, Fresh)]);
    var s2 := Step(s1, Load(p));
    assert s2.procs == s.procs[p := Proc(req, actor, Waiting(s.db.rows))];
    assert Step(s2, Acquire(p)).procs == s.procs[p := Proc(req, actor, Locked(s.db.rows))];
  }

  lemma {:induction false} RunConcat(s: State, a: seq<Action>, b: seq<Action>)
    ensures Run(s, a + b) == Run(Run(s, a), b)
    decreases |b|
  {
    if b == [] {
      assert a + b == a;
    } else {
      var n := |b| - 1;
      RunConcat(s, a, b[..n]);
      assert (a + b)[..|a + b| - 1] == a + b[..n];
    }
  }

  /** Recovery: whenever an envelope is stranded, one retry that stamps completes it. */
  lemma RetryRecovers(s: State, actions: seq<Action>, p: Pid, actor: UserId, c: Chance)
    requires Initial(s) && p !in Run(s, actions).procs && Run(s, actions).lock == None
    requires Run(s, actions).db.sub.status.Pending? && Run(s, actions).hist.lastFailed
    requires c.stamps && c.freshTemplate !in Run(s, actions).files
    ensures var t := Run(s, actions);
            Run(t, Alone(t, p, RetryCompletion, actor, c)).db.sub.status.Completed?
  {
    ReachableInv(s, actions);
    AloneCommits(Run(s, actions), p, RetryCompletion, actor, c);
  }

  /** Routing cannot deadlock: while a pending envelope has an unfinished signer, some signer's request,
      running alone before the deadline with valid values, gets that signer's row completed. */
  lemma SomeSignerCanComplete(s: State, actions: seq<Action>, p: Pid, values: Values, c: Chance) returns (i: nat)
    requires Initial(s) && p !in Run(s, actions).procs && Run(s, actions).lock == None
    requires Run(s, actions).db.sub.status.Pending?
    requires var rows := Run(s, actions).db.rows;
             exists j :: 0 <= j < |rows| && !rows[j].isCc && !rows[j].status.Completed?
    requires c.valid && c.freshTemplate !in Run(s, actions).files
    requires var expiresAt := Run(s, actions).db.sub.settings.expiresAt;
             expiresAt.None? || c.now < expiresAt.value
    ensures var t := Run(s, actions);
            && i < |t.db.rows| && !t.db.rows[i].isCc && !t.db.rows[i].status.Completed?
            && var after := Run(t, Alone(t, p, CompleteSigning(i, values), t.db.rows[i].userId, c)).db;
               && i < |after.rows| && after.rows[i].status.Completed? && after.rows[i].values == values
  {
    ReachableInv(s, actions);
    var t := Run(s, actions);
    SomeoneIsDue(t.db.rows);
    i :| Unfinished(t.db.rows, i) && RecipientDue(t.db.rows, i);
    AloneCommits(t, p, CompleteSigning(i, values), t.db.rows[i].userId, c);
  }

  /** A request that may not proceed, or is refused under the lock, leaves the rows alone. */
  lemma AloneLeaves(s: State, p: Pid, req: Request, actor: UserId, c: Chance)
    requires s.lock == None && p !in s.procs && s.db.sub.template in s.files && c.freshTemplate !in s.files
    requires MayProceed(s.db, req, actor) && !s.db.sub.status.Deleted? ==>
               Decide(s.db, s.files[s.db.sub.template], req, actor, s.db.rows, s.db.rows, c).None?
    ensures Run(s, Alone(s, p, req, actor, c)).db == s.db
  {
    AloneUnfolds(s, p, req, actor, c);
    var s1 := Step(s, Arrive(p, req, actor));
    assert s1 == s.(procs := s.procs[p := Proc(req, actor, Fresh)]);
    var s2 := Step(s1, Load(p));
    if MayProceed(s.db, req, actor) && !s.db.sub.status.Deleted? {
      AloneLocks(s, p, req, actor);
    } else {
      assert s2.db == s.db && (s2.procs[p].phase.Done? || s.db.sub.status.Deleted?);
    }
  }

  /** Exactly who can sign, and when: in every reachable state, an unsigned row gets completed by a request that
      runs alone exactly if the request is its signer's, the envelope is pending and before its deadline, every
      signer of lower order has completed, and the values are valid. */
  lemma SigningIff(s: State, actions: seq<Action>, p: Pid, i: nat, values: Values, actor: UserId, c: Chance)
    requires Initial(s) && p !in Run(s, actions).procs && Run(s, actions).lock == None
    requires c.freshTemplate !in Run(s, actions).files
    requires i < |Run(s, actions).db.rows| && !Run(s, actions).db.rows[i].status.Completed?
    ensures var t := Run(s, actions).db;
            var after := Run(Run(s, actions), Alone(Run(s, actions), p, CompleteSigning(i, values), actor, c)).db;
            && i < |after.rows|
            && (after.rows[i].status.Completed? <==>
                  && t.rows[i].userId == actor && !t.rows[i].isCc && t.sub.status.Pending?
                  && (t.sub.settings.expiresAt.None? || c.now < t.sub.settings.expiresAt.value)
                  && (forall j :: 0 <= j < |t.rows| && !t.rows[j].isCc && t.rows[j].order < t.rows[i].order ==>
                        t.rows[j].status.Completed?)
                  && c.valid)
            && (after.rows[i].status.Completed? ==> after.rows[i].values == values)
  {
    ReachableInv(s, actions);
    var t := Run(s, actions);
    var req := CompleteSigning(i, values);
    if MayProceed(t.db, req, actor)
       && Decide(t.db, t.files[t.db.sub.template], req, actor, t.db.rows, t.db.rows, c).Some? {
      AloneCommits(t, p, req, actor, c);
    } else {
      AloneLeaves(t, p, req, actor, c);
    }
  }

  /** No signature, no decline and no sending past the deadline: whatever interleaving led here, a request that
      commits one of them decided before it. */
  lemma DeadlineIsKept(s: State, actions: seq<Action>, p: Pid, seen: seq<Row>, c: Chance)
    requires Initial(s) && p in Run(s, actions).procs && Run(s, actions).procs[p].phase.Locked?
    requires Step(Run(s, actions), Work(p, seen, c)).procs[p].phase.Writing?
    ensures var t := Run(s, actions);
            var after := Step(Step(t, Work(p, seen, c)), Finish(p)).db;
            t.procs[p].req.SendDraft?
            || (exists k :: |t.db.log| <= k < |after.log| && (after.log[k].SignedBy? || after.log[k].DeclinedBy?)) ==>
              t.db.sub.settings.expiresAt.None? || c.now < t.db.sub.settings.expiresAt.value
  {
    var t := Run(s, actions);
    if t.db.sub.settings.expiresAt.Some? && t.db.sub.settings.expiresAt.value <= c.now {
      LateDecisionIsQuiet(t, p, seen, c);
    }
  }

  lemma LateDecisionIsQuiet(t: State, p: Pid, seen: seq<Row>, c: Chance)
    requires p in t.procs && t.procs[p].phase.Locked? && Step(t, Work(p, seen, c)).procs[p].phase.Writing?
    requires t.db.sub.settings.expiresAt.Some? && t.db.sub.settings.expiresAt.value <= c.now
    ensures !t.procs[p].req.SendDraft?
    ensures var after := Step(Step(t, Work(p, seen, c)), Finish(p)).db;
            forall k :: |t.db.log| <= k < |after.log| ==> !after.log[k].SignedBy? && !after.log[k].DeclinedBy?
  {
  }

  /** A signer's first view opens exactly an untouched row of a pending envelope before its deadline whose
      lower-order signers have all completed, and is noted once; any other view changes nothing. */
  lemma ViewOpensIff(s: State, row: nat, now: int)
    requires row < |s.db.rows|
    ensures var t := Step(s, View(row, now)).db;
            var opens :=
              && s.db.sub.status.Pending? && !s.db.rows[row].isCc && s.db.rows[row].status.Pending?
              && (s.db.sub.settings.expiresAt.None? || now < s.db.sub.settings.expiresAt.value)
              && forall j :: 0 <= j < |s.db.rows| && !s.db.rows[j].isCc && s.db.rows[j].order < s.db.rows[row].order ==>
                   s.db.rows[j].status.Completed?;
            if opens
            then t == Db(s.db.sub, s.db.rows[row := s.db.rows[row].(status := RowStatus.Opened)],
                         s.db.log + [OpenedBy(row, s.db.rows[row].userId)])
            else t == s.db
  {
  }

  // ---- declining --------------------------------------------------------------

  lemma DeclineBuries(db: Db, files: map<TemplateId, Content>, lastFailed: bool, row: nat, me: Row,
                      seen: seq<Row>, c: Chance)
    requires DbInv(db, files, lastFailed) && row < |db.rows|
    requires DecideDecline(db, row, me, seen, c).Some?
    ensures var after := Committed(db, DecideDecline(db, row, me, seen, c).value);
            && after.sub.status == Status.Declined && |after.rows| == |db.rows| && after.rows[row].status.Declined?
            && after.log != []
            && ((DeclinedBy(row, after.rows[row].userId) == after.log[|after.log| - 1]
                 && forall u :: Times(after.log, SignedBy(row, u)) == 0)
                <==> (db.rows[row].userId == me.userId && !db.rows[row].status.Completed?))
  {
    QuietEvents(db.log, [DeclinedBy(row, me.userId)]);
    if db.rows[row].status.Completed? {
      assert Times(db.log, SignedBy(row, db.rows[row].userId)) == 1;
    }
  }

  /** `decline_signing` does not re-read its row.  Its commit is made by the row's owner and buries no
      recorded signature exactly when the row, re-read under the lock, would still be theirs and unsigned. */
  lemma DeclineIsFaithfulIff(s: State, actions: seq<Action>, p: Pid, seen: seq<Row>, c: Chance)
    requires Initial(s)
    requires p in Run(s, actions).procs && Run(s, actions).procs[p].req.DeclineSigning?
    requires Run(s, actions).procs[p].phase.Locked?
    requires Step(Run(s, actions), Work(p, seen, c)).procs[p].phase.Writing?
    ensures var t := Run(s, actions);
            var row := t.procs[p].req.row;
            var cache := t.procs[p].phase.cache;
            var after := Step(Step(t, Work(p, seen, c)), Finish(p)).db;
            && row < |t.db.rows| && row < |cache| && row < |after.rows| && after.log != []
            && after.sub.status == Status.Declined && after.rows[row].status.Declined?
            && t.procs[p].actor == cache[row].userId && !cache[row].isCc
            && ((DeclinedBy(row, after.rows[row].userId) == after.log[|after.log| - 1]
                 && forall u :: Times(after.log, SignedBy(row, u)) == 0)
                <==> (t.db.rows[row].userId == t.procs[p].actor && !t.db.rows[row].status.Completed?))
  {
    ReachableInv(s, actions);
    var t := Run(s, actions);
    assert ProcInv(t, t.procs[p]);
    var row := t.procs[p].req.row;
    var me := t.procs[p].phase.cache[row];
    var d := DecideDecline(t.db, row, me, seen, c);
    DeclineCommits(t, p, seen, c);
    DeclineBuries(t.db, t.files, t.hist.lastFailed, row, me, seen, c);
  }

  lemma DeclineCommits(t: State, p: Pid, seen: seq<Row>, c: Chance)
    requires p in t.procs && t.procs[p].req.DeclineSigning? && t.procs[p].phase.Locked?
    requires Step(t, Work(p, seen, c)).procs[p].phase.Writing?
    ensures var (row, cache) := (t.procs[p].req.row, t.procs[p].phase.cache);
            && row < |cache| && DecideDecline(t.db, row, cache[row], seen, c).Some?
            && Step(Step(t, Work(p, seen, c)), Finish(p)).db
                 == Committed(t.db, DecideDecline(t.db, row, cache[row], seen, c).value)
  {
  }
}
