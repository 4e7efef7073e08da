/** Runs of the protocol that break what the program's own comments promise. */
module Races {
  import opened Basics
  import opened Envelope
  import opened Transactions
  import opened Protocol
  import opened Invariant
  import opened Theorems

  const SETTINGS := Settings("Lease", None, None, None, true, 3)

  function Signer(user: UserId): Row {
    Row(user, "signer", false, 0, RowStatus.Pending, map[], None, None, NO_MAIL)
  }

  /** A pending envelope with the given signers in one group, its document in storage under template 1. */
  function Sent(rows: seq<Row>): State {
    State(Db(Submission(Status.Pending, 1, true, SETTINGS, None, None, None), rows, [Created]),
          map[1 := 7], None, map[], History({}, {}, None, {}, false))
  }

  lemma SentIsInitial(users: seq<UserId>)
    requires users != []
    ensures Initial(Sent(seq(|users|, i requires 0 <= i < |users| => Signer(users[i]))))
  {
    var rows := seq(|users|, i requires 0 <= i < |users| => Signer(users[i]));
    assert !rows[0].isCc;
  }

  lemma OnlySignerFailsToStamp(s: State) returns (actions: seq<Action>)
    requires s == Sent([Signer(10)])
    ensures var t := Run(s, actions);
            && t.db.sub == s.db.sub && AllSigned(t.db.rows) && t.lock == None && t.files == s.files
            && t.procs.Keys == {0} && t.procs[0].phase == Posted(Some(Finalized(false)))
            && t.hist == History({0}, {0}, None, {}, true)
  {
    var c := Chance(0, true, false, 2);
    var d := Decide(s.db, 7, CompleteSigning(0, map[]), 10, s.db.rows, s.db.rows, c);
    assert AllSigned(ApplyPatch(s.db.rows, d.value.patch));
    actions := Alone(s, 0, CompleteSigning(0, map[]), 10, c);
    AloneCommits(s, 0, CompleteSigning(0, map[]), 10, c);
  }

  lemma RetryStamps(t: State) returns (actions: seq<Action>)
    requires t.db.sub.status.Pending? && AllSigned(t.db.rows) && t.lock == None && t.db.sub.template == 1
    requires t.files == map[1 := 7] && t.procs.Keys == {0} && t.hist == History({0}, {0}, None, {}, true)
    ensures var u := Run(t, actions);
            && u.db.sub.status.Completed? && u.procs.Keys == {0, 1} && u.procs[0] == t.procs[0]
            && u.procs[1].phase == Posted(Some(Finalized(true)))
            && u.hist.mailed == {}
  {
    var c := Chance(0, true, true, 2);
    actions := Alone(t, 1, RetryCompletion, 20, c);
    AloneCommits(t, 1, RetryCompletion, 20, c);
  }

  lemma BothLook(u: State) returns (actions: seq<Action>)
    requires u.db.sub.status.Completed? && u.procs.Keys == {0, 1} && u.hist.mailed == {}
    requires u.procs[0].phase == Posted(Some(Finalized(false))) && u.procs[1].phase == Posted(Some(Finalized(true)))
    ensures Run(u, actions).hist.mailed == {0, 1}
  {
    actions := [Look(0), Look(1)];
    RunUnfolds(u, actions);
    var v := Step(u, Look(0));
    RunUnfolds(v, actions[1..]);
    assert v.hist.mailed == {0} && v.procs[1] == u.procs[1] && v.db == u.db;
    assert Step(v, Look(1)).hist.mailed == {0, 1} && actions[1..][1..] == [];
  }

  /** One completed envelope, two completion mails: the only signer's stamp fails, the sender's retry
      stamps and commits, and only then does the signer's request look at the status. */
  lemma TwoCompletionMails() returns (s: State, actions: seq<Action>)
    ensures Initial(s) && |Run(s, actions).hist.mailed| == 2
  {
    s := Sent([Signer(10)]);
    SentIsInitial([10]);
    assert seq(1, i requires 0 <= i < 1 => Signer([10][i])) == [Signer(10)];
    var first := OnlySignerFailsToStamp(s);
    var retry := RetryStamps(Run(s, first));
    RunConcat(s, first, retry);
    var looks := BothLook(Run(s, first + retry));
    RunConcat(s, first + retry, looks);
    actions := first + retry + looks;
  }

  /** A decline that has read `cache` and then waited: it locks, decides and commits. */
  lemma LateDecline(s: State, p: Pid, user: UserId)
    requires p in s.procs && s.lock == None && s.db.sub.status.Pending? && s.db.sub.settings.expiresAt == None
    requires s.procs[p].req == DeclineSigning(0) && s.procs[p].phase.Waiting?
    requires |s.procs[p].phase.cache| == |s.db.rows| > 0
    requires s.procs[p].phase.cache[0] == Signer(user)
    requires s.db.sub.template in s.files && s.files == map[1 := 7]
    ensures var t := Run(s, [Acquire(p), Work(p, s.db.rows, Chance(0, true, true, 2)), Finish(p)]);
            && |t.db.rows| == |s.db.rows| && t.db.rows[0] == s.db.rows[0].(status := RowStatus.Declined)
            && t.db.sub.status == Status.Declined
            && t.db.log == s.db.log + [DeclinedBy(0, user)]
  {
    var c := Chance(0, true, true, 2);
    var actions := [Acquire(p), Work(p, s.db.rows, c), Finish(p)];
    var s1 := Step(s, Acquire(p));
    var s2 := Step(s1, Work(p, s.db.rows, c));
    RunUnfolds(s, actions);
    RunUnfolds(s1, actions[1..]);
    RunUnfolds(s2, actions[2..]);
    assert actions[1..][1..] == actions[2..] && actions[2..][1..] == [];
    var txn := Write(s.db.sub.(status := Status.Declined), DeclinePatch(0), [DeclinedBy(0, user)], None);
    assert s1.procs[p] == Proc(DeclineSigning(0), s.procs[p].actor, Locked(s.procs[p].phase.cache)) && s1.db == s.db;
    assert GroupReached(s.db.rows, 0);
    assert DecideDecline(s.db, 0, s.procs[p].phase.cache[0], s.db.rows, c) == Some(txn);
    assert AfterWork(s1, p, s.db.rows, c) == At(s1, p, Writing(txn));
    assert AfterFinish(s2, p).db == Committed(s.db, txn);
  }

  lemma DeclineReadsFirst(s: State, other: Request, actor: UserId, c: Chance)
    returns (actions: seq<Action>)
    requires s == Sent([Signer(10), Signer(11)])
    requires other.CompleteSigning? || other.ReplaceSubmitter?
    requires MayProceed(s.db, other, actor) && c.freshTemplate != 1
    requires Decide(s.db, 7, other, actor, s.db.rows, s.db.rows, c).Some?
    requires Committed(s.db, Decide(s.db, 7, other, actor, s.db.rows, s.db.rows, c).value).sub == s.db.sub
    ensures var middle := Committed(s.db, Decide(s.db, 7, other, actor, s.db.rows, s.db.rows, c).value);
            var t := Run(s, actions);
            && |middle.rows| == 2 && |t.db.rows| == 2 && t.db.sub.status == Status.Declined
            && t.db.rows[0] == middle.rows[0].(status := RowStatus.Declined)
            && t.db.log == middle.log + [DeclinedBy(0, 10)]
  {
    var start := [Arrive(1, DeclineSigning(0), 10), Load(1)];
    var s1 := Step(s, start[0]);
    RunUnfolds(s, start);
    RunUnfolds(s1, start[1..]);
    assert start[1..][1..] == [];
    var t0 := Run(s, start);
    assert s1.procs[1] == Proc(DeclineSigning(0), 10, Fresh) && t0 == AfterLoad(s1, 1);
    assert t0.procs[1].phase == Waiting(s.db.rows) && t0.db == s.db;
    var alone := Alone(t0, 0, other, actor, c);
    AloneCommits(t0, 0, other, actor, c);
    RunConcat(s, start, alone);
    var t1 := Run(s, start + alone);
    LateDecline(t1, 1, 10);
    var late := [Acquire(1), Work(1, t1.db.rows, Chance(0, true, true, 2)), Finish(1)];
    RunConcat(s, start + alone, late);
    actions := start + alone + late;
  }

  /** A signer's decline and completion race: the completion commits first, and the decline, which still
      sees its row unsigned, overwrites the row whose `signed` event is already in the trail. */
  lemma DeclineBuriesSignature() returns (s: State, actions: seq<Action>)
    ensures Initial(s)
    ensures var t := Run(s, actions);
            |t.db.rows| == 2 && t.db.rows[0].status.Declined? && t.db.rows[0].enteredBy == Some(10)
            && SignedBy(0, 10) in t.db.log
  {
    s := Sent([Signer(10), Signer(11)]);
    SentIsInitial([10, 11]);
    assert seq(2, i requires 0 <= i < 2 => Signer([10, 11][i])) == [Signer(10), Signer(11)];
    var c := Chance(0, true, true, 2);
    var d := Decide(s.db, 7, CompleteSigning(0, map[]), 10, s.db.rows, s.db.rows, c);
    assert ApplyPatch(s.db.rows, d.value.patch)[1] == Signer(11);
    assert !AllSigned(ApplyPatch(s.db.rows, d.value.patch));
    assert d.value.events[0] == SignedBy(0, 10);
    actions := DeclineReadsFirst(s, CompleteSigning(0, map[]), 10, c);
    assert Run(s, actions).db.log[1] == SignedBy(0, 10);
  }

  /** A replaced signer's decline: it was authorized before the replacement and voids the envelope after it,
      on a row that belongs to somebody else by then. */
  lemma ReplacedSignerDeclines() returns (s: State, actions: seq<Action>)
    ensures Initial(s)
    ensures var t := Run(s, actions);
            |t.db.rows| == 2 && t.db.rows[0].userId == 12 && t.db.rows[0].status.Declined?
            && t.db.sub.status == Status.Declined && DeclinedBy(0, 10) in t.db.log
  {
    s := Sent([Signer(10), Signer(11)]);
    SentIsInitial([10, 11]);
    assert seq(2, i requires 0 <= i < 2 => Signer([10, 11][i])) == [Signer(10), Signer(11)];
    actions := DeclineReadsFirst(s, ReplaceSubmitter(0, 12), 20, Chance(0, true, true, 2));
    var log := Run(s, actions).db.log;
    assert log[|log| - 1] == DeclinedBy(0, 10);
  }
}
