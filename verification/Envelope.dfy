/**
 The rows of one envelope ("submission") and the routing rule every route asks:
 whose turn is it?  Signers with equal `order` act in parallel; copy recipients
 (`isCc`) never sign and never hold anyone up.
 */
module Envelope {
  import opened Basics

  type UserId = nat

  datatype Value = Null | Id(n: int) | Flag(b: bool) | Text(s: string)

  type Values = map<string, Value>

  datatype RowStatus = Pending | Opened | Completed | Declined

  datatype Delivery = Sent | Failed

  /** The mail bookkeeping of a recipient; times are in seconds. */
  datatype Mail = Mail(emailStatus: Option<Delivery>, firstNotified: Option<int>,
                       lastReminded: Option<int>, reminderCount: nat)

  const NO_MAIL := Mail(None, None, None, 0)

  /**
   A recipient.  `enteredBy` and `signedOn` are history: who entered `values`, and
   which document content was in storage when the signature was recorded.
   */
  datatype Row = Row(userId: UserId, role: string, isCc: bool, order: nat, status: RowStatus,
                     values: Values, enteredBy: Option<UserId>, signedOn: Option<nat>, mail: Mail)

  predicate Unfinished(rows: seq<Row>, i: int) {
    0 <= i < |rows| && !rows[i].isCc && !rows[i].status.Completed?
  }

  predicate HasSigner(rows: seq<Row>) {
    exists i :: 0 <= i < |rows| && !rows[i].isCc
  }

  predicate AllSigned(rows: seq<Row>) {
    forall i :: 0 <= i < |rows| && !rows[i].isCc ==> rows[i].status.Completed?
  }

  /** `_is_my_turn` and `recipient_due` (one rule in two files): every lower-order signer has completed. */
  predicate GroupReached(rows: seq<Row>, order: nat) {
    forall j :: 0 <= j < |rows| && !rows[j].isCc && rows[j].order < order ==> rows[j].status.Completed?
  }

  predicate RecipientDue(rows: seq<Row>, i: int)
    requires 0 <= i < |rows|
  {
    GroupReached(rows, rows[i].order)
  }

  /** `isTurnOf` of the browser: the same question as one test over all peers. */
  predicate IsTurnOf(rows: seq<Row>, i: int)
    requires 0 <= i < |rows|
  {
    forall j :: 0 <= j < |rows| ==>
      rows[j].isCc || rows[j].order >= rows[i].order || rows[j].status.Completed?
  }

  /** `active_order`: the least order among unfinished signers, None when there is none. */
  function ActiveOrder(rows: seq<Row>): (r: Option<nat>)
    ensures r.None? <==> AllSigned(rows)
    ensures r.Some? ==> exists i :: Unfinished(rows, i) && rows[i].order == r.value
    ensures r.Some? ==> forall i :: Unfinished(rows, i) ==> r.value <= rows[i].order
  {
    if rows == [] then None
    else
      var n := |rows| - 1;
      var front := ActiveOrder(rows[..n]);
      assert forall i :: 0 <= i < n ==> rows[..n][i] == rows[i];
      assert forall i :: Unfinished(rows[..n], i) ==> Unfinished(rows, i);
      assert forall i :: Unfinished(rows, i) && i < n ==> Unfinished(rows[..n], i);
      if rows[n].isCc || rows[n].status.Completed? then front
      else
        assert Unfinished(rows, n);
        if front.None? || rows[n].order <= front.value then Some(rows[n].order) else front
  }

  /** The turn tests of server and browser agree on every signer who has not finished. */
  lemma TurnTestsAgree(rows: seq<Row>, i: int)
    requires Unfinished(rows, i)
    ensures RecipientDue(rows, i) <==> IsTurnOf(rows, i)
    ensures RecipientDue(rows, i) <==> ActiveOrder(rows) == Some(rows[i].order)
  {
    var low := ActiveOrder(rows).value;
    var k :| Unfinished(rows, k) && rows[k].order == low;
    if low == rows[i].order {
      forall j | 0 <= j < |rows| && !rows[j].isCc && rows[j].order < low
        ensures rows[j].status.Completed?
      {
        assert !Unfinished(rows, j);
      }
    }
  }

  /** Routing never deadlocks: while some signer is unfinished, one of them may act. */
  lemma SomeoneIsDue(rows: seq<Row>)
    requires !AllSigned(rows)
    ensures exists i :: Unfinished(rows, i) && RecipientDue(rows, i)
  {
    var low := ActiveOrder(rows).value;
    var i :| Unfinished(rows, i) && rows[i].order == low;
    TurnTestsAgree(rows, i);
  }

  /** `actionNeeded` and `waitingForMyTurn`, for the row the viewer owns (if any). */
  predicate ActionNeeded(pending: bool, rows: seq<Row>, me: Option<nat>)
    requires me.Some? ==> me.value < |rows|
  {
    pending && me.Some? && !rows[me.value].isCc && !rows[me.value].status.Completed? && IsTurnOf(rows, me.value)
  }

  predicate WaitingForMyTurn(pending: bool, rows: seq<Row>, me: Option<nat>)
    requires me.Some? ==> me.value < |rows|
  {
    pending && me.Some? && !rows[me.value].isCc && !rows[me.value].status.Completed? && !IsTurnOf(rows, me.value)
  }

  /** The browser asks a signer to act exactly when the server's active group is theirs,
      and tells every other unfinished signer of a pending envelope to wait. */
  lemma DashboardAgreesWithServer(pending: bool, rows: seq<Row>, me: nat)
    requires me < |rows|
    ensures ActionNeeded(pending, rows, Some(me)) <==>
              pending && Unfinished(rows, me) && ActiveOrder(rows) == Some(rows[me].order)
    ensures WaitingForMyTurn(pending, rows, Some(me)) <==>
              pending && Unfinished(rows, me) && !RecipientDue(rows, me)
  {
    if Unfinished(rows, me) {
      TurnTestsAgree(rows, me);
    }
  }
}
