/** The frontend's `transaction` slice: the purchase in progress and whether
    the page is waiting for its outcome. Reducers are written as functions
    from the old state to the new one. */
module TransactionSlice {
  import opened Common

  datatype TransactionStatus = Pending | Completed | Failed

  /** The purchase the page is following. `amount` is in cents. */
  datatype CurrentTransaction = CurrentTransaction(id: string, status: TransactionStatus, amount: int, reference: string)

  datatype TransactionState = TransactionState(
    currentTransaction: Option<CurrentTransaction>,
    loading: bool,
    error: Option<string>)

  /** The payload of `setTransactionPending`: the fields of the transaction
      the page has just created. */
  datatype PendingPayload = PendingPayload(id: string, amount: int, reference: string)

  function InitialState(): (s: TransactionState)
    ensures s.currentTransaction.None? && !s.loading && s.error.None?
  {
    TransactionState(None, false, None)
  }

  /** Starts following a purchase: it becomes the current one, marked pending,
      and the page waits. A previous error is kept. */
  function SetTransactionPending(s: TransactionState, p: PendingPayload): (t: TransactionState)
    ensures t.currentTransaction.Some? && t.currentTransaction.value.status == Pending
    ensures t.currentTransaction.value.id == p.id
    ensures t.currentTransaction.value.amount == p.amount
    ensures t.currentTransaction.value.reference == p.reference
    ensures t.loading && t.error == s.error
  {
    s.(currentTransaction := Some(CurrentTransaction(p.id, Pending, p.amount, p.reference)), loading := true)
  }

  /** The status of the current purchase, if any, becomes `to`; everything else
      about it is kept. */
  function WithStatus(c: Option<CurrentTransaction>, to: TransactionStatus): (d: Option<CurrentTransaction>)
    ensures d.Some? <==> c.Some?
    ensures d.Some? ==> d.value.status == to && d.value.(status := c.value.status) == c.value
  {
    match c
    case None => None
    case Some(t) => Some(t.(status := to))
  }

  /** The purchase succeeded. Its payload is not read, and the error is kept. */
  function SetTransactionComplete(s: TransactionState): (t: TransactionState)
    ensures t.currentTransaction == WithStatus(s.currentTransaction, Completed)
    ensures !t.loading && t.error == s.error
  {
    s.(currentTransaction := WithStatus(s.currentTransaction, Completed), loading := false)
  }

  /** The purchase failed with error `e`. */
  function SetTransactionFailed(s: TransactionState, e: Option<string>): (t: TransactionState)
    ensures t.currentTransaction == WithStatus(s.currentTransaction, Failed)
    ensures !t.loading && t.error == e
  {
    s.(currentTransaction := WithStatus(s.currentTransaction, Failed), loading := false, error := e)
  }

  datatype Action =
    | SetPending(payload: PendingPayload)
    | SetComplete
    | SetFailed(error: Option<string>)

  /** `transactionSlice.reducer`: the page waits exactly after a purchase is
      started; only a failure changes the error; only a start can bring a
      purchase into view. */
  function Reduce(s: TransactionState, a: Action): (t: TransactionState)
    ensures t.loading <==> a.SetPending?
    ensures !a.SetFailed? ==> t.error == s.error
    ensures !a.SetPending? ==> (t.currentTransaction.Some? <==> s.currentTransaction.Some?)
  {
    match a
    case SetPending(p) => SetTransactionPending(s, p)
    case SetComplete => SetTransactionComplete(s)
    case SetFailed(e) => SetTransactionFailed(s, e)
  }

  /** The state after dispatching `actions` in order, starting from `s`: the
      page waits exactly when the last action started a purchase, and the
      error changes only through a failure. */
  function Run(s: TransactionState, actions: seq<Action>): (t: TransactionState)
    ensures actions == [] ==> t == s
    ensures actions != [] ==> (t.loading <==> actions[|actions| - 1].SetPending?)
    ensures (forall i | 0 <= i < |actions| :: !actions[i].SetFailed?) ==> t.error == s.error
    decreases |actions|
  {
    if actions == [] then s else Run(Reduce(s, actions[0]), actions[1..])
  }

  /** While the page waits there is a purchase and it is pending. */
  predicate WaitingMeansPending(s: TransactionState)
  {
    s.loading ==> s.currentTransaction.Some? && s.currentTransaction.value.status == Pending
  }

  lemma ReduceKeepsWaitingMeansPending(s: TransactionState, a: Action)
    requires WaitingMeansPending(s)
    ensures WaitingMeansPending(Reduce(s, a))
  {
  }

  /** Every state the slice can reach from its initial state waits only on a
      pending purchase, and once a purchase is followed there always is one. */
  lemma {:induction false} RunFromInitial(actions: seq<Action>)
    ensures WaitingMeansPending(Run(InitialState(), actions))
    ensures (exists i | 0 <= i < |actions| :: actions[i].SetPending?) ==>
      Run(InitialState(), actions).currentTransaction.Some?
  {
    RunKeeps(InitialState(), actions);
  }

  lemma {:induction false} RunKeeps(s: TransactionState, actions: seq<Action>)
    requires WaitingMeansPending(s)
    ensures WaitingMeansPending(Run(s, actions))
    ensures s.currentTransaction.Some? ==> Run(s, actions).currentTransaction.Some?
    ensures (exists i | 0 <= i < |actions| :: actions[i].SetPending?) ==> Run(s, actions).currentTransaction.Some?
    decreases |actions|
  {
    if actions != [] {
      var t := Reduce(s, actions[0]);
      ReduceKeepsWaitingMeansPending(s, actions[0]);
      RunKeeps(t, actions[1..]);
      if exists i | 0 <= i < |actions| :: actions[i].SetPending? {
        var i :| 0 <= i < |actions| && actions[i].SetPending?;
        if i > 0 {
          assert actions[1..][i - 1].SetPending?;
        }
      }
    }
  }

  /** The outcome reducers change nothing of the purchase but its status. */
  lemma OutcomeKeepsPurchase(s: TransactionState, e: Option<string>)
    requires s.currentTransaction.Some?
    ensures var c, d := SetTransactionComplete(s).currentTransaction.value, SetTransactionFailed(s, e).currentTransaction.value;
      && c.id == d.id == s.currentTransaction.value.id
      && c.amount == d.amount == s.currentTransaction.value.amount
      && c.reference == d.reference == s.currentTransaction.value.reference
      && c.status == Completed && d.status == Failed
  {
  }

  /** An error outlives the next purchase: starting a new one and completing it
      still shows the old error. */
  lemma StaleErrorSurvives(s: TransactionState, e: string, p: PendingPayload)
    ensures var t := Run(s, [SetFailed(Some(e)), SetPending(p), SetComplete]);
      && t.error == Some(e)
      && t.currentTransaction == Some(CurrentTransaction(p.id, Completed, p.amount, p.reference))
  {
    var actions := [SetFailed(Some(e)), SetPending(p), SetComplete];
    var s1 := SetTransactionFailed(s, Some(e));
    var s2 := SetTransactionPending(s1, p);
    assert actions[1..] == [SetPending(p), SetComplete];
    assert actions[1..][1..] == [SetComplete];
    assert Run(s2, [SetComplete]) == Run(SetTransactionComplete(s2), []);
    assert Run(s1, [SetPending(p), SetComplete]) == Run(s2, [SetComplete]);
    assert Run(s, actions) == Run(s1, [SetPending(p), SetComplete]);
  }

  /** There is no guard on the current status: a failed purchase can be
      marked completed, and back. */
  lemma NoStatusGuard(s: TransactionState)
    requires s.currentTransaction.Some? && s.currentTransaction.value.status == Failed
    ensures SetTransactionComplete(s).currentTransaction.value.status == Completed
    ensures SetTransactionFailed(SetTransactionComplete(s), None).currentTransaction == s.currentTransaction
  {
  }

  /** With no purchase followed, an outcome only stops the waiting. */
  lemma OutcomeWithoutPurchase(s: TransactionState, e: Option<string>)
    requires s.currentTransaction.None?
    ensures SetTransactionComplete(s) == s.(loading := false)
    ensures SetTransactionFailed(s, e) == s.(loading := false, error := e)
  {
  }
}
