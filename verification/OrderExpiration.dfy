/** Automatic cancellation of stale unpaid orders (worker/tasks/order_expiration.py).

    First the batch of one tenant as the worker runs it, then any number of workers and payers
    interleaving under row locks. */
module OrderExpiration {

  import opened Common

  const BATCH: nat := 100

  datatype OrderStatus = Pending | Cancelled | OtherStatus(name: string)

  datatype PaymentStatus = Unpaid | OtherPayment(name: string)

  datatype Order = Order(status: OrderStatus, payment: PaymentStatus, created: int)

  datatype Payment = Payment(order: nat, pending: bool, state: string)

  type Orders = map<nat, Order>
  type Payments = map<nat, Payment>

  predicate Stale(o: Order, cutoff: int) {
    o.status.Pending? && o.payment.Unpaid? && o.created <= cutoff
  }

  function StaleOrders(orders: Orders, cutoff: int): set<nat> {
    set o | o in orders && Stale(orders[o], cutoff)
  }

  function Expired(p: Payment): Payment {
    p.(pending := false, state := "expired")
  }

  function PendingPayments(payments: Payments, order: nat): set<nat> {
    set p | p in payments && payments[p].order == order && payments[p].pending
  }

  function CancelAll(orders: Orders, chosen: set<nat>): Orders {
    map o | o in orders :: if o in chosen then orders[o].(status := Cancelled) else orders[o]
  }

  function ExpireAll(payments: Payments, marked: set<nat>): Payments {
    map p | p in payments :: if p in marked then Expired(payments[p]) else payments[p]
  }

  // ---------------------------------------------------------------- one batch

  function Created(orders: Orders, o: nat): int {
    if o in orders then orders[o].created else 0
  }

  /** The SELECT ... ORDER BY created_at LIMIT 100 FOR UPDATE SKIP LOCKED: the oldest stale orders
      that nobody holds, up to the limit. */
  ghost predicate Batch(orders: Orders, locked: set<nat>, cutoff: int, chosen: seq<nat>) {
    var free := StaleOrders(orders, cutoff) - locked;
    && Elements(chosen) <= free && |chosen| == (if |free| <= BATCH then |free| else BATCH)
    && (forall i, j :: 0 <= i < j < |chosen| ==> chosen[i] != chosen[j])
    && (forall i, j :: 0 <= i < j < |chosen| ==> Created(orders, chosen[i]) <= Created(orders, chosen[j]))
    && (forall x, y :: x in Elements(chosen) && y in free && y !in Elements(chosen) ==>
        Created(orders, x) <= Created(orders, y))
  }

  class TenantOrders {
    var orders: Orders
    var payments: Payments
    var history: seq<nat>   // order ids of "cancelled" history rows
    var audit: seq<nat>     // order ids of "order_auto_cancelled" audit rows

    constructor (o: Orders, p: Payments)
      ensures orders == o && payments == p && history == [] && audit == []
    {
      orders, payments, history, audit := o, p, [], [];
    }

    /** The inner loop: every payment of the order that is still pending expires. */
    method ExpirePayments(order: nat)
      modifies this`payments
      ensures payments == ExpireAll(old(payments), PendingPayments(old(payments), order))
      ensures payments.Keys == old(payments).Keys
      ensures forall p :: p in payments ==>
                var was := old(payments)[p];
                payments[p] == if was.order == order && was.pending then Payment(order, false, "expired") else was
    {
      var found := PendingPayments(payments, order);
      var rest := found;
      while rest != {}
        invariant rest <= found
        invariant payments == ExpireAll(old(payments), found - rest)
      {
        var p :| p in rest;
        rest := rest - {p};
        payments := payments[p := Expired(payments[p])];
      }
      assert found - rest == found;
    }

    /** The loop over the selected orders, in one transaction. */
    method CancelBatch(chosen: seq<nat>)
      requires forall o :: o in chosen ==> o in orders
      modifies this
      ensures orders == CancelAll(old(orders), Elements(chosen))
      ensures history == old(history) + chosen && audit == old(audit) + chosen
      ensures payments == ExpireAll(old(payments), AllPending(old(payments), Elements(chosen)))
      ensures orders.Keys == old(orders).Keys && payments.Keys == old(payments).Keys
      ensures forall o :: o in orders ==>
                orders[o] == if o in chosen then old(orders)[o].(status := Cancelled) else old(orders)[o]
      ensures forall p :: p in payments ==>
                var was := old(payments)[p];
                payments[p] == if was.order in chosen && was.pending then Payment(was.order, false, "expired") else was
    {
      for i := 0 to |chosen|
        invariant orders == CancelAll(old(orders), Elements(chosen[..i]))
        invariant history == old(history) + chosen[..i] && audit == old(audit) + chosen[..i]
        invariant payments == ExpireAll(old(payments), AllPending(old(payments), Elements(chosen[..i])))
      {
        var o := chosen[i];
        assert Elements(chosen[..i + 1]) == Elements(chosen[..i]) + {o};
        ghost var before := payments;
        orders := orders[o := orders[o].(status := Cancelled)];
        history := history + [o];
        audit := audit + [o];
        ExpirePayments(o);
        ExpireNext(old(payments), Elements(chosen[..i]), o, before);
      }
      assert chosen[..|chosen|] == chosen;
    }
  }

  function AllPending(payments: Payments, chosen: set<nat>): set<nat> {
    set p | p in payments && payments[p].order in chosen && payments[p].pending
  }

  lemma ExpireNext(start: Payments, done: set<nat>, o: nat, now: Payments)
    requires now == ExpireAll(start, AllPending(start, done))
    ensures ExpireAll(now, PendingPayments(now, o)) == ExpireAll(start, AllPending(start, done + {o}))
  {
  }

  // ---------------------------------------------------------------- draining

  /** Between two runs nothing happens to the orders there are; new ones may arrive, created after
      the instant `first`. */
  ghost predicate Arrivals(before: Orders, after: Orders, first: int) {
    && (forall o :: o in before ==> o in after && after[o] == before[o])
    && (forall o :: o in after && o !in before ==> after[o].created > first)
  }

  /** Successive runs, each with a cutoff of its own not before `first`, over orders that keep
      arriving and keep becoming stale. */
  ghost predicate Drain(states: seq<Orders>, batches: seq<seq<nat>>, cutoffs: seq<int>, first: int) {
    && |states| == |batches| + 1 && |cutoffs| == |batches|
    && forall k :: 0 <= k < |batches| ==>
         && first <= cutoffs[k] && Batch(states[k], {}, cutoffs[k], batches[k])
         && Arrivals(CancelAll(states[k], Elements(batches[k])), states[k + 1], first)
  }

  /** An order that was stale and is passed over was not older than any that was chosen: then the
      whole batch was stale already. */
  lemma PassedOver(orders: Orders, first: int, cutoff: int, chosen: seq<nat>, y: nat)
    requires first <= cutoff && Batch(orders, {}, cutoff, chosen)
    requires y in StaleOrders(orders, first) && y !in Elements(chosen)
    ensures Elements(chosen) <= StaleOrders(orders, first) && |Elements(chosen)| == BATCH
  {
    var free := StaleOrders(orders, cutoff) - {};
    assert y in free;
    DistinctCount(chosen);
    forall x | x in Elements(chosen) ensures x in StaleOrders(orders, first) {
      assert Created(orders, x) <= Created(orders, y);
    }
    ProperIsSmaller(Elements(chosen), free, y);
  }

  lemma ProperIsSmaller(a: set<nat>, b: set<nat>, y: nat)
    requires a <= b && y in b && y !in a
    ensures |a| < |b|
  {
    assert b == a + (b - a);
    assert y in b - a;
  }

  lemma SubsetIsSmaller(a: set<nat>, b: set<nat>)
    requires a <= b
    ensures |a| <= |b|
  {
    assert b == a + (b - a);
  }

  lemma CancelTakes(orders: Orders, first: int, batch: set<nat>)
    ensures StaleOrders(CancelAll(orders, batch), first) == StaleOrders(orders, first) - batch
  {
  }

  /** One run takes a hundred of the orders that were stale at `first`, or all of them, however many
      others have become stale since. */
  lemma RunShrinks(orders: Orders, first: int, cutoff: int, chosen: seq<nat>)
    requires first <= cutoff && Batch(orders, {}, cutoff, chosen)
    ensures var left := |StaleOrders(CancelAll(orders, Elements(chosen)), first)|;
            left == if |StaleOrders(orders, first)| <= BATCH then 0 else |StaleOrders(orders, first)| - BATCH
  {
    var stale, batch := StaleOrders(orders, first), Elements(chosen);
    CancelTakes(orders, first, batch);
    assert |batch| <= BATCH by { DistinctCount(chosen); }
    if y :| y in stale - batch {
      PassedOver(orders, first, cutoff, chosen, y);
      assert stale == (stale - batch) + batch;
    } else {
      assert stale - batch == {};
      SubsetIsSmaller(stale, batch);
    }
  }

  lemma ArrivalsAreFresh(before: Orders, after: Orders, first: int)
    requires Arrivals(before, after, first)
    ensures StaleOrders(after, first) == StaleOrders(before, first)
  {
  }

  /** Of n orders stale at `first`, n - 100k are left after k runs, or none. */
  lemma {:induction false} Drained(states: seq<Orders>, batches: seq<seq<nat>>, cutoffs: seq<int>, first: int, k: nat)
    requires Drain(states, batches, cutoffs, first) && k < |states|
    ensures var n := |StaleOrders(states[0], first)|;
            |StaleOrders(states[k], first)| == if n <= k * BATCH then 0 else n - k * BATCH
  {
    if k > 0 {
      Drained(states, batches, cutoffs, first, k - 1);
      var before, batch := states[k - 1], batches[k - 1];
      assert first <= cutoffs[k - 1] && Batch(before, {}, cutoffs[k - 1], batch);
      RunShrinks(before, first, cutoffs[k - 1], batch);
      assert Arrivals(CancelAll(before, Elements(batch)), states[k - 1 + 1], first);
      ArrivalsAreFresh(CancelAll(before, Elements(batch)), states[k], first);
    }
  }

  function Ceiling(n: nat): nat {
    (n + BATCH - 1) / BATCH
  }

  /** They are gone after ceil(n/100) runs, and not before. */
  lemma DrainedInCeiling(states: seq<Orders>, batches: seq<seq<nat>>, cutoffs: seq<int>, first: int, k: nat)
    requires Drain(states, batches, cutoffs, first) && k < |states|
    ensures StaleOrders(states[k], first) == {} <==> k >= Ceiling(|StaleOrders(states[0], first)|)
  {
    Drained(states, batches, cutoffs, first, k);
    var n := |StaleOrders(states[0], first)|;
    assert n <= k * BATCH <==> k >= Ceiling(n);
  }

  // ---------------------------------------------------------------- workers and payers together

  /** An open transaction: a worker with its batch, or somebody else holding one order. */
  datatype Txn =
    | Worker(cutoff: int, batch: set<nat>, done: seq<nat>, marked: set<nat>)
    | Payer(order: nat)

  datatype State = State(orders: Orders, payments: Payments, history: seq<nat>, audit: seq<nat>, txns: map<nat, Txn>)

  function Held(t: Txn): set<nat> {
    match t
    case Worker(_, batch, _, _) => batch
    case Payer(order) => {order}
  }

  predicate Free(st: State, o: nat) {
    forall t :: t in st.txns ==> o !in Held(st.txns[t])
  }

  datatype Event =
    | Select(t: nat, cutoff: int, batch: set<nat>)        // lock stale orders nobody holds
    | Cancel(t: nat, order: nat)                          // one turn of the worker's loop
    | Commit(t: nat)
    | Abort(t: nat)
    | Lock(t: nat, order: nat)                            // a payer, a cook or an admin
    | Update(t: nat, value: Order)                        // ... writes the order and commits
    | SetPayment(p: nat, payment: Payment)                // payments change without the order's lock
    | Arrive(o: nat, value: Order)

  /** Which writes to an order other transactions make. */
  type Policy = (Order, Order) -> bool

  function Step(policy: Policy, st: State, e: Event): Option<State> {
    match e
    case Select(t, cutoff, batch) =>
      if t in st.txns || |batch| > BATCH
         || exists o :: o in batch && !(o in StaleOrders(st.orders, cutoff) && Free(st, o))
      then None
      else Some(st.(txns := st.txns[t := Worker(cutoff, batch, [], {})]))
    case Cancel(t, o) =>
      if t !in st.txns || !st.txns[t].Worker? || o !in st.txns[t].batch || o in st.txns[t].done then None
      else
        var w := st.txns[t];
        Some(st.(txns := st.txns[t := w.(done := w.done + [o], marked := w.marked + PendingPayments(st.payments, o))]))
    case Commit(t) =>
      if t !in st.txns || !st.txns[t].Worker? || exists o :: o in st.txns[t].batch && o !in st.txns[t].done then None
      else
        var w := st.txns[t];
        Some(State(CancelAll(st.orders, w.batch), ExpireAll(st.payments, w.marked),
                   st.history + w.done, st.audit + w.done, st.txns - {t}))
    case Abort(t) => if t !in st.txns then None else Some(st.(txns := st.txns - {t}))
    case Lock(t, o) =>
      if t in st.txns || o !in st.orders || !Free(st, o) then None else Some(st.(txns := st.txns[t := Payer(o)]))
    case Update(t, order) =>
      if t !in st.txns || !st.txns[t].Payer? || st.txns[t].order !in st.orders
         || !policy(st.orders[st.txns[t].order], order) then None
      else Some(st.(orders := st.orders[st.txns[t].order := order], txns := st.txns - {t}))
    case SetPayment(p, payment) => Some(st.(payments := st.payments[p := payment]))
    case Arrive(o, order) =>
      if o in st.orders then None else Some(st.(orders := st.orders[o := order]))
  }

  function Run(policy: Policy, st: State, es: seq<Event>): Option<State>
    decreases |es|
  {
    if es == [] then Some(st)
    else
      match Step(policy, st, es[0])
      case None => None
      case Some(next) => Run(policy, next, es[1..])
  }

  const INIT := State(map[], map[], [], [], map[])

  /** A worker's orders stay stale and its own until it commits. */
  ghost predicate WorkerOk(st: State, t: nat)
    requires t in st.txns && st.txns[t].Worker?
  {
    var w := st.txns[t];
    && |w.batch| <= BATCH
    && (forall o :: o in w.batch ==> o in st.orders && Stale(st.orders[o], w.cutoff))
    && (forall i :: 0 <= i < |w.done| ==> w.done[i] in w.batch)
    && (forall i, j :: 0 <= i < j < |w.done| ==> w.done[i] != w.done[j])
  }

  ghost predicate LocksApart(st: State) {
    forall t, u :: t in st.txns && u in st.txns && t != u ==> Held(st.txns[t]) !! Held(st.txns[u])
  }

  /** As many audit rows as history rows, all for orders that exist. */
  ghost predicate RowsOk(st: State) {
    st.audit == st.history && forall i :: 0 <= i < |st.history| ==> st.history[i] in st.orders
  }

  ghost predicate Inv(st: State) {
    (forall t :: t in st.txns && st.txns[t].Worker? ==> WorkerOk(st, t)) && LocksApart(st) && RowsOk(st)
  }

  lemma CommitKeepsRows(policy: Policy, st: State, t: nat)
    requires Inv(st) && Step(policy, st, Commit(t)).Some?
    ensures RowsOk(Step(policy, st, Commit(t)).value)
  {
    assert WorkerOk(st, t);
  }

  lemma StepKeepsWorkers(policy: Policy, st: State, e: Event, t: nat)
    requires Inv(st) && Step(policy, st, e).Some? && t in Step(policy, st, e).value.txns
    requires Step(policy, st, e).value.txns[t].Worker?
    ensures WorkerOk(Step(policy, st, e).value, t)
  {
    var next := Step(policy, st, e).value;
    if t in st.txns { assert WorkerOk(st, t); }
    match e
    case Commit(u) => assert Held(st.txns[u]) !! Held(st.txns[t]);
    case Update(u, order) => assert Held(st.txns[u]) !! Held(st.txns[t]);
    case _ =>
  }

  lemma StepKeepsInv(policy: Policy, st: State, e: Event)
    requires Inv(st) && Step(policy, st, e).Some?
    ensures Inv(Step(policy, st, e).value)
  {
    var next := Step(policy, st, e).value;
    forall t | t in next.txns && next.txns[t].Worker? ensures WorkerOk(next, t) {
      StepKeepsWorkers(policy, st, e, t);
    }
    if e.Commit? { CommitKeepsRows(policy, st, e.t); }
  }

  lemma {:induction false} RunKeepsInv(policy: Policy, st: State, es: seq<Event>)
    requires Inv(st) && Run(policy, st, es).Some?
    ensures Inv(Run(policy, st, es).value)
    decreases |es|
  {
    if es != [] {
      StepKeepsInv(policy, st, es[0]);
      RunKeepsInv(policy, Step(policy, st, es[0]).value, es[1..]);
    }
  }

  /** A commit cancels only orders that are, at that instant, pending, unpaid and old enough; it
      cancels all it selected, writes one row for each, and expires every payment it read. */
  lemma CommitCancelsStaleOnly(policy: Policy, es: seq<Event>, t: nat)
    requires Run(policy, INIT, es).Some? && Step(policy, Run(policy, INIT, es).value, Commit(t)).Some?
    ensures var st := Run(policy, INIT, es).value;
            var next := Step(policy, st, Commit(t)).value;
            var w := st.txns[t];
            && (forall o :: o in w.batch ==>
                  && o in st.orders && st.orders[o].status == Pending && st.orders[o].payment == Unpaid
                  && st.orders[o].created <= w.cutoff
                  && next.orders[o] == st.orders[o].(status := Cancelled))
            && (forall o :: o in st.orders && o !in w.batch ==> next.orders[o] == st.orders[o])
            && next.history == st.history + w.done && next.audit == st.audit + w.done
            && (forall o :: o in w.done <==> o in w.batch)
            && (forall o :: Cancellations(next, o) == Cancellations(st, o) + if o in w.batch then 1 else 0)
            && (forall p :: p in st.payments ==>
                  && p in next.payments && next.payments[p].order == st.payments[p].order
                  && next.payments[p] == if p in w.marked then Payment(st.payments[p].order, false, "expired")
                                         else st.payments[p])
            && |w.batch| <= BATCH
  {
    RunKeepsInv(policy, INIT, es);
    var st := Run(policy, INIT, es).value;
    assert WorkerOk(st, t);
    forall o ensures Cancellations(Step(policy, st, Commit(t)).value, o) ==
                       Cancellations(st, o) + if o in st.txns[t].batch then 1 else 0
    {
      CommitCounts(policy, st, t, o);
    }
  }

  /** Until it ends, a worker forgets none of the payments it has marked. */
  lemma {:induction false} MarksKept(policy: Policy, st: State, es: seq<Event>, t: nat)
    requires t in st.txns && st.txns[t].Worker? && Run(policy, st, es).Some?
    requires forall i :: 0 <= i < |es| ==> es[i] != Commit(t) && es[i] != Abort(t)
    ensures var end := Run(policy, st, es).value;
            t in end.txns && end.txns[t].Worker? && st.txns[t].marked <= end.txns[t].marked
    decreases |es|
  {
    if es != [] {
      assert es[0] != Commit(t) && es[0] != Abort(t);
      MarksKept(policy, Step(policy, st, es[0]).value, es[1..], t);
    }
  }

  /** The payments that were pending when the worker reached an order expire in its commit. */
  lemma PaymentsExpireTogether(policy: Policy, st: State, t: nat, order: nat, es: seq<Event>, p: nat)
    requires Step(policy, st, Cancel(t, order)).Some? && p in PendingPayments(st.payments, order)
    requires forall i :: 0 <= i < |es| ==> es[i] != Commit(t) && es[i] != Abort(t)
    requires Run(policy, Step(policy, st, Cancel(t, order)).value, es).Some?
    requires Step(policy, Run(policy, Step(policy, st, Cancel(t, order)).value, es).value, Commit(t)).Some?
    ensures var before := Run(policy, Step(policy, st, Cancel(t, order)).value, es).value;
            p in before.payments ==>
              Step(policy, before, Commit(t)).value.payments[p] == Payment(before.payments[p].order, false, "expired")
  {
    MarksKept(policy, Step(policy, st, Cancel(t, order)).value, es, t);
  }

  // ---------------------------------------------------------------- a worker alone

  /** The transaction of a worker that has handled the first k orders of its batch. */
  function Working(st: State, cutoff: int, chosen: seq<nat>, k: nat): Txn
    requires k <= |chosen|
  {
    Worker(cutoff, Elements(chosen), chosen[..k], AllPending(st.payments, Elements(chosen[..k])))
  }

  /** The turns of the loop. */
  lemma {:induction false} WorkRun(policy: Policy, st: State, t: nat, cutoff: int, chosen: seq<nat>, k: nat)
    returns (es: seq<Event>)
    requires t !in st.txns && k <= |chosen| && forall i, j :: 0 <= i < j < |chosen| ==> chosen[i] != chosen[j]
    ensures Run(policy, st.(txns := st.txns[t := Working(st, cutoff, chosen, 0)]), es) ==
              Some(st.(txns := st.txns[t := Working(st, cutoff, chosen, k)]))
    decreases k
  {
    if k == 0 {
      es := [];
    } else {
      var before := WorkRun(policy, st, t, cutoff, chosen, k - 1);
      var mid := st.(txns := st.txns[t := Working(st, cutoff, chosen, k - 1)]);
      var end := st.(txns := st.txns[t := Working(st, cutoff, chosen, k)]);
      WorkStep(policy, st, t, cutoff, chosen, k - 1);
      RunOne(policy, mid, Cancel(t, chosen[k - 1]), end);
      var start := st.(txns := st.txns[t := Working(st, cutoff, chosen, 0)]);
      RunThen(policy, start, before, mid, [Cancel(t, chosen[k - 1])], end);
      es := before + [Cancel(t, chosen[k - 1])];
    }
  }

  lemma WorkStep(policy: Policy, st: State, t: nat, cutoff: int, chosen: seq<nat>, k: nat)
    requires t !in st.txns && k < |chosen| && forall i, j :: 0 <= i < j < |chosen| ==> chosen[i] != chosen[j]
    ensures Step(policy, st.(txns := st.txns[t := Working(st, cutoff, chosen, k)]), Cancel(t, chosen[k])) ==
              Some(st.(txns := st.txns[t := Working(st, cutoff, chosen, k + 1)]))
  {
    var next := Working(st, cutoff, chosen, k + 1);
    assert chosen[..k + 1] == chosen[..k] + [chosen[k]];
    assert AllPending(st.payments, Elements(chosen[..k])) + PendingPayments(st.payments, chosen[k]) == next.marked;
    assert st.txns[t := Working(st, cutoff, chosen, k)][t := next] == st.txns[t := next];
  }

  lemma RunOne(policy: Policy, st: State, e: Event, end: State)
    requires Step(policy, st, e) == Some(end)
    ensures Run(policy, st, [e]) == Some(end)
  {
    assert [e][1..] == [];
  }

  /** The tables after a batch was cancelled. */
  ghost function Done(st: State, chosen: seq<nat>): State {
    State(CancelAll(st.orders, Elements(chosen)), ExpireAll(st.payments, AllPending(st.payments, Elements(chosen))),
          st.history + chosen, st.audit + chosen, st.txns)
  }

  lemma FinishRun(policy: Policy, st: State, t: nat, cutoff: int, chosen: seq<nat>) returns (es: seq<Event>)
    requires t !in st.txns
    ensures Run(policy, st.(txns := st.txns[t := Working(st, cutoff, chosen, |chosen|)]), es) == Some(Done(st, chosen))
  {
    var st' := st.(txns := st.txns[t := Working(st, cutoff, chosen, |chosen|)]);
    assert chosen[..|chosen|] == chosen && st'.txns - {t} == st.txns;
    RunOne(policy, st', Commit(t), Done(st, chosen));
    es := [Commit(t)];
  }

  lemma SelectRun(policy: Policy, st: State, t: nat, cutoff: int, chosen: seq<nat>) returns (es: seq<Event>)
    requires t !in st.txns && Batch(st.orders, LockedOrders(st), cutoff, chosen)
    ensures Run(policy, st, es) == Some(st.(txns := st.txns[t := Working(st, cutoff, chosen, 0)]))
  {
    SelectStep(policy, st, t, cutoff, chosen);
    RunOne(policy, st, Select(t, cutoff, Elements(chosen)), st.(txns := st.txns[t := Working(st, cutoff, chosen, 0)]));
    es := [Select(t, cutoff, Elements(chosen))];
  }

  /** Whatever the SELECT finds among the orders that nobody holds, the worker can take, cancel and
      commit; the effect is that of its loop on the tables. */
  lemma WorkerGoesThrough(policy: Policy, st: State, t: nat, cutoff: int, chosen: seq<nat>) returns (es: seq<Event>)
    requires t !in st.txns && Batch(st.orders, LockedOrders(st), cutoff, chosen)
    ensures Run(policy, st, es) == Some(Done(st, chosen))
  {
    var s1 := st.(txns := st.txns[t := Working(st, cutoff, chosen, 0)]);
    var s2 := st.(txns := st.txns[t := Working(st, cutoff, chosen, |chosen|)]);
    var select := SelectRun(policy, st, t, cutoff, chosen);
    var work := WorkRun(policy, st, t, cutoff, chosen, |chosen|);
    var finish := FinishRun(policy, st, t, cutoff, chosen);
    RunThen(policy, st, select, s1, work, s2);
    RunThen(policy, st, select + work, s2, finish, Done(st, chosen));
    es := select + work + finish;
  }

  /** The orders that open transactions hold. */
  ghost function LockedOrders(st: State): set<nat> {
    set o | o in st.orders && !Free(st, o)
  }

  lemma SelectStep(policy: Policy, st: State, t: nat, cutoff: int, chosen: seq<nat>)
    requires t !in st.txns && Batch(st.orders, LockedOrders(st), cutoff, chosen)
    ensures Step(policy, st, Select(t, cutoff, Elements(chosen))) ==
              Some(st.(txns := st.txns[t := Working(st, cutoff, chosen, 0)]))
  {
    DistinctCount(chosen);
    assert chosen[..0] == [] && Elements(chosen[..0]) == {} && AllPending(st.payments, {}) == {};
    assert forall o :: o in Elements(chosen) ==> o in StaleOrders(st.orders, cutoff) && Free(st, o);
  }

  // ---------------------------------------------------------------- how often an order is cancelled

  /** How many cancellations of an order are on record. */
  function Cancellations(st: State, o: nat): nat {
    multiset(st.history)[o]
  }

  /** Somebody else's write puts the order back to pending. */
  predicate Reopens(st: State, e: Event, o: nat) {
    && e.Update? && e.t in st.txns && st.txns[e.t] == Payer(o)
    && o in st.orders && !st.orders[o].status.Pending? && e.value.status.Pending?
  }

  function Reopenings(policy: Policy, st: State, es: seq<Event>, o: nat): nat
    decreases |es|
  {
    if es == [] || Step(policy, st, es[0]).None? then 0
    else (if Reopens(st, es[0], o) then 1 else 0) + Reopenings(policy, Step(policy, st, es[0]).value, es[1..], o)
  }

  /** Cancellations on record, and one more while the order can still be cancelled. */
  function Weight(st: State, o: nat): nat {
    Cancellations(st, o) + if o in st.orders && st.orders[o].status.Pending? then 1 else 0
  }

  function Present(st: State, o: nat): nat {
    if o in st.orders then 1 else 0
  }

  lemma {:induction false} OnceInDistinct(s: seq<nat>, o: nat)
    requires forall i, j :: 0 <= i < j < |s| ==> s[i] != s[j]
    ensures multiset(s)[o] == if o in s then 1 else 0
  {
    if s != [] {
      var front, last := s[..|s| - 1], s[|s| - 1];
      assert s == front + [last];
      OnceInDistinct(front, o);
    }
  }

  lemma CommitCounts(policy: Policy, st: State, t: nat, o: nat)
    requires Inv(st) && Step(policy, st, Commit(t)).Some?
    ensures Cancellations(Step(policy, st, Commit(t)).value, o) ==
              Cancellations(st, o) + if o in st.txns[t].batch then 1 else 0
  {
    var w := st.txns[t];
    assert WorkerOk(st, t);
    OnceInDistinct(w.done, o);
    assert o in w.done <==> o in w.batch;
    assert multiset(st.history + w.done)[o] == multiset(st.history)[o] + multiset(w.done)[o];
  }

  lemma CommitWeight(policy: Policy, st: State, t: nat, o: nat)
    requires Inv(st) && Step(policy, st, Commit(t)).Some?
    ensures Weight(Step(policy, st, Commit(t)).value, o) == Weight(st, o)
  {
    CommitCounts(policy, st, t, o);
    assert WorkerOk(st, t);
  }

  lemma StepWeight(policy: Policy, st: State, e: Event, o: nat)
    requires Inv(st) && Step(policy, st, e).Some?
    ensures var next := Step(policy, st, e).value;
            && Present(st, o) <= Present(next, o)
            && Weight(next, o) + Present(st, o) <= Weight(st, o) + Present(next, o) + if Reopens(st, e, o) then 1 else 0
  {
    if e.Commit? { CommitWeight(policy, st, e.t, o); }
  }

  lemma {:induction false} RunWeight(policy: Policy, st: State, es: seq<Event>, o: nat)
    requires Inv(st) && Run(policy, st, es).Some?
    ensures var end := Run(policy, st, es).value;
            Weight(end, o) + Present(st, o) <= Weight(st, o) + Present(end, o) + Reopenings(policy, st, es, o)
    decreases |es|
  {
    if es != [] {
      StepWeight(policy, st, es[0], o);
      StepKeepsInv(policy, st, es[0]);
      RunWeight(policy, Step(policy, st, es[0]).value, es[1..], o);
    }
  }

  /** In every interleaving, and whatever other transactions write: an order is cancelled at most
      once more than it was reopened, with one history row and one audit row each time. */
  lemma CancelledOncePerOpening(policy: Policy, es: seq<Event>, o: nat)
    requires Run(policy, INIT, es).Some?
    ensures var end := Run(policy, INIT, es).value;
            && Cancellations(end, o) <= 1 + Reopenings(policy, INIT, es, o)
            && (o in end.orders && end.orders[o].status.Pending? ==>
                Cancellations(end, o) <= Reopenings(policy, INIT, es, o))
            && end.audit == end.history
  {
    RunWeight(policy, INIT, es, o);
    RunKeepsInv(policy, INIT, es);
  }

  // ---------------------------------------------------------------- at most once, exactly when

  /** Successive contents of an order that other transactions write. */
  ghost predicate Chain(policy: Policy, cs: seq<Order>) {
    |cs| >= 1 && forall i :: 0 <= i < |cs| - 1 ==> policy(cs[i], cs[i + 1])
  }

  /** Other transactions can turn an order that a worker cancelled into b. */
  ghost predicate FromCancelled(policy: Policy, b: Order) {
    exists cs: seq<Order> :: Chain(policy, cs) && cs[0].status.Cancelled? && cs[0].payment.Unpaid? && cs[|cs| - 1] == b
  }

  /** ... into one that is pending and unpaid again. */
  ghost predicate CanReopen(policy: Policy) {
    exists b: Order :: FromCancelled(policy, b) && b.status.Pending? && b.payment.Unpaid?
  }

  ghost predicate AtMostOnce(policy: Policy) {
    forall es, o :: Run(policy, INIT, es).Some? ==> Cancellations(Run(policy, INIT, es).value, o) <= 1
  }

  lemma FromCancelledNext(policy: Policy, a: Order, b: Order)
    requires FromCancelled(policy, a) && policy(a, b)
    ensures FromCancelled(policy, b)
  {
    var cs: seq<Order> :| Chain(policy, cs) && cs[0].status.Cancelled? && cs[0].payment.Unpaid? && cs[|cs| - 1] == a;
    var longer := cs + [b];
    assert Chain(policy, longer) && longer[0] == cs[0] && longer[|longer| - 1] == b;
  }

  lemma CancelledIsFromCancelled(policy: Policy, a: Order)
    requires a.status.Cancelled? && a.payment.Unpaid?
    ensures FromCancelled(policy, a)
  {
    var cs := [a];
    assert Chain(policy, cs) && cs[0] == a && cs[|cs| - 1] == a;
  }

  /** An order on record was cancelled by a worker and has since only been written by others. */
  ghost predicate RecordedFromCancelled(policy: Policy, st: State) {
    && (forall o :: o in st.history ==> o in st.orders && FromCancelled(policy, st.orders[o]))
    && forall o :: Cancellations(st, o) <= 1
  }

  lemma CommitKeepsRecorded(policy: Policy, st: State, t: nat)
    requires !CanReopen(policy) && Inv(st) && RecordedFromCancelled(policy, st) && Step(policy, st, Commit(t)).Some?
    ensures RecordedFromCancelled(policy, Step(policy, st, Commit(t)).value)
  {
    var next := Step(policy, st, Commit(t)).value;
    var w := st.txns[t];
    assert WorkerOk(st, t);
    forall o | o in w.batch ensures o in next.orders && FromCancelled(policy, next.orders[o]) && o !in st.history {
      assert Stale(st.orders[o], w.cutoff);
      CancelledIsFromCancelled(policy, next.orders[o]);
    }
    forall o ensures Cancellations(next, o) <= 1 {
      CommitCounts(policy, st, t, o);
      assert o !in st.history ==> Cancellations(st, o) == 0;
    }
  }

  lemma StepKeepsRecorded(policy: Policy, st: State, e: Event)
    requires !CanReopen(policy) && Inv(st) && RecordedFromCancelled(policy, st) && Step(policy, st, e).Some?
    ensures RecordedFromCancelled(policy, Step(policy, st, e).value)
  {
    var next := Step(policy, st, e).value;
    if e.Commit? {
      CommitKeepsRecorded(policy, st, e.t);
    } else {
      assert next.history == st.history;
      forall o ensures Cancellations(next, o) <= 1 {
        assert Cancellations(next, o) == Cancellations(st, o);
      }
      forall o | o in st.history ensures o in next.orders && FromCancelled(policy, next.orders[o]) {
        if next.orders[o] != st.orders[o] { FromCancelledNext(policy, st.orders[o], next.orders[o]); }
      }
    }
  }

  lemma {:induction false} RunKeepsRecorded(policy: Policy, st: State, es: seq<Event>)
    requires !CanReopen(policy) && Inv(st) && RecordedFromCancelled(policy, st) && Run(policy, st, es).Some?
    ensures RecordedFromCancelled(policy, Run(policy, st, es).value)
    decreases |es|
  {
    if es != [] {
      StepKeepsInv(policy, st, es[0]);
      StepKeepsRecorded(policy, st, es[0]);
      RunKeepsRecorded(policy, Step(policy, st, es[0]).value, es[1..]);
    }
  }

  lemma {:induction false} RunSplits(policy: Policy, st: State, xs: seq<Event>, ys: seq<Event>)
    requires Run(policy, st, xs).Some?
    ensures Run(policy, st, xs + ys) == Run(policy, Run(policy, st, xs).value, ys)
    decreases |xs|
  {
    if xs == [] {
      assert xs + ys == ys;
    } else {
      assert (xs + ys)[1..] == xs[1..] + ys;
      RunSplits(policy, Step(policy, st, xs[0]).value, xs[1..], ys);
    }
  }

  lemma RunThen(policy: Policy, st: State, xs: seq<Event>, mid: State, ys: seq<Event>, end: State)
    requires Run(policy, st, xs) == Some(mid) && Run(policy, mid, ys) == Some(end)
    ensures Run(policy, st, xs + ys) == Some(end)
  {
    RunSplits(policy, st, xs, ys);
  }

  /** Order 0 alone, with so many cancellations on record, and nobody at work. */
  function Alone(value: Order, times: nat): State {
    var rows := seq(times, _ => 0);
    State(map[0 := value], map[], rows, rows, map[])
  }

  lemma RunTwo(policy: Policy, st: State, a: Event, b: Event, s1: State, s2: State)
    requires Step(policy, st, a) == Some(s1) && Step(policy, s1, b) == Some(s2)
    ensures Run(policy, st, [a, b]) == Some(s2)
  {
    assert [a, b][1..] == [b] && [b][1..] == [];
    assert Run(policy, s2, []) == Some(s2);
    assert Run(policy, s1, [b]) == Some(s2);
  }

  lemma RunThree(policy: Policy, st: State, a: Event, b: Event, c: Event, s1: State, s2: State, s3: State)
    requires Step(policy, st, a) == Some(s1) && Step(policy, s1, b) == Some(s2) && Step(policy, s2, c) == Some(s3)
    ensures Run(policy, st, [a, b, c]) == Some(s3)
  {
    RunTwo(policy, s1, b, c, s2, s3);
    assert [a, b, c][1..] == [b, c];
  }

  lemma ArriveRun(policy: Policy, value: Order) returns (es: seq<Event>)
    ensures Run(policy, INIT, es) == Some(Alone(value, 0))
  {
    es := [Arrive(0, value)];
    assert [Arrive(0, value)][1..] == [];
    assert INIT.orders[0 := value] == map[0 := value] && seq(0, _ => 0) == [];
    assert Step(policy, INIT, Arrive(0, value)) == Some(Alone(value, 0));
    assert Run(policy, Alone(value, 0), []) == Some(Alone(value, 0));
  }

  /** A worker cancels order 0. */
  lemma CancelRun(policy: Policy, value: Order, times: nat) returns (es: seq<Event>)
    requires Stale(value, value.created)
    ensures Run(policy, Alone(value, times), es) == Some(Alone(value.(status := Cancelled), times + 1))
  {
    var st := Alone(value, times);
    var s1 := st.(txns := map[0 := Worker(value.created, {0}, [], {})]);
    var s2 := st.(txns := map[0 := Worker(value.created, {0}, [0], {})]);
    var s3 := Alone(value.(status := Cancelled), times + 1);
    assert st.txns[0 := Worker(value.created, {0}, [], {})] == s1.txns;
    assert Step(policy, st, Select(0, value.created, {0})) == Some(s1);
    var w := s1.txns[0];
    assert PendingPayments(st.payments, 0) == {} && w.marked + {} == {} && w.done + [0] == [0];
    assert s1.txns[0 := Worker(value.created, {0}, [0], {})] == s2.txns;
    assert Step(policy, s1, Cancel(0, 0)) == Some(s2);
    assert seq(times, _ => 0) + [0] == seq(times + 1, _ => 0);
    assert CancelAll(st.orders, {0}) == s3.orders && ExpireAll(st.payments, {}) == map[] && s2.txns - {0} == map[];
    assert Step(policy, s2, Commit(0)) == Some(s3);
    RunThree(policy, st, Select(0, value.created, {0}), Cancel(0, 0), Commit(0), s1, s2, s3);
    es := [Select(0, value.created, {0}), Cancel(0, 0), Commit(0)];
  }

  /** Somebody else writes order 0. */
  lemma WriteRun(policy: Policy, a: Order, b: Order, times: nat) returns (es: seq<Event>)
    requires policy(a, b)
    ensures Run(policy, Alone(a, times), es) == Some(Alone(b, times))
  {
    es := [Lock(0, 0), Update(0, b)];
    var st := Alone(a, times);
    var s1 := st.(txns := map[0 := Payer(0)]);
    assert st.txns[0 := Payer(0)] == s1.txns && s1.txns - {0} == map[];
    assert st.orders[0 := b] == Alone(b, times).orders;
    RunTwo(policy, st, Lock(0, 0), Update(0, b), s1, Alone(b, times));
  }

  lemma {:induction false} ChainRun(policy: Policy, cs: seq<Order>, times: nat) returns (es: seq<Event>)
    requires Chain(policy, cs)
    ensures Run(policy, Alone(cs[0], times), es) == Some(Alone(cs[|cs| - 1], times))
    decreases |cs|
  {
    if |cs| == 1 {
      es := [];
    } else {
      var front := cs[..|cs| - 1];
      var before := ChainRun(policy, front, times);
      var a, b := cs[|cs| - 2], cs[|cs| - 1];
      assert policy(a, b);
      var last := WriteRun(policy, a, b, times);
      RunThen(policy, Alone(cs[0], times), before, Alone(a, times), last, Alone(b, times));
      es := before + last;
    }
  }

  /** A run in which order 0 arrives, is cancelled, and is written by others along a chain. */
  lemma ReopenedRun(policy: Policy, cs: seq<Order>) returns (es: seq<Event>)
    requires Chain(policy, cs) && cs[0].status.Cancelled? && cs[0].payment.Unpaid?
    ensures Run(policy, INIT, es) == Some(Alone(cs[|cs| - 1], 1))
  {
    var first := cs[0].(status := Pending);
    var arrive := ArriveRun(policy, first);
    var cancel := CancelRun(policy, first, 0);
    RunThen(policy, INIT, arrive, Alone(first, 0), cancel, Alone(cs[0], 1));
    var reopen := ChainRun(policy, cs, 1);
    RunThen(policy, INIT, arrive + cancel, Alone(cs[0], 1), reopen, Alone(cs[|cs| - 1], 1));
    es := arrive + cancel + reopen;
  }

  /** A run in which one order is cancelled twice. */
  lemma CancelledTwice(policy: Policy) returns (es: seq<Event>)
    requires CanReopen(policy)
    ensures Run(policy, INIT, es).Some? && Run(policy, INIT, es).value.history == [0, 0]
  {
    var b: Order :| FromCancelled(policy, b) && b.status.Pending? && b.payment.Unpaid?;
    var cs: seq<Order> :| Chain(policy, cs) && cs[0].status.Cancelled? && cs[0].payment.Unpaid? && cs[|cs| - 1] == b;
    var reopened := ReopenedRun(policy, cs);
    var again := CancelRun(policy, b, 1);
    var end := Alone(b.(status := Cancelled), 2);
    RunThen(policy, INIT, reopened, Alone(b, 1), again, end);
    es := reopened + again;
    assert end.history == [0, 0];
  }

  /** Every order is cancelled at most once in all runs if and only if no chain of other writes leads
      from a cancelled unpaid order to a pending unpaid one. */
  lemma AtMostOnceIff(policy: Policy)
    ensures AtMostOnce(policy) <==> !CanReopen(policy)
  {
    if CanReopen(policy) {
      var es := CancelledTwice(policy);
      assert Cancellations(Run(policy, INIT, es).value, 0) == 2;
    } else {
      forall es, o | Run(policy, INIT, es).Some? ensures Cancellations(Run(policy, INIT, es).value, o) <= 1 {
        RunKeepsRecorded(policy, INIT, es);
      }
    }
  }

  // ---------------------------------------------------------------- the two authorities

  /** `VALID_TRANSITIONS`, with the queueing of confirmed orders, the repeated delivery and the
      reopening of a ready order by a kitchen station. */
  function Successors(s: OrderStatus): set<string> {
    match s
    case Pending => {"confirmed", "queued", "cancelled", "rejected"}
    case Cancelled => {}
    case OtherStatus(name) =>
      if name == "confirmed" then {"preparing", "cancelled"}
      else if name == "queued" then {"confirmed", "queued", "cancelled"}
      else if name == "preparing" then {"ready", "cancelled"}
      else if name == "ready" then {"out_for_delivery", "delivered", "preparing"}
      else if name == "out_for_delivery" then {"delivered", "cancelled", "delivery_failed"}
      else if name == "delivery_failed" then {"ready"}
      else {}
  }

  function Name(s: OrderStatus): string {
    match s
    case Pending => "pending"
    case Cancelled => "cancelled"
    case OtherStatus(name) => name
  }

  /** Internal authority: within the graph, or the status stays. */
  function Internal(): Policy {
    (a: Order, b: Order) => b.status == a.status || Name(b.status) in Successors(a.status)
  }

  /** External authority: whatever the other system says. */
  function External(): Policy {
    (a: Order, b: Order) => true
  }

  lemma {:induction false} StaysCancelled(cs: seq<Order>, k: nat)
    requires Chain(Internal(), cs) && cs[0].status.Cancelled? && k < |cs|
    ensures cs[k].status.Cancelled?
  {
    if k > 0 {
      StaysCancelled(cs, k - 1);
      assert Internal()(cs[k - 1], cs[k - 1 + 1]);
    }
  }

  /** While everybody follows the order graph an order is cancelled at most once. */
  lemma CancelledAtMostOnce(es: seq<Event>, o: nat)
    requires Run(Internal(), INIT, es).Some?
    ensures Cancellations(Run(Internal(), INIT, es).value, o) <= 1
  {
    if CanReopen(Internal()) {
      var b: Order :| FromCancelled(Internal(), b) && b.status.Pending? && b.payment.Unpaid?;
      var cs: seq<Order> :|
        Chain(Internal(), cs) && cs[0].status.Cancelled? && cs[0].payment.Unpaid? && cs[|cs| - 1] == b;
      StaysCancelled(cs, |cs| - 1);
      assert false;
    }
    AtMostOnceIff(Internal());
  }

  /** An external authority can reopen an order, which is then cancelled a second time. */
  lemma ExternalCancelsTwice() returns (es: seq<Event>)
    ensures Run(External(), INIT, es).Some? && Run(External(), INIT, es).value.history == [0, 0]
  {
    var a, b := Order(Cancelled, Unpaid, 0), Order(Pending, Unpaid, 0);
    assert Chain(External(), [a, b]) && [a, b][|[a, b]| - 1] == b;
    assert FromCancelled(External(), b);
    es := CancelledTwice(External());
  }
}
