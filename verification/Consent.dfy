/**
 Protected checkout over every interleaving of transactions: no order without consent, and a ledger that balances.
 */
module Consent {
  import opened Wrappers
  import opened Models
  import opened Instants
  import opened Store
  import opened Reachable

  /** The step is a checkout that mints an order: it succeeds, and not by replaying a record. */
  predicate Mints(w: Workspace, op: Op) {
    op.CheckoutOp? && Step(w, op).outcome.Done? && !Step(w, op).outcome.replayed
  }

  /** A fresh checkout spends one approved, unexpired confirmation of the very cart it orders, and nothing else. */
  lemma MintingSpends(w: Workspace, op: Op)
    requires Mints(w, op)
    ensures RecordKey(CheckoutTool, op.requestId) !in w.records
    ensures op.id in w.confirmations
    ensures var c, e, after := w.confirmations[op.id], Ensured(w), Step(w, op).after;
            && c.status == Approved && op.now < c.expiresAt
            && c.bound == e.row.value.state.target.cart
            && after.confirmations == w.confirmations[op.id := Moved(c, Consumed, op.stamp, Some(op.spentAt))]
            && RecordKey(CheckoutTool, op.requestId) in after.records
            && (var record := after.records[RecordKey(CheckoutTool, op.requestId)];
                && after.records == w.records[RecordKey(CheckoutTool, op.requestId) := record]
                && record.payload == CheckoutPayload(op.id)
                && record.response.orderId == Some(op.orderId))
  {
  }

  /** A checkout that is refused or replayed leaves records, confirmations and order as they were. */
  lemma NotMintingSpendsNothing(w: Workspace, op: Op)
    requires op.CheckoutOp? && !Mints(w, op)
    ensures Step(w, op).after == w || Step(w, op).after == Ensured(w)
  {
  }

  // -- consent ----------------------------------------------------------------

  /** The step inserts the confirmation `c` under `id`. */
  predicate Requests(w: Workspace, op: Op, id: string, c: Confirmation) {
    && (op.RequestOp? || op.InsertOp?) && op.id == id
    && Step(w, op).outcome == Noted(c)
  }

  /** The step is a human approval of `id`, dated before the expiry of `c`. */
  predicate Approves(w: Workspace, op: Op, id: string, c: Confirmation) {
    && op.DecideOp? && op.id == id && op.approved
    && Step(w, op).outcome.Noted?
    && op.now < c.expiresAt
  }

  /** The cart a request was shown: the one read before the insert. */
  function ShownCart(w: Workspace, op: Op): Cart
    requires op.RequestOp? || op.InsertOp?
  {
    if op.InsertOp? then op.seen.target.cart else Ensured(w).row.value.state.target.cart
  }

  /** What the human reads is the total and the line count of the cart bound. */
  predicate Describes(c: Confirmation) {
    c.consequence.cartTotal == c.bound.total && c.consequence.itemCount == |c.bound.items|
  }

  lemma RequestBindsShownCart(w: Workspace, op: Op, id: string, c: Confirmation)
    requires Requests(w, op, id, c)
    ensures id !in w.confirmations
    ensures Step(w, op).after.confirmations == w.confirmations[id := c]
    ensures c.status == Pending && c.bound == ShownCart(w, op) && Describes(c)
    ensures op.RequestOp? ==>
              && MIN_EXPIRY_SECONDS <= op.expiresIn <= MAX_EXPIRY_SECONDS
              && c.expiresAt == op.now + op.expiresIn * MICROS
  {
  }

  /** A confirmation row still binds what its request bound. */
  predicate SameRequest(a: Confirmation, b: Confirmation) {
    a.bound == b.bound && a.expiresAt == b.expiresAt && a.consequence == b.consequence && a.createdAt == b.createdAt
  }

  /** Where a row comes from in one step: a request, or the row before, approved only by an approval. */
  lemma RowOrigin(w: Workspace, op: Op, id: string)
    requires id in Step(w, op).after.confirmations
    ensures RowComesFrom(w, op, id, Step(w, op).after.confirmations[id])
  {
    match op
    case UpdateCartOp(_, _, _) => UpdateLeavesRows(w, op);
    case CheckoutOp(_, _, _, _, _, _) => RowOriginOfCheckout(w, op, id);
    case DecideOp(_, approved, now, stamp) =>
      RowOriginOfDecision(w, op, if approved then Approved else Denied, now, stamp, id);
    case CancelOp(_, now, stamp) => RowOriginOfDecision(w, op, Cancelled, now, stamp, id);
    case _ =>
  }

  predicate RowComesFrom(w: Workspace, op: Op, id: string, c: Confirmation) {
    if id !in w.confirmations then Requests(w, op, id, c) else
    && !op.ResetOp?
    && SameRequest(w.confirmations[id], c)
    && (c.status in {Approved, Consumed} ==>
          w.confirmations[id].status in {Approved, Consumed} || Approves(w, op, id, c))
  }

  lemma RowOriginOfCheckout(w: Workspace, op: Op, id: string)
    requires op.CheckoutOp? && id in Step(w, op).after.confirmations
    ensures RowComesFrom(w, op, id, Step(w, op).after.confirmations[id])
  {
    if Mints(w, op) {
      MintingSpends(w, op);
    } else {
      NotMintingSpendsNothing(w, op);
    }
  }

  lemma RowOriginOfDecision(w: Workspace, op: Op, target: Status, now: Instant, stamp: Instant, id: string)
    requires || (op.DecideOp? && target == (if op.approved then Approved else Denied))
             || (op.CancelOp? && target == Cancelled)
    requires op.now == now && op.stamp == stamp
    requires id in Step(w, op).after.confirmations
    ensures RowComesFrom(w, op, id, Step(w, op).after.confirmations[id])
  {
    if DecisionError(w, op.id, now).None? {
      DecisionEffect(w, op.id, target, now, stamp);
    }
  }

  /** The row of `id` was requested at step `i` of the log and, if approved since, approved at step `d`. */
  ghost predicate History(w: Workspace, ops: seq<Op>, id: string, i: nat, d: nat)
    requires id in Run(w, ops).confirmations
  {
    var c := Run(w, ops).confirmations[id];
    && i < |ops|
    && (exists request: Confirmation :: SameRequest(request, c) && Requests(Run(w, ops[..i]), ops[i], id, request))
    && (forall k :: i <= k < |ops| ==> !ops[k].ResetOp?)
    && (c.status in {Approved, Consumed} ==> i < d < |ops| && Approves(Run(w, ops[..d]), ops[d], id, c))
  }

  lemma {:induction false} RowHistory(w: Workspace, ops: seq<Op>, id: string) returns (i: nat, d: nat)
    requires |w.confirmations| == 0 && id in Run(w, ops).confirmations
    ensures History(w, ops, id, i, d)
  {
    assert ops != [];
    var n := |ops| - 1;
    var front, last := ops[..n], ops[n];
    var before := Run(w, front);
    RowOrigin(before, last, id);
    if id in before.confirmations {
      i, d := RowHistory(w, front, id);
      d := HistoryContinues(w, ops, id, i, d);
    } else {
      RequestBindsShownCart(before, last, id, Run(w, ops).confirmations[id]);
      i, d := n, n;
    }
  }

  lemma HistoryContinues(w: Workspace, ops: seq<Op>, id: string, i: nat, d: nat) returns (e: nat)
    requires ops != []
    requires id in Run(w, ops[..|ops| - 1]).confirmations && id in Run(w, ops).confirmations
    requires History(w, ops[..|ops| - 1], id, i, d)
    ensures History(w, ops, id, i, e)
  {
    var n := |ops| - 1;
    var front, before := ops[..n], Run(w, ops[..n]);
    RowOrigin(before, ops[n], id);
    ApprovalOfSameRequest(before.confirmations[id], Run(w, ops).confirmations[id]);
    PrefixOfFront(ops, i);
    assert forall k :: 0 <= k < n ==> front[k] == ops[k];
    if before.confirmations[id].status in {Approved, Consumed} {
      PrefixOfFront(ops, d);
      e := d;
    } else {
      e := n;
    }
  }

  lemma ApprovalOfSameRequest(a: Confirmation, b: Confirmation)
    requires SameRequest(a, b)
    ensures forall w, op, id :: Approves(w, op, id, a) <==> Approves(w, op, id, b)
    ensures forall request :: SameRequest(request, a) <==> SameRequest(request, b)
  {
  }

  /**
   Consent safety. In any interleaving of transactions, an order minted at step `j` has behind it a request at step
   `i` and an approval at step `d` of one confirmation, with no reset since the request. Both the instant read at the
   approval and the instant read at the spend are before its expiry, the cart ordered is the cart that was shown, and
   the total and line count shown are its own.
   */
  lemma ConsentBehindEveryOrder(w: Workspace, ops: seq<Op>, j: nat) returns (i: nat, d: nat, c: Confirmation)
    requires |w.confirmations| == 0
    requires j < |ops| && Mints(Run(w, ops[..j]), ops[j])
    ensures i < d < j
    ensures Requests(Run(w, ops[..i]), ops[i], ops[j].id, c)
    ensures Approves(Run(w, ops[..d]), ops[d], ops[j].id, c)
    ensures ops[j].now < c.expiresAt && Describes(c)
    ensures Ensured(Run(w, ops[..j])).row.value.state.target.cart == c.bound == ShownCart(Run(w, ops[..i]), ops[i])
    ensures forall k :: i <= k <= j ==> !ops[k].ResetOp?
  {
    var past, id := ops[..j], ops[j].id;
    MintingSpends(Run(w, past), ops[j]);
    i, d := RowHistory(w, past, id);
    assert past[..i] == ops[..i] && past[..d] == ops[..d];
    assert forall k :: i <= k < j ==> past[k] == ops[k];
    var row := Run(w, past).confirmations[id];
    var request: Confirmation :| SameRequest(request, row) && Requests(Run(w, past[..i]), past[i], id, request);
    c := request;
    RequestBindsShownCart(Run(w, ops[..i]), ops[i], id, c);
  }

  /** Every state carried into a late insert was read from the store at some earlier point of the log. */
  ghost predicate ReadsAreReal(w: Workspace, ops: seq<Op>) {
    forall i :: 0 <= i < |ops| && ops[i].InsertOp? ==>
                  exists r: nat :: r <= i && Run(w, ops[..r]).row.Some?
                                   && Run(w, ops[..r]).row.value.state == ops[i].seen
  }

  /** So the cart ordered is one the store held when the human was asked, even without the workspace lock. */
  lemma OrderedCartWasHeld(w: Workspace, ops: seq<Op>, j: nat) returns (r: nat)
    requires |w.confirmations| == 0 && ReadsAreReal(w, ops)
    requires j < |ops| && Mints(Run(w, ops[..j]), ops[j])
    ensures r < j
    ensures Ensured(Run(w, ops[..r])).row.value.state.target.cart
         == Ensured(Run(w, ops[..j])).row.value.state.target.cart
  {
    var i, d, c := ConsentBehindEveryOrder(w, ops, j);
    if ops[i].InsertOp? {
      r :| r <= i && Run(w, ops[..r]).row.Some? && Run(w, ops[..r]).row.value.state == ops[i].seen;
    } else {
      r := i;
    }
  }

  // -- the ledger -------------------------------------------------------------

  /** An order minted at step `at` of the log. */
  datatype Entry = Entry(at: nat, requestId: string, confirmationId: string, orderId: string)

  /** The orders minted since the last reset, in order. */
  ghost function Ledger(w: Workspace, ops: seq<Op>): seq<Entry> {
    if ops == [] then [] else
    var n := |ops| - 1;
    var before, last := Run(w, ops[..n]), ops[n];
    if last.ResetOp? then []
    else if Mints(before, last) then Ledger(w, ops[..n]) + [Entry(n, last.requestId, last.id, last.orderId)]
    else Ledger(w, ops[..n])
  }

  /** The confirmations that have been spent. */
  ghost function Spent(w: Workspace): set<string> {
    set id | id in w.confirmations && w.confirmations[id].status == Consumed
  }

  /** The request ids with a recorded checkout. */
  ghost function CheckoutRequests(w: Workspace): set<string> {
    set k | k in w.records && k.tool == CheckoutTool :: k.requestId
  }

  ghost function LedgerRequests(ledger: seq<Entry>): set<string> {
    set e | e in ledger :: e.requestId
  }

  ghost function LedgerConfirmations(ledger: seq<Entry>): set<string> {
    set e | e in ledger :: e.confirmationId
  }

  ghost predicate DistinctEntries(ledger: seq<Entry>) {
    forall i, j :: 0 <= i < j < |ledger| ==>
                     && ledger[i].at < ledger[j].at
                     && ledger[i].requestId != ledger[j].requestId
                     && ledger[i].confirmationId != ledger[j].confirmationId
  }

  ghost predicate RecordedAs(w: Workspace, e: Entry) {
    var key := RecordKey(CheckoutTool, e.requestId);
    && key in w.records
    && w.records[key].payload == CheckoutPayload(e.confirmationId)
    && w.records[key].response.orderId == Some(e.orderId)
  }

  function LatestOrder(ledger: seq<Entry>): Order {
    if ledger == [] then Order(false, None) else Order(true, Some(ledger[|ledger| - 1].orderId))
  }

  ghost predicate Balances(w: Workspace, ledger: seq<Entry>) {
    && DistinctEntries(ledger)
    && LedgerRequests(ledger) == CheckoutRequests(w)
    && LedgerConfirmations(ledger) == Spent(w)
    && (forall e :: e in ledger ==> RecordedAs(w, e))
    && (w.row.Some? ==> w.row.value.state.target.order == LatestOrder(ledger))
    && (w.row.None? ==> ledger == [])
  }

  lemma BalancesAfterMint(w: Workspace, op: Op, ledger: seq<Entry>, at: nat)
    requires Good(w) && Mints(w, op) && Balances(w, ledger)
    requires forall e :: e in ledger ==> e.at < at
    ensures Balances(Step(w, op).after, ledger + [Entry(at, op.requestId, op.id, op.orderId)])
  {
    var entry, after := Entry(at, op.requestId, op.id, op.orderId), Step(w, op).after;
    var more, key := ledger + [entry], RecordKey(CheckoutTool, op.requestId);
    MintingSpends(w, op);
    MintingOrders(w, op);
    MoreEntries(ledger, entry);
    assert op.requestId !in CheckoutRequests(w);
    assert op.id !in Spent(w);
    assert Spent(after) == Spent(w) + {op.id};
    CheckoutRequestsAfter(w, after, key);
    forall e | e in more ensures RecordedAs(after, e) {
      if e != entry {
        assert RecordedAs(w, e);
        assert e.requestId in LedgerRequests(ledger);
      }
    }
  }

  lemma MintingOrders(w: Workspace, op: Op)
    requires Good(w) && Mints(w, op)
    ensures var after := Step(w, op).after;
            after.row.Some? && after.row.value.state.target.order == Order(true, Some(op.orderId))
  {
    EnsuredIsGood(w);
  }

  lemma CheckoutRequestsAfter(w: Workspace, after: Workspace, key: RecordKey)
    requires key.tool == CheckoutTool && key in after.records
    requires after.records == w.records[key := after.records[key]]
    ensures CheckoutRequests(after) == CheckoutRequests(w) + {key.requestId}
  {
    forall r | r in CheckoutRequests(w) ensures r in CheckoutRequests(after) {
      assert RecordKey(CheckoutTool, r) in after.records;
    }
  }

  lemma MoreEntries(ledger: seq<Entry>, entry: Entry)
    ensures LedgerRequests(ledger + [entry]) == LedgerRequests(ledger) + {entry.requestId}
    ensures LedgerConfirmations(ledger + [entry]) == LedgerConfirmations(ledger) + {entry.confirmationId}
    ensures DistinctEntries(ledger) && (forall e :: e in ledger ==> e.at < entry.at)
            && entry.requestId !in LedgerRequests(ledger) && entry.confirmationId !in LedgerConfirmations(ledger)
            ==> DistinctEntries(ledger + [entry])
  {
    var more := ledger + [entry];
    assert forall e :: e in more <==> e in ledger || e == entry;
  }

  /** Every other step leaves both sides of the ledger alone. */
  ghost predicate LedgerUntouched(w: Workspace, after: Workspace) {
    && Spent(after) == Spent(w)
    && CheckoutRequests(after) == CheckoutRequests(w)
    && (forall k :: k in w.records ==> k in after.records && after.records[k] == w.records[k])
    && (w.row.Some? ==> after.row.Some? && after.row.value.state.target.order == w.row.value.state.target.order)
    && (w.row.None? && after.row.Some? ==> after.row.value.state.target.order == Order(false, None))
  }

  lemma EnsuredLeavesLedger(w: Workspace)
    ensures LedgerUntouched(w, Ensured(w))
  {
  }

  lemma UpdateLeavesOrder(w: Workspace, op: Op)
    requires Good(w) && op.UpdateCartOp? && w.row.Some?
    ensures var after := Step(w, op).after;
            after.row.Some? && after.row.value.state.target.order == w.row.value.state.target.order
  {
    if ValidRequestId(op.requestId) && Catalog.ProductById(op.productId).Some? && 0 <= op.quantity <= 5 {
      var found := FindRecord(w, RecordKey(UpdateCartTool, op.requestId));
      ApplyQuantityIsHonest(w.row.value.state, op.productId, op.quantity, w.row.value.scenario, found.Some?);
    }
  }

  lemma UpdateLeavesLedger(w: Workspace, op: Op)
    requires Good(w) && op.UpdateCartOp?
    ensures LedgerUntouched(w, Step(w, op).after)
  {
    EnsuredIsGood(w);
    UpdateLeavesRows(w, op);
    UpdateLeavesOrder(Ensured(w), op);
    assert Step(w, op).after == w || Step(w, op) == Step(Ensured(w), op);
    SameCheckouts(w, Step(w, op).after);
  }

  lemma SameCheckouts(w: Workspace, after: Workspace)
    requires forall r :: RecordKey(CheckoutTool, r) in after.records <==> RecordKey(CheckoutTool, r) in w.records
    ensures CheckoutRequests(after) == CheckoutRequests(w)
  {
    forall r ensures r in CheckoutRequests(after) <==> r in CheckoutRequests(w) {
      assert r in CheckoutRequests(after) <==> RecordKey(CheckoutTool, r) in after.records;
      assert r in CheckoutRequests(w) <==> RecordKey(CheckoutTool, r) in w.records;
    }
  }

  /** No row becomes or stops being consumed. */
  ghost predicate SameSpent(w: Workspace, after: Workspace) {
    && (forall id :: id in w.confirmations ==> id in after.confirmations)
    && (forall id :: id in after.confirmations ==>
                       (after.confirmations[id].status == Consumed
                        <==> id in w.confirmations && w.confirmations[id].status == Consumed))
  }

  lemma SameSpentSets(w: Workspace, after: Workspace)
    requires SameSpent(w, after)
    ensures Spent(after) == Spent(w)
  {
  }

  lemma RequestLeavesSpent(w: Workspace, op: Op)
    requires op.RequestOp? || op.InsertOp?
    ensures SameSpent(w, Step(w, op).after) && Step(w, op).after.records == w.records
  {
  }

  lemma DecisionLeavesSpent(w: Workspace, op: Op)
    requires op.DecideOp? || op.CancelOp? || op.SweepOp?
    ensures SameSpent(w, Step(w, op).after) && Step(w, op).after.records == w.records
    ensures Step(w, op).after.row == w.row
  {
  }

  lemma ConfirmationStepLeavesLedger(w: Workspace, op: Op)
    requires op.RequestOp? || op.InsertOp? || op.DecideOp? || op.CancelOp? || op.SweepOp?
    ensures LedgerUntouched(w, Step(w, op).after)
  {
    if op.RequestOp? || op.InsertOp? {
      RequestLeavesSpent(w, op);
    } else {
      DecisionLeavesSpent(w, op);
    }
    SameSpentSets(w, Step(w, op).after);
  }

  lemma OtherStepLeavesLedger(w: Workspace, op: Op)
    requires Good(w) && !Mints(w, op) && !op.ResetOp?
    ensures LedgerUntouched(w, Step(w, op).after)
  {
    match op
    case UpdateCartOp(_, _, _) => UpdateLeavesLedger(w, op);
    case ApplyDiscountOp(_) => EnsuredLeavesLedger(w);
    case CheckoutOp(_, _, _, _, _, _) =>
      NotMintingSpendsNothing(w, op);
      EnsuredLeavesLedger(w);
    case WriteScenarioOp(_) =>
    case ReadOp => EnsuredLeavesLedger(w);
    case _ => ConfirmationStepLeavesLedger(w, op);
  }

  lemma BalancesAfterOther(w: Workspace, op: Op, ledger: seq<Entry>)
    requires Good(w) && !Mints(w, op) && !op.ResetOp? && Balances(w, ledger)
    ensures Balances(Step(w, op).after, ledger)
  {
    OtherStepLeavesLedger(w, op);
    forall e | e in ledger ensures RecordedAs(Step(w, op).after, e) {
      assert RecordedAs(w, e);
    }
  }

  lemma BalancesAfterReset(w: Workspace)
    ensures Balances(ResetWorkspace(w), [])
  {
    var after := ResetWorkspace(w);
    assert Spent(after) == {} && CheckoutRequests(after) == {};
  }

  /** Every entry is a minting step of the log. */
  lemma {:induction false} EntriesAreMints(w: Workspace, ops: seq<Op>)
    ensures forall e :: e in Ledger(w, ops) ==>
                          && e.at < |ops| && Mints(Run(w, ops[..e.at]), ops[e.at])
                          && e == Entry(e.at, ops[e.at].requestId, ops[e.at].id, ops[e.at].orderId)
  {
    if ops != [] {
      var front := ops[..|ops| - 1];
      EntriesAreMints(w, front);
      forall e | e in Ledger(w, front) ensures front[..e.at] == ops[..e.at] && front[e.at] == ops[e.at] {
      }
    }
  }

  /** In every reachable state, the ledger balances with the records, the confirmations and the order. */
  lemma {:induction false} LedgerBalances(w: Workspace, ops: seq<Op>)
    requires Untouched(w) && SoundLog(ops)
    ensures Balances(Run(w, ops), Ledger(w, ops))
  {
    if ops == [] {
      assert Spent(w) == {} && CheckoutRequests(w) == {};
    } else {
      var front, last := ops[..|ops| - 1], ops[|ops| - 1];
      LedgerBalances(w, front);
      RunKeepsGood(w, front);
      EntriesAreMints(w, front);
      if last.ResetOp? {
        BalancesAfterReset(Run(w, front));
      } else if Mints(Run(w, front), last) {
        BalancesAfterMint(Run(w, front), last, Ledger(w, front), |ops| - 1);
      } else {
        BalancesAfterOther(Run(w, front), last, Ledger(w, front));
      }
    }
  }

  /** As many consumed confirmations as checkout records as orders; an order is shown when that count is positive. */
  lemma LedgerCounts(w: Workspace, ops: seq<Op>)
    requires Untouched(w) && SoundLog(ops)
    ensures var end, ledger := Run(w, ops), Ledger(w, ops);
            && |Spent(end)| == |CheckoutRequests(end)| == |ledger|
            && (end.row.Some? ==> (end.row.value.state.target.order.created <==> |ledger| > 0))
            && (end.row.Some? && |ledger| > 0 ==>
                  end.row.value.state.target.order.orderId == Some(ledger[|ledger| - 1].orderId))
  {
    LedgerBalances(w, ops);
    DistinctEntriesCount(Ledger(w, ops));
  }

  lemma {:induction false} DistinctEntriesCount(ledger: seq<Entry>)
    requires DistinctEntries(ledger)
    ensures |LedgerRequests(ledger)| == |LedgerConfirmations(ledger)| == |ledger|
  {
    if ledger != [] {
      var front, last := ledger[..|ledger| - 1], ledger[|ledger| - 1];
      DistinctEntriesCount(front);
      assert ledger == front + [last];
      MoreEntries(front, last);
    }
  }

  /** Given order ids that are fresh, different entries are different orders. */
  lemma OrdersAreDistinct(w: Workspace, ops: seq<Op>, a: Entry, b: Entry)
    requires Untouched(w) && SoundLog(ops)
    requires forall i, j :: 0 <= i < j < |ops| && ops[i].CheckoutOp? && ops[j].CheckoutOp? ==>
                              ops[i].orderId != ops[j].orderId
    requires a in Ledger(w, ops) && b in Ledger(w, ops) && a != b
    ensures a.orderId != b.orderId
  {
    LedgerBalances(w, ops);
    EntriesAreMints(w, ops);
    var ledger := Ledger(w, ops);
    var i :| 0 <= i < |ledger| && ledger[i] == a;
    var j :| 0 <= j < |ledger| && ledger[j] == b;
    assert a.at != b.at;
  }
}
