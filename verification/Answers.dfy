/**
 What each operation answers and what it leaves in the workspace, told from the columns alone: when a checkout is
 granted, what a decision stores, which cart a response shows.
 */
module Answers {
  import opened Wrappers
  import opened Money
  import opened Catalog
  import opened Models
  import opened Instants
  import opened Store
  import opened Reachable
  import opened Consent
  import opened Retries

  /** A well-formed request id under which this tool has recorded nothing. */
  predicate FreshRequest(w: Workspace, tool: Tool, requestId: string) {
    8 <= |requestId| <= 80 && RecordKey(tool, requestId) !in w.records
  }

  function CartOf(w: Workspace): Cart
    requires w.row.Some?
  {
    w.row.value.state.target.cart
  }

  // -- seeding, reset and selection -------------------------------------------

  /** A freshly seeded state: version 1, nothing in the cart, no order, no note. */
  predicate Seeded(state: StoreState) {
    && state.version == 1
    && |state.target.cart.items| == 0 && state.target.cart.discount == FullPrice
    && state.target.cart.subtotal == state.target.cart.total == 0
    && state.target.order == Order(false, None) && state.target.preferences == Preferences("", false)
  }

  /** First contact seeds an untouched workspace, under the honest scenario; any other is left alone. */
  lemma SeedIsStored(w: Workspace)
    ensures w.row.Some? ==> Step(w, ReadOp).after == w
    ensures w.row.None? ==>
              var after := Step(w, ReadOp).after;
              && after.row.Some? && after == w.(row := after.row)
              && after.row.value.version == 1 && Seeded(after.row.value.state)
              && after.row.value.scenario == Scenario(PostFix, NoFault)
  {
  }

  /** A reset empties records and confirmations, seeds the state again and keeps the scenario. */
  lemma ResetIsStored(w: Workspace)
    requires w.row.Some?
    ensures var after := Step(w, ResetOp).after;
            && after.row.Some? && |after.records| == 0 && |after.confirmations| == 0
            && after.row.value.version == 1 && Seeded(after.row.value.state)
            && after.row.value.scenario == w.row.value.scenario
  {
  }

  /** A selection leaves a seeded workspace under the scenario selected. */
  lemma SelectionIsStored(w: Workspace, scenario: Scenario)
    ensures var after := Selected(w, scenario);
            && |after.records| == 0 && |after.confirmations| == 0
            && after.row.value.version == 1 && Seeded(after.row.value.state)
            && after.row.value.scenario == scenario
  {
  }

  // -- guarded statements -----------------------------------------------------

  /** A state is written only over a smaller version, and takes its place with its scenario kept. */
  lemma WriteIsGuarded(w: Workspace, state: StoreState)
    requires w.row.Some?
    ensures state.version <= w.row.value.version ==> WriteState(w, state) == w
    ensures w.row.value.version < state.version ==>
              WriteState(w, state) == w.(row := Some(Row(state.version, state, w.row.value.scenario)))
  {
  }

  /** A record is inserted only under a key that is not there, and never overwrites. */
  lemma RecordIsInsertedOnce(w: Workspace, key: RecordKey, record: Record)
    ensures RecordResult(w, key, record).Some? <==> key !in w.records
    ensures key !in w.records ==> RecordResult(w, key, record).value == w.(records := w.records[key := record])
  {
  }

  // -- checkout ---------------------------------------------------------------

  /** A checkout is granted exactly for an approved, unexpired confirmation that binds the stored cart. */
  lemma CheckoutIsGranted(w: Workspace, op: Op)
    requires Good(w) && w.row.Some? && op.CheckoutOp? && FreshRequest(w, CheckoutTool, op.requestId)
    ensures Mints(w, op)
       <==> && op.id != "" && op.id in w.confirmations
            && w.confirmations[op.id].status == Approved
            && op.now < w.confirmations[op.id].expiresAt
            && w.confirmations[op.id].bound == CartOf(w)
  {
    if CanSpend(w, op) {
      SpendEffect(w, op);
    } else {
      UnspentEffect(w, op);
    }
  }

  /** What a granted checkout stores and answers; the approval keeps its own date. */
  lemma CheckoutIsStored(w: Workspace, op: Op)
    requires Good(w) && w.row.Some? && Mints(w, op)
    ensures op.id in w.confirmations
    ensures var row, c, key := w.row.value, w.confirmations[op.id], RecordKey(CheckoutTool, op.requestId);
            var version, target := row.version + 1, row.state.target.(order := Order(true, Some(op.orderId)));
            var response := Response(Success, version, Some(op.orderId), row.state.target.cart);
            Step(w, op)
            == Result(Workspace(Some(Row(version, StoreState(version, target), row.scenario)),
                                w.records[key := Record(CheckoutPayload(op.id), response, version)],
                                w.confirmations[op.id := c.(status := Consumed, consumedAt := Some(op.spentAt))]),
                      Done(response, false))
  {
    if CanSpend(w, op) {
      SpendEffect(w, op);
    } else {
      UnspentEffect(w, op);
    }
  }

  /** Which refusal, or which replay, a checkout meets first; nothing changes. */
  lemma CheckoutIsRefused(w: Workspace, op: Op)
    requires Good(w) && w.row.Some? && op.CheckoutOp?
    ensures !(8 <= |op.requestId| <= 80) ==> Step(w, op) == Result(w, Refused(BadRequestId))
    ensures var key := RecordKey(CheckoutTool, op.requestId);
            8 <= |op.requestId| <= 80 && key in w.records ==>
              Step(w, op) == Result(w, if w.records[key].payload == CheckoutPayload(op.id)
                                    then Done(w.records[key].response, true) else Refused(IdempotencyKeyReused))
    ensures FreshRequest(w, CheckoutTool, op.requestId) ==>
              && (op.id == "" ==> Step(w, op) == Result(w, Refused(BadConfirmationId)))
              && (op.id != "" && op.id !in w.confirmations ==> Step(w, op) == Result(w, Refused(UnknownConfirmation)))
    ensures FreshRequest(w, CheckoutTool, op.requestId) && op.id != "" && op.id in w.confirmations ==>
              var c := w.confirmations[op.id];
              && (c.status in {Pending, Approved} && c.expiresAt <= op.now ==>
                    Step(w, op) == Result(w, Refused(NotAuthorizing(Expired))))
              && (c.status == Pending && op.now < c.expiresAt ==>
                    Step(w, op) == Result(w, Refused(NotAuthorizing(Pending))))
              && (c.status in {Denied, Expired, Cancelled, Consumed} ==>
                    Step(w, op) == Result(w, Refused(NotAuthorizing(c.status))))
              && (c.status == Approved && op.now < c.expiresAt && c.bound != CartOf(w) ==>
                    Step(w, op) == Result(w, Refused(CartChanged)))
  {
    if !CanSpend(w, op) {
      UnspentEffect(w, op);
    }
  }

  // -- decisions --------------------------------------------------------------

  /** A stored confirmation that can still be decided. */
  predicate Open(w: Workspace, id: string, now: Instant) {
    id != "" && id in w.confirmations && w.confirmations[id].status == Pending && now < w.confirmations[id].expiresAt
  }

  /** An approval approves, a denial denies, a cancellation cancels: that row, dated by the decision, and no other. */
  lemma DecisionIsStored(w: Workspace, op: Op)
    requires Good(w) && (op.DecideOp? || op.CancelOp?) && Open(w, op.id, op.now)
    ensures var status := if op.CancelOp? then Cancelled else if op.approved then Approved else Denied;
            var decided := w.confirmations[op.id].(status := status, decidedAt := Some(op.stamp));
            Step(w, op) == Result(w.(confirmations := w.confirmations[op.id := decided]), Noted(decided))
  {
    assert GoodConfirmation(w.confirmations[op.id]);
    var target := if op.CancelOp? then Cancelled else if op.approved then Approved else Denied;
    DecisionEffect(w, op.id, target, op.now, op.stamp);
  }

  /** Any other decision is refused, by the first thing that is wrong; nothing changes. */
  lemma DecisionIsRefused(w: Workspace, op: Op)
    requires (op.DecideOp? || op.CancelOp?) && !Open(w, op.id, op.now)
    ensures Step(w, op)
         == Result(w, Refused(if op.id == "" then BadConfirmationId
                              else if op.id !in w.confirmations then UnknownConfirmation
                              else if w.confirmations[op.id].status in {Pending, Approved}
                                      && w.confirmations[op.id].expiresAt <= op.now then NotPending(Expired)
                              else NotPending(w.confirmations[op.id].status)))
  {
  }

  // -- requests ---------------------------------------------------------------

  /** What a request shows the human and binds. */
  lemma RequestIsStored(w: Workspace, op: Op)
    requires w.row.Some? && op.RequestOp?
    ensures !(10 <= op.expiresIn <= 300) ==> Step(w, op) == Result(w, Refused(BadExpiry))
    ensures 10 <= op.expiresIn <= 300 && op.id in w.confirmations ==> Step(w, op) == Result(w, Crashed)
    ensures 10 <= op.expiresIn <= 300 && op.id !in w.confirmations ==>
              var cart := CartOf(w);
              var shown := Consequence(w.row.value.state.version, cart.total, |cart.items|);
              var c := Confirmation(Pending, cart, shown, op.now + op.expiresIn * 1_000_000, op.now, None, None);
              Step(w, op) == Result(w.(confirmations := w.confirmations[op.id := c]), Noted(c))
  {
  }

  /** Request, approve, check out, all in time and over an unchanged cart: the order is minted. */
  lemma ApprovedRequestMints(w: Workspace, request: Op, approval: Op, checkout: Op)
    requires Good(w) && w.row.Some?
    requires request.RequestOp? && 10 <= request.expiresIn <= 300 && request.id != "" && request.id !in w.confirmations
    requires approval.DecideOp? && approval.approved && approval.id == request.id
    requires checkout.CheckoutOp? && checkout.id == request.id && FreshRequest(w, CheckoutTool, checkout.requestId)
    requires approval.now < request.now + request.expiresIn * 1_000_000
    requires checkout.now < request.now + request.expiresIn * 1_000_000
    ensures Mints(Run(w, [request, approval]), checkout)
  {
    RunOfTwo(w, request, approval);
    var asked := Step(w, request).after;
    RequestIsStored(w, request);
    RequestKeepsGood(w, request.id, request.expiresIn, request.now);
    DecisionIsStored(asked, approval);
    StepKeepsGood(asked, approval);
    CheckoutIsGranted(Step(asked, approval).after, checkout);
  }

  /** A late insert binds and shows the state that was read before it. */
  lemma InsertIsStored(w: Workspace, op: Op)
    requires w.row.Some? && op.InsertOp? && op.id !in w.confirmations
    ensures var cart := op.seen.target.cart;
            var shown := Consequence(op.seen.version, cart.total, |cart.items|);
            var c := Confirmation(Pending, cart, shown, op.now + op.lifetime * 1_000_000, op.now, None, None);
            Step(w, op) == Result(w.(confirmations := w.confirmations[op.id := c]), Noted(c))
  {
  }

  /** The sweep expires and dates a pending row at its expiry or, within one second, by the text of the two instants. */
  lemma SweepIsStored(w: Workspace, now: Instant, id: string)
    requires Good(w) && id in w.confirmations
    ensures var c, swept := w.confirmations[id], Step(w, SweepOp(now)).after;
            && swept.row == w.row && swept.records == w.records && swept.confirmations.Keys == w.confirmations.Keys
            && swept.confirmations[id]
               == if c.status == Pending && (MixedPrecision(c.expiresAt, now) != (c.expiresAt <= now))
                  then c.(status := Expired, decidedAt := Some(now)) else c
  {
    assert GoodConfirmation(w.confirmations[id]);
    TextOrderIsTimeOrder(w.confirmations[id].expiresAt, now);
  }

  // -- update_cart ------------------------------------------------------------

  /** The fault that treats a retry as a fresh delta. */
  predicate AddsRetries(w: Workspace) {
    w.row.Some? && w.row.value.scenario == Scenario(PreFix, DuplicateOnRetry)
  }

  /** An `update_cart` that is well formed and is not answered from a record, nor refused for its payload. */
  predicate Applies(w: Workspace, op: Op) {
    && op.UpdateCartOp? && 8 <= |op.requestId| <= 80
    && ProductById(op.productId).Some? && 0 <= op.quantity <= 5
    && (RecordKey(UpdateCartTool, op.requestId) in w.records ==>
          && AddsRetries(w)
          && w.records[RecordKey(UpdateCartTool, op.requestId)].payload == CartPayload(op.productId, op.quantity))
  }

  /** The lines are as before, but for one: its quantity is `quantity`, or it is gone when that is zero. */
  predicate LineBecomes(before: Lines, after: Lines, product: Product, quantity: int) {
    && (product.lineKey in after <==> quantity != 0)
    && (quantity != 0 ==> after[product.lineKey] == CartLine(product.productId, quantity, product.price))
    && after.Keys - {product.lineKey} == before.Keys - {product.lineKey}
    && forall k :: k in after && k != product.lineKey ==> k in before && after[k] == before[k]
  }

  /** The quantity asked for; for a retry under the fault, added to the line and capped. */
  function AppliedQuantity(items: Lines, product: Product, quantity: int, retried: bool): int {
    if !retried || product.lineKey !in items || quantity == 0 then quantity
    else if items[product.lineKey].quantity + quantity < 5 then items[product.lineKey].quantity + quantity else 5
  }

  /** What an update that applies stores, and that it answers the cart and version it stored. */
  lemma UpdateIsStored(w: Workspace, op: Op)
    requires Good(w) && w.row.Some? && Applies(w, op)
    ensures var r, row, product := Step(w, op), w.row.value, ProductById(op.productId).value;
            && r.after.row.Some?
            && LineBecomes(CartOf(w).items, CartOf(r.after).items, product,
                           AppliedQuantity(CartOf(w).items, product, op.quantity,
                                           RecordKey(UpdateCartTool, op.requestId) in w.records))
            && CartOf(r.after).Code() == CartOf(w).Code()
            && r.after.row.value.state.target.order == row.state.target.order
            && r.after.row.value.state.target.preferences
               == (if row.scenario == Scenario(PreFix, UndeclaredSideEffect)
                   then Preferences("leave with the neighbour", row.state.target.preferences.giftWrap)
                   else row.state.target.preferences)
            && r.after.row.value.scenario == row.scenario && r.after.confirmations == w.confirmations
            && r.outcome == Done(Response(Success, r.after.row.value.version, None, CartOf(r.after)), false)
    ensures var r, key := Step(w, op), RecordKey(UpdateCartTool, op.requestId);
            r.after.records
            == if key in w.records then w.records
            else w.records[key := Record(CartPayload(op.productId, op.quantity), r.outcome.response,
                                         r.after.row.value.version)]
  {
    LookupsAgree(op.productId);
    var product, row := ProductById(op.productId).value, w.row.value;
    var retried := RecordKey(UpdateCartTool, op.requestId) in w.records;
    ApplyQuantityIsHonest(row.state, op.productId, op.quantity, row.scenario, retried);
    LineIsAssigned(CartOf(w).items, product, op.quantity, retried);
  }

  lemma LineIsAssigned(items: Lines, product: Product, quantity: int, retried: bool)
    requires CatalogLines(items) && 0 <= quantity <= 5
    ensures LineBecomes(items, AssignLine(items, product, quantity, retried), product,
                        AppliedQuantity(items, product, quantity, retried))
  {
  }

  /** An update that does not apply is refused by the first thing that is wrong, or replayed; nothing changes. */
  lemma UpdateIsRefused(w: Workspace, op: Op)
    requires Good(w) && w.row.Some? && op.UpdateCartOp? && !Applies(w, op)
    ensures var key := RecordKey(UpdateCartTool, op.requestId);
            Step(w, op)
            == Result(w, if !(8 <= |op.requestId| <= 80) then Refused(BadRequestId)
                      else if ProductById(op.productId).None? then Refused(ProductNotFound)
                      else if !(0 <= op.quantity <= 5) then Refused(BadQuantity)
                      else if w.records[key].payload != CartPayload(op.productId, op.quantity)
                      then Refused(IdempotencyKeyReused)
                      else Done(w.records[key].response, true))
  {
    LookupsAgree(op.productId);
  }

  // -- apply_discount ---------------------------------------------------------

  /** The fault that answers with a discount it does not store. */
  predicate ForgetsDiscounts(w: Workspace) {
    w.row.Some? && w.row.value.scenario == Scenario(PreFix, DiscountReportedButNotApplied)
  }

  /** A cart over the same lines that carries the discount of a fifth. */
  ghost predicate Discounted(cart: Cart, discounted: Cart) {
    && HonestCart(discounted) && discounted.items == cart.items && discounted.subtotal == cart.subtotal
    && discounted.discount == Discount("SAVE20", cart.subtotal - discounted.total)
    && NearestHalfUp(cart.subtotal - discounted.total, Decimal(cart.subtotal * 20, 4))
  }

  /** A discount is stored once, a repeat says so, and the answer shows the stored cart; any other code is refused. */
  lemma DiscountIsStored(w: Workspace, op: Op)
    requires Good(w) && w.row.Some? && op.ApplyDiscountOp? && !ForgetsDiscounts(w)
    ensures op.code != "SAVE20" ==> Step(w, op) == Result(w, Refused(DiscountNotFound))
    ensures op.code == "SAVE20" && CartOf(w).discount.Discount? ==>
              Step(w, op) == Result(w, Done(Response(AlreadyApplied, w.row.value.version, None, CartOf(w)), false))
    ensures op.code == "SAVE20" && CartOf(w).discount.FullPrice? ==>
              var r, row := Step(w, op), w.row.value;
              && r.after.row.Some? && Discounted(CartOf(w), CartOf(r.after))
              && r.after == w.(row := Some(Row(row.version + 1,
                                               StoreState(row.version + 1, row.state.target.(cart := CartOf(r.after))),
                                               row.scenario)))
              && r.outcome == Done(Response(Success, row.version + 1, None, CartOf(r.after)), false)
  {
    if DiscountPercent(op.code).Some? {
      DiscountEffect(w, op);
      DiscountIsAFifth(CartOf(w));
    }
  }

  /** The fault shows the discounted cart under the stored version, and stores nothing. */
  lemma DiscountIsForgotten(w: Workspace, op: Op)
    requires Good(w) && op.ApplyDiscountOp? && ForgetsDiscounts(w)
    ensures Step(w, op).after == w
    ensures op.code != "SAVE20" ==> Step(w, op).outcome == Refused(DiscountNotFound)
    ensures op.code == "SAVE20" ==>
              && Step(w, op).outcome.Done?
              && var response := Step(w, op).outcome.response;
              && Step(w, op).outcome == Done(Response(Success, w.row.value.version, None, response.cart), false)
              && Discounted(CartOf(w), response.cart)
  {
    DiscountIsAFifth(CartOf(w));
  }

  lemma DiscountIsAFifth(cart: Cart)
    requires HonestCart(cart)
    ensures var discounted := BuildCart(cart.items, Some("SAVE20"));
            discounted.Some? && Discounted(cart, discounted.value)
    ensures cart.Code() == (if cart.discount.FullPrice? then None else Some("SAVE20"))
  {
    BuildCartIsHonest(cart.items, Some("SAVE20"));
    QuantizeIsNearest(Decimal(cart.subtotal * 20, 4), PercentageOf(cart.subtotal, 20));
  }

  // -- what responses show ----------------------------------------------------

  /** A fresh response shows the cart the store now holds, and tells a repeated discount from a success. */
  ghost predicate ShowsStoredCart(w: Workspace, op: Op, r: Result)
    requires r.outcome.Done?
  {
    && r.after.row.Some?
    && r.outcome.response.cart == CartOf(r.after)
    && r.outcome.response.version == r.after.row.value.version
    && (r.outcome.response.status == AlreadyApplied
        <==> op.ApplyDiscountOp? && w.row.Some? && CartOf(w).Code() == Some(op.code))
  }

  /** Every operation but the faulty discount answers with the cart, and under the version, that it leaves stored. */
  lemma ResponsesShowStoredCart(w: Workspace, op: Op)
    requires Good(w) && Step(w, op).outcome.Done? && !Step(w, op).outcome.replayed
    requires op.ApplyDiscountOp? ==> !ForgetsDiscounts(w)
    ensures ShowsStoredCart(w, op, Step(w, op))
  {
    EnsuredIsGood(w);
    FirstContact(w, op);
    StoredCartIsShown(Ensured(w), op);
  }

  /** The first operation on a workspace is the one on its seed. */
  lemma FirstContact(w: Workspace, op: Op)
    requires Step(w, op).outcome.Done?
    ensures Step(Ensured(w), op) == Step(w, op)
  {
  }

  lemma StoredCartIsShown(w: Workspace, op: Op)
    requires Good(w) && w.row.Some? && Step(w, op).outcome.Done? && !Step(w, op).outcome.replayed
    requires op.ApplyDiscountOp? ==> !ForgetsDiscounts(w)
    ensures ShowsStoredCart(w, op, Step(w, op))
  {
    match op
    case UpdateCartOp(_, _, _) =>
      if Applies(w, op) {
        UpdateIsStored(w, op);
      } else {
        UpdateIsRefused(w, op);
      }
    case ApplyDiscountOp(_) => DiscountIsStored(w, op);
    case CheckoutOp(_, _, _, _, _, _) => CheckoutIsStored(w, op);
    case _ =>
  }

  /** A record that a step adds is the answer it gives. */
  lemma NewRecordIsAnswered(w: Workspace, op: Op, key: RecordKey)
    requires Good(w) && key in Step(w, op).after.records && key !in w.records
    ensures KeyOf(op) == Some(key) && Step(w, op).outcome == Done(Step(w, op).after.records[key].response, false)
  {
    match op
    case UpdateCartOp(_, _, _) => NewUpdateRecord(w, op, key);
    case CheckoutOp(_, _, _, _, _, _) => NewCheckoutRecord(w, op, key);
    case _ =>
  }

  lemma NewUpdateRecord(w: Workspace, op: Op, key: RecordKey)
    requires Good(w) && op.UpdateCartOp? && key in Step(w, op).after.records && key !in w.records
    ensures KeyOf(op) == Some(key) && Step(w, op).outcome == Done(Step(w, op).after.records[key].response, false)
  {
    EnsuredIsGood(w);
    if Applies(Ensured(w), op) {
      UpdateIsStored(Ensured(w), op);
      FirstUpdate(w, op);
    } else {
      UpdateIsRefused(Ensured(w), op);
      FirstUpdate(w, op);
    }
  }

  lemma FirstUpdate(w: Workspace, op: Op)
    requires op.UpdateCartOp?
    ensures Step(w, op).after == w || Step(w, op) == Step(Ensured(w), op)
  {
  }

  lemma NewCheckoutRecord(w: Workspace, op: Op, key: RecordKey)
    requires Good(w) && op.CheckoutOp? && key in Step(w, op).after.records && key !in w.records
    ensures KeyOf(op) == Some(key) && Step(w, op).outcome == Done(Step(w, op).after.records[key].response, false)
  {
    if Mints(w, op) {
      EnsuredIsGood(w);
      FirstContact(w, op);
      CheckoutIsStored(Ensured(w), op);
    } else {
      NotMintingSpendsNothing(w, op);
    }
  }

  /** Some step since the last reset gave `response` under this key, and left stored the cart and version it shows. */
  ghost predicate Answered(w: Workspace, ops: seq<Op>, key: RecordKey, response: Response) {
    && ops != [] && !ops[|ops| - 1].ResetOp?
    && (AnsweredLast(w, ops, key, response) || Answered(w, ops[..|ops| - 1], key, response))
  }

  ghost predicate AnsweredLast(w: Workspace, ops: seq<Op>, key: RecordKey, response: Response)
    requires ops != []
  {
    var last := ops[|ops| - 1];
    && KeyOf(last) == Some(key) && Step(Run(w, ops[..|ops| - 1]), last).outcome == Done(response, false)
    && Run(w, ops).row.Some? && response.cart == CartOf(Run(w, ops))
    && response.version == Run(w, ops).row.value.version
  }

  /** Every record is the answer of one step since the last reset, and shows the cart that step left stored. */
  lemma {:induction false} RecordsShowStoredCarts(w: Workspace, ops: seq<Op>, key: RecordKey)
    requires Untouched(w) && SoundLog(ops) && key in Run(w, ops).records
    ensures Answered(w, ops, key, Run(w, ops).records[key].response)
  {
    assert ops != [];
    var front := ops[..|ops| - 1];
    ResetDropsRecords(Run(w, front), ops[|ops| - 1], key);
    if key in Run(w, front).records {
      RecordsShowStoredCarts(w, front, key);
      RecordStays(w, ops, key);
    } else {
      LastAnswerIsShown(w, ops, key);
    }
  }

  lemma LastAnswerIsShown(w: Workspace, ops: seq<Op>, key: RecordKey)
    requires Untouched(w) && SoundLog(ops) && ops != []
    requires key in Run(w, ops).records && key !in Run(w, ops[..|ops| - 1]).records
    ensures AnsweredLast(w, ops, key, Run(w, ops).records[key].response)
  {
    var before, last := Run(w, ops[..|ops| - 1]), ops[|ops| - 1];
    RunKeepsGood(w, ops[..|ops| - 1]);
    NewRecordIsAnswered(before, last, key);
    ResponsesShowStoredCart(before, last);
  }

  lemma RecordStays(w: Workspace, ops: seq<Op>, key: RecordKey)
    requires ops != [] && key in Run(w, ops).records && key in Run(w, ops[..|ops| - 1]).records
    ensures !ops[|ops| - 1].ResetOp? && Run(w, ops).records[key] == Run(w, ops[..|ops| - 1]).records[key]
  {
    ResetDropsRecords(Run(w, ops[..|ops| - 1]), ops[|ops| - 1], key);
    RecordsAreKept(Run(w, ops[..|ops| - 1]), ops[|ops| - 1], key);
  }

  lemma ResetDropsRecords(w: Workspace, op: Op, key: RecordKey)
    requires key in Step(w, op).after.records
    ensures !op.ResetOp?
  {
  }
}
