/**
 What every step keeps, under every fault profile: the reachable workspace, its versions and its confirmations.
 */
module Reachable {
  import opened Wrappers
  import opened Money
  import opened Catalog
  import opened Models
  import opened Documents
  import opened Instants
  import opened Store

  ghost predicate HonestState(s: StoreState) {
    && s.version >= 1
    && HonestCart(s.target.cart)
    && s.target.order.Valid()
    && s.target.preferences.deliveryNote in {"", UNDECLARED_NOTE}
  }

  ghost predicate GoodRow(row: Row) {
    row.version == row.state.version && HonestState(row.state)
  }

  /** A decision date exactly from the first decision on, a spending date exactly when spent. */
  ghost predicate GoodConfirmation(c: Confirmation) {
    && (c.decidedAt.None? <==> c.status == Pending)
    && (c.consumedAt.Some? <==> c.status == Consumed)
    && HonestCart(c.bound)
  }

  ghost predicate GoodRecord(key: RecordKey, record: Record) {
    && ValidRequestId(key.requestId)
    && record.versionAfter == record.response.version >= 1
    && HonestCart(record.response.cart)
    && match key.tool
       case UpdateCartTool => record.payload.CartPayload? && record.response.orderId.None?
       case CheckoutTool => record.payload.CheckoutPayload? && record.response.orderId.Some?
  }

  /** The invariant of every reachable workspace. */
  ghost predicate Good(w: Workspace) {
    && (w.row.Some? ==> GoodRow(w.row.value))
    && (w.row.None? ==> Untouched(w))
    && (forall k :: k in w.records ==> GoodRecord(k, w.records[k]))
    && (forall id :: id in w.confirmations ==> GoodConfirmation(w.confirmations[id]))
  }

  /** What a step may assume of its inputs: a state carried from an earlier read is one the store held. */
  ghost predicate SoundOp(op: Op) {
    op.InsertOp? ==> HonestState(op.seen)
  }

  // -- carts ------------------------------------------------------------------

  lemma AssignLineKeepsCatalog(items: Lines, productId: string, quantity: int, duplicating: bool)
    requires CatalogLines(items) && ProductById(productId).Some? && 0 <= quantity <= MAX_LINE_QUANTITY
    ensures CatalogLines(AssignLine(items, ProductById(productId).value, quantity, duplicating))
  {
    LookupsAgree(productId);
  }

  /** Everything later proofs need of `_apply_quantity`: the lines move as assigned, the rest does not. */
  lemma ApplyQuantityIsHonest(current: StoreState, productId: string, quantity: int, scenario: Scenario,
                              duplicating: bool)
    requires HonestState(current) && ProductById(productId).Some? && 0 <= quantity <= MAX_LINE_QUANTITY
    ensures var product := ProductById(productId).value;
            var next := ApplyQuantity(current, product, quantity, scenario, duplicating);
            && next.Some? && HonestState(next.value)
            && next.value.target.cart.items == AssignLine(current.target.cart.items, product, quantity, duplicating)
            && next.value.target.cart.Code() == current.target.cart.Code()
            && next.value.target.order == current.target.order
            && next.value.target.preferences == PreferencesAfter(current, scenario)
            && next.value.version
               == current.version + (if next.value.target == current.target then 0 else 1)
  {
    var product := ProductById(productId).value;
    var cart := current.target.cart;
    AssignLineKeepsCatalog(cart.items, productId, quantity, duplicating);
    BuildCartIsHonest(AssignLine(cart.items, product, quantity, duplicating), cart.Code());
  }

  lemma SeedIsGood(w: Workspace)
    ensures GoodRow(SeedRow(w))
  {
    assert Subtotal(map[]) == 0;
  }

  /** A fresh response carries the version that the row and the stored document now hold. */
  ghost predicate ReportsStoredVersion(r: Result) {
    r.outcome.Done? && !r.outcome.replayed ==>
      && r.after.row.Some?
      && r.outcome.response.version == r.after.row.value.version == r.after.row.value.state.version
  }

  // -- the invariant, operation by operation ----------------------------------

  lemma EnsuredIsGood(w: Workspace)
    requires Good(w)
    ensures Good(Ensured(w)) && Ensured(w).row.Some?
  {
    SeedIsGood(w);
  }

  lemma UpdateCartKeepsGood(w: Workspace, productId: string, quantity: int, requestId: string)
    requires Good(w)
    ensures var r := UpdateCart(w, productId, quantity, requestId);
            Good(r.after) && !r.outcome.Crashed? && ReportsStoredVersion(r)
  {
    EnsuredIsGood(w);
    if ValidRequestId(requestId) && ProductById(productId).Some? && 0 <= quantity <= MAX_LINE_QUANTITY {
      LookupsAgree(productId);
      UpdateTransactionKeepsGood(Ensured(w), ProductById(productId).value, quantity, requestId);
    }
  }

  lemma UpdateTransactionKeepsGood(w: Workspace, product: Product, quantity: int, requestId: string)
    requires Good(w) && w.row.Some? && ValidRequestId(requestId)
    requires ProductById(product.productId) == Some(product) && 0 <= quantity <= MAX_LINE_QUANTITY
    ensures var r := UpdateCartTransaction(w, product, quantity, requestId);
            && Good(r.after) && !r.outcome.Crashed? && ReportsStoredVersion(r)
            && VersionStep(w.row.value, r.after.row)
  {
    var found := FindRecord(w, RecordKey(UpdateCartTool, requestId));
    ApplyQuantityIsHonest(w.row.value.state, product.productId, quantity, w.row.value.scenario, found.Some?);
  }

  lemma ApplyDiscountKeepsGood(w: Workspace, code: string)
    requires Good(w)
    ensures var r := ApplyDiscount(w, code);
            Good(r.after) && !r.outcome.Crashed? && ReportsStoredVersion(r)
  {
    EnsuredIsGood(w);
    if DiscountPercent(code).Some? {
      BuildCartIsHonest(Ensured(w).row.value.state.target.cart.items, Some(code));
    }
  }

  lemma InsertKeepsGood(w: Workspace, id: string, seen: StoreState, lifetime: nat, now: Instant)
    requires Good(w) && HonestState(seen)
    ensures var r := InsertConfirmation(w, id, seen, lifetime, now);
            Good(r.after) && (r.outcome.Crashed? <==> w.row.None? || id in w.confirmations)
  {
  }

  lemma TransitionKeepsGood(w: Workspace, id: string, target: Status, now: Instant, stamp: Instant)
    requires Good(w) && target in {Approved, Denied, Cancelled}
    ensures var r := Transition(w, id, target, now, stamp);
            Good(r.after) && !r.outcome.Crashed?
  {
    if DecisionError(w, id, now).None? {
      DecisionEffect(w, id, target, now, stamp);
    }
  }

  /** What a spent confirmation leaves: the order, the consumed row and the record. */
  function SpendResult(w: Workspace, op: Op): Result
    requires w.row.Some? && op.CheckoutOp? && op.id in w.confirmations
  {
    var next := Ordered(w.row.value.state, op.orderId);
    var response := OrderResponse(next, op.orderId);
    Result(Workspace(Some(Row(next.version, next, w.row.value.scenario)),
                     w.records[RecordKey(CheckoutTool, op.requestId)
                     := Record(CheckoutPayload(op.id), response, next.version)],
                     w.confirmations[op.id
                     := Moved(w.confirmations[op.id], Consumed, op.stamp, Some(op.spentAt))]),
           Done(response, false))
  }

  lemma SpendResultIsGood(w: Workspace, op: Op)
    requires Good(w) && w.row.Some? && op.CheckoutOp? && ValidRequestId(op.requestId)
    requires op.id in w.confirmations && w.confirmations[op.id].status == Approved
    ensures Good(SpendResult(w, op).after) && ReportsStoredVersion(SpendResult(w, op))
  {
  }

  lemma SpendIsGood(w: Workspace, op: Op)
    requires Good(w) && w.row.Some? && CanSpend(w, op)
    ensures Good(SpendResult(w, op).after)
  {
    SpendResultIsGood(w, op);
  }

  lemma CheckoutTransactionKeepsGood(w: Workspace, op: Op)
    requires Good(w) && w.row.Some? && op.CheckoutOp? && ValidRequestId(op.requestId)
    ensures var r := CheckoutTransaction(w, op.id, op.requestId, op.orderId, op.now, op.stamp, op.spentAt);
            Good(r.after) && !r.outcome.Crashed? && ReportsStoredVersion(r)
  {
    if RecordKey(CheckoutTool, op.requestId) !in w.records && SpendError(w, op.id, w.row.value.state, op.now).None? {
      SpendResultIsGood(w, op);
    }
  }

  lemma CheckoutKeepsGood(w: Workspace, id: string, requestId: string, orderId: string,
                          now: Instant, stamp: Instant, spentAt: Instant)
    requires Good(w)
    ensures var r := Checkout(w, id, requestId, orderId, now, stamp, spentAt);
            Good(r.after) && !r.outcome.Crashed? && ReportsStoredVersion(r)
  {
    EnsuredIsGood(w);
    if ValidRequestId(requestId) {
      CheckoutTransactionKeepsGood(Ensured(w), CheckoutOp(id, requestId, orderId, now, stamp, spentAt));
    }
  }

  lemma SweepKeepsGood(w: Workspace, now: Instant)
    requires Good(w)
    ensures Good(Sweep(w, now))
  {
    forall id | id in w.confirmations ensures GoodConfirmation(Swept(w.confirmations[id], now)) {
    }
  }

  lemma RequestKeepsGood(w: Workspace, id: string, expiresIn: int, now: Instant)
    requires Good(w)
    ensures Good(RequestConfirmation(w, id, expiresIn, now).after)
  {
    EnsuredIsGood(w);
    if MIN_EXPIRY_SECONDS <= expiresIn <= MAX_EXPIRY_SECONDS {
      InsertKeepsGood(Ensured(w), id, Ensured(w).row.value.state, expiresIn, now);
    }
  }

  lemma SelectionKeepsGood(w: Workspace, scenario: Scenario)
    requires Good(w)
    ensures Good(ResetWorkspace(w)) && Good(WriteScenario(w, scenario))
  {
    SeedIsGood(w);
  }

  lemma MutationKeepsGood(w: Workspace, op: Op)
    requires Good(w) && (op.UpdateCartOp? || op.ApplyDiscountOp? || op.CheckoutOp?)
    ensures Good(Step(w, op).after)
  {
    match op
    case UpdateCartOp(productId, quantity, requestId) => UpdateCartKeepsGood(w, productId, quantity, requestId);
    case ApplyDiscountOp(code) => ApplyDiscountKeepsGood(w, code);
    case CheckoutOp(id, requestId, orderId, now, stamp, spentAt) =>
      CheckoutKeepsGood(w, id, requestId, orderId, now, stamp, spentAt);
  }

  lemma DecisionKeepsGood(w: Workspace, op: Op)
    requires Good(w) && (op.DecideOp? || op.CancelOp?)
    ensures Good(Step(w, op).after)
  {
    if op.CancelOp? {
      TransitionKeepsGood(w, op.id, Cancelled, op.now, op.stamp);
    } else {
      TransitionKeepsGood(w, op.id, if op.approved then Approved else Denied, op.now, op.stamp);
    }
  }

  /** Every step keeps the invariant, under every fault profile. */
  lemma StepKeepsGood(w: Workspace, op: Op)
    requires Good(w) && SoundOp(op)
    ensures Good(Step(w, op).after)
  {
    if op.UpdateCartOp? || op.ApplyDiscountOp? || op.CheckoutOp? {
      MutationKeepsGood(w, op);
    } else if op.DecideOp? || op.CancelOp? {
      DecisionKeepsGood(w, op);
    } else {
      OtherStepKeepsGood(w, op);
    }
  }

  lemma OtherStepKeepsGood(w: Workspace, op: Op)
    requires Good(w) && SoundOp(op)
    requires op.RequestOp? || op.InsertOp? || op.SweepOp? || op.ResetOp? || op.WriteScenarioOp? || op.ReadOp?
    ensures Good(Step(w, op).after)
  {
    match op
    case RequestOp(id, expiresIn, now) => RequestKeepsGood(w, id, expiresIn, now);
    case InsertOp(id, seen, lifetime, now) => InsertKeepsGood(w, id, seen, lifetime, now);
    case SweepOp(now) => SweepKeepsGood(w, now);
    case ResetOp => SelectionKeepsGood(w, DEFAULT_SCENARIO);
    case WriteScenarioOp(scenario) => SelectionKeepsGood(w, scenario);
    case ReadOp => EnsuredIsGood(w);
  }

  ghost predicate SoundLog(ops: seq<Op>) {
    forall i :: 0 <= i < |ops| ==> SoundOp(ops[i])
  }

  /** Every workspace any log can reach is good. */
  lemma {:induction false} RunKeepsGood(w: Workspace, ops: seq<Op>)
    requires Good(w) && SoundLog(ops)
    ensures Good(Run(w, ops))
  {
    if ops != [] {
      RunKeepsGood(w, ops[..|ops| - 1]);
      StepKeepsGood(Run(w, ops[..|ops| - 1]), ops[|ops| - 1]);
    }
  }

  /** The cart of every reachable state, spelled out. */
  lemma ReachableCart(w: Workspace, ops: seq<Op>)
    requires Untouched(w) && SoundLog(ops) && Run(w, ops).row.Some?
    ensures var cart := Run(w, ops).row.value.state.target.cart;
            && (forall k :: k in cart.items ==>
                              && ProductByLineKey(k).Some?
                              && cart.items[k].unitPrice == ProductByLineKey(k).value.price
                              && 1 <= cart.items[k].quantity <= MAX_LINE_QUANTITY)
            && cart.subtotal == Subtotal(cart.items)
            && 0 <= cart.total == cart.subtotal - Reduction(cart.discount)
            && (cart.discount.Discount? ==>
                  NearestHalfUp(cart.discount.amount, Decimal(cart.subtotal * 20, 4)))
            && cart.Valid()
  {
    RunKeepsGood(w, ops);
    var cart := Run(w, ops).row.value.state.target.cart;
    HonestCartBounds(cart);
    if cart.discount.Discount? {
      QuantizeIsNearest(Decimal(cart.subtotal * 20, 4), cart.discount.amount);
    }
  }

  /** The dates of a stored confirmation, in every reachable state: decided unless pending, consumed when consumed. */
  lemma ReachableConfirmation(w: Workspace, ops: seq<Op>, id: string)
    requires Untouched(w) && SoundLog(ops) && id in Run(w, ops).confirmations
    ensures var c := Run(w, ops).confirmations[id];
            && (c.decidedAt.None? <==> c.status == Pending)
            && (c.consumedAt.Some? <==> c.status == Consumed)
  {
    RunKeepsGood(w, ops);
  }

  /** No reachable step meets an unexpected exception, except inserting a confirmation under a taken id. */
  lemma CrashExactly(w: Workspace, op: Op)
    requires Good(w) && SoundOp(op)
    ensures Step(w, op).outcome.Crashed? <==>
            || (op.RequestOp? && MIN_EXPIRY_SECONDS <= op.expiresIn <= MAX_EXPIRY_SECONDS && op.id in w.confirmations)
            || (op.InsertOp? && (w.row.None? || op.id in w.confirmations))
  {
    match op
    case UpdateCartOp(productId, quantity, requestId) => UpdateCartKeepsGood(w, productId, quantity, requestId);
    case ApplyDiscountOp(code) => ApplyDiscountKeepsGood(w, code);
    case CheckoutOp(id, requestId, orderId, now, stamp, spentAt) =>
      CheckoutKeepsGood(w, id, requestId, orderId, now, stamp, spentAt);
    case _ =>
  }

  /** A refusal or a crash leaves the workspace as it was, seeded if it had never been touched. */
  lemma RefusalChangesNothing(w: Workspace, op: Op)
    requires Step(w, op).outcome.Refused? || Step(w, op).outcome.Crashed?
    ensures Step(w, op).after == w || Step(w, op).after == Ensured(w)
  {
  }

  /** With atomic transactions, the two branches for a lost compare-and-set are never taken. */
  lemma LostRacesUnreachable(w: Workspace, op: Op)
    ensures Step(w, op).outcome != Refused(AlreadyDecided)
    ensures Step(w, op).outcome != Refused(AlreadyUsed)
  {
  }

  /** Confirmations are as they were, and the only new record is one of `update_cart`. */
  ghost predicate OnlyAddsUpdates(w: Workspace, after: Workspace) {
    && after.confirmations == w.confirmations
    && (forall k :: k in w.records ==> k in after.records && after.records[k] == w.records[k])
    && (forall k :: k in after.records && k !in w.records ==> k.tool == UpdateCartTool)
  }

  lemma UpdateTransactionLeavesRows(w: Workspace, product: Product, quantity: int, requestId: string)
    requires w.row.Some?
    ensures OnlyAddsUpdates(w, UpdateCartTransaction(w, product, quantity, requestId).after)
  {
  }

  lemma UpdateLeavesRows(w: Workspace, op: Op)
    requires op.UpdateCartOp?
    ensures OnlyAddsUpdates(w, Step(w, op).after)
  {
    var product := ProductById(op.productId);
    if product.Some? {
      UpdateTransactionLeavesRows(Ensured(w), product.value, op.quantity, op.requestId);
    }
  }

  function StoredScenario(w: Workspace): Scenario {
    if w.row.Some? then w.row.value.scenario else DEFAULT_SCENARIO
  }

  lemma UpdateKeepsScenario(w: Workspace, product: Product, quantity: int, requestId: string)
    requires w.row.Some?
    ensures StoredScenario(UpdateCartTransaction(w, product, quantity, requestId).after) == StoredScenario(w)
  {
  }

  lemma CheckoutKeepsScenario(w: Workspace, op: Op)
    requires op.CheckoutOp?
    ensures StoredScenario(Step(w, op).after) == StoredScenario(w)
  {
  }

  /** Only a scenario write moves the stored scenario. */
  lemma ScenarioIsKept(w: Workspace, op: Op)
    requires !op.WriteScenarioOp?
    ensures StoredScenario(Step(w, op).after) == StoredScenario(w)
  {
    match op
    case UpdateCartOp(productId, quantity, requestId) =>
      if ProductById(productId).Some? {
        UpdateKeepsScenario(Ensured(w), ProductById(productId).value, quantity, requestId);
      }
    case CheckoutOp(_, _, _, _, _, _) => CheckoutKeepsScenario(w, op);
    case _ =>
  }

  // -- effects ----------------------------------------------------------------

  /** A well-formed `update_cart` under a key not yet recorded. */
  predicate FirstUse(w: Workspace, op: Op) {
    && op.UpdateCartOp?
    && ValidRequestId(op.requestId) && ProductById(op.productId).Some? && 0 <= op.quantity <= MAX_LINE_QUANTITY
    && RecordKey(UpdateCartTool, op.requestId) !in w.records
  }

  /** The state a first use writes. */
  function UpdatedState(w: Workspace, op: Op): Option<StoreState>
    requires w.row.Some? && FirstUse(w, op)
  {
    ApplyQuantity(w.row.value.state, ProductById(op.productId).value, op.quantity, w.row.value.scenario, false)
  }

  function FirstUseResult(w: Workspace, op: Op, next: StoreState): Result
    requires w.row.Some? && FirstUse(w, op)
  {
    var response := CartResponse(next, Success);
    Result(Workspace(Some(Row(next.version, next, w.row.value.scenario)),
                     w.records[RecordKey(UpdateCartTool, op.requestId)
                     := Record(CartPayload(op.productId, op.quantity), response, next.version)],
                     w.confirmations),
           Done(response, false))
  }

  /** A first use writes its state and records its response; nothing else moves. */
  lemma FirstUseEffect(w: Workspace, op: Op)
    requires Good(w) && w.row.Some? && FirstUse(w, op)
    ensures UpdatedState(w, op).Some?
    ensures Step(w, op) == FirstUseResult(w, op, UpdatedState(w, op).value)
  {
    LookupsAgree(op.productId);
    ApplyQuantityIsHonest(w.row.value.state, op.productId, op.quantity, w.row.value.scenario, false);
  }

  /** What any other `update_cart` answers when the store does not duplicate retries. */
  function StaleOutcome(records: map<RecordKey, Record>, op: Op): Outcome
    requires op.UpdateCartOp?
  {
    var key := RecordKey(UpdateCartTool, op.requestId);
    if !ValidRequestId(op.requestId) then Refused(BadRequestId)
    else if ProductById(op.productId).None? then Refused(ProductNotFound)
    else if !(0 <= op.quantity <= MAX_LINE_QUANTITY) then Refused(BadQuantity)
    else if key !in records then Crashed
    else if records[key].payload != CartPayload(op.productId, op.quantity) then Refused(IdempotencyKeyReused)
    else Done(records[key].response, true)
  }

  lemma StaleUpdateEffect(w: Workspace, op: Op)
    requires w.row.Some? && op.UpdateCartOp? && !FirstUse(w, op)
    requires !w.row.value.scenario.Injects(DuplicateOnRetry)
    ensures Step(w, op) == Result(w, StaleOutcome(w.records, op))
  {
    LookupsAgree(op.productId);
  }

  /** A checkout that reaches its last step: the key is new and the confirmation can be spent. */
  predicate CanSpend(w: Workspace, op: Op)
    requires w.row.Some?
  {
    && op.CheckoutOp? && ValidRequestId(op.requestId)
    && RecordKey(CheckoutTool, op.requestId) !in w.records
    && SpendError(w, op.id, w.row.value.state, op.now).None?
  }

  /** What a checkout that cannot spend answers. */
  function UnspentOutcome(records: map<RecordKey, Record>, op: Op, error: Option<Error>): Outcome
    requires op.CheckoutOp?
  {
    var key := RecordKey(CheckoutTool, op.requestId);
    if !ValidRequestId(op.requestId) then Refused(BadRequestId)
    else if key in records && records[key].payload != CheckoutPayload(op.id) then Refused(IdempotencyKeyReused)
    else if key in records then Done(records[key].response, true)
    else if error.Some? then Refused(error.value)
    else Crashed
  }

  lemma UnspentEffect(w: Workspace, op: Op)
    requires w.row.Some? && op.CheckoutOp? && !CanSpend(w, op)
    ensures Step(w, op) == Result(w, UnspentOutcome(w.records, op, SpendError(w, op.id, w.row.value.state, op.now)))
  {
  }

  function DecisionResult(w: Workspace, id: string, moved: Confirmation): Result {
    Result(w.(confirmations := w.confirmations[id := moved]), Noted(moved))
  }

  /** An open decision moves the one row, and reports it. */
  lemma DecisionEffect(w: Workspace, id: string, target: Status, now: Instant, stamp: Instant)
    requires DecisionError(w, id, now).None?
    ensures id in w.confirmations
    ensures Transition(w, id, target, now, stamp)
         == DecisionResult(w, id, Moved(w.confirmations[id], target, stamp, None))
  {
  }

  /** Spending writes the order, the consumed confirmation and the record, in one step. */
  lemma SpendEffect(w: Workspace, op: Op)
    requires w.row.Some? && w.row.value.version == w.row.value.state.version && CanSpend(w, op)
    ensures op.id in w.confirmations
    ensures Step(w, op) == SpendResult(w, op)
  {
  }

  /** Applying a discount that is not active, in a store that does apply it. */
  function DiscountResult(w: Workspace, cart: Cart): Result
    requires w.row.Some?
  {
    var row := w.row.value;
    var next := row.state.Next(row.state.target.(cart := cart));
    Result(w.(row := Some(Row(next.version, next, row.scenario))), Done(CartResponse(next, Success), false))
  }

  lemma DiscountEffect(w: Workspace, op: Op)
    requires Good(w) && w.row.Some? && op.ApplyDiscountOp? && DiscountPercent(op.code).Some?
    requires !w.row.value.scenario.Injects(DiscountReportedButNotApplied)
    ensures var cart := w.row.value.state.target.cart;
            && BuildCart(cart.items, Some(op.code)).Some?
            && Step(w, op) == if cart.Code() == Some(op.code)
                              then Result(w, Done(CartResponse(w.row.value.state, AlreadyApplied), false))
                              else DiscountResult(w, BuildCart(cart.items, Some(op.code)).value)
  {
    BuildCartIsHonest(w.row.value.state.target.cart.items, Some(op.code));
  }

  // -- versions ---------------------------------------------------------------

  ghost predicate NewOrderId(w: Workspace, op: Op) {
    op.CheckoutOp? && w.row.Some? ==> w.row.value.state.target.order.orderId != Some(op.orderId)
  }

  lemma VersionOfUpdate(w: Workspace, op: Op)
    requires Good(w) && w.row.Some? && op.UpdateCartOp?
    ensures VersionStep(w.row.value, Step(w, op).after.row)
  {
    if ValidRequestId(op.requestId) && ProductById(op.productId).Some? && 0 <= op.quantity <= MAX_LINE_QUANTITY {
      LookupsAgree(op.productId);
      UpdateTransactionKeepsGood(w, ProductById(op.productId).value, op.quantity, op.requestId);
    }
  }

  lemma VersionOfDiscount(w: Workspace, op: Op)
    requires Good(w) && w.row.Some? && op.ApplyDiscountOp?
    ensures VersionStep(w.row.value, Step(w, op).after.row)
  {
    if DiscountPercent(op.code).Some? {
      BuildCartIsHonest(w.row.value.state.target.cart.items, Some(op.code));
    }
  }

  /** The version moved by at most one, and by one exactly when the target state changed. */
  ghost predicate VersionStep(before: Row, after: Option<Row>) {
    && after.Some?
    && after.value.state.version == before.state.version
                                    + (if after.value.state.target == before.state.target then 0 else 1)
  }

  /**
   Versions are exact evidence. Between resets a step moves `state_version` by zero or one, and by one exactly when
   the stored target document changed, given that a minted order id is not the one already stored.
   */
  lemma VersionsAreExact(w: Workspace, op: Op)
    requires Good(w) && SoundOp(op) && w.row.Some? && !op.ResetOp? && NewOrderId(w, op)
    ensures var before, after := w.row.value, Step(w, op).after.row;
            && after.Some?
            && before.version <= after.value.version <= before.version + 1
            && (after.value.version == before.version
                <==> TargetDocument(after.value.state.target) == TargetDocument(before.state.target))
  {
    StepMovesVersion(w, op);
    StepKeepsGood(w, op);
    DocumentsDecide(Step(w, op).after.row.value.state, w.row.value.state);
  }

  lemma VersionOfCheckout(w: Workspace, op: Op)
    requires Good(w) && w.row.Some? && op.CheckoutOp? && NewOrderId(w, op)
    ensures VersionStep(w.row.value, Step(w, op).after.row)
  {
    if CanSpend(w, op) {
      SpendEffect(w, op);
    }
  }

  lemma StepMovesVersion(w: Workspace, op: Op)
    requires Good(w) && w.row.Some? && !op.ResetOp? && NewOrderId(w, op)
    ensures VersionStep(w.row.value, Step(w, op).after.row)
  {
    match op
    case UpdateCartOp(_, _, _) => VersionOfUpdate(w, op);
    case ApplyDiscountOp(_) => VersionOfDiscount(w, op);
    case CheckoutOp(_, _, _, _, _, _) => VersionOfCheckout(w, op);
    case _ =>
  }

  lemma DocumentsDecide(a: StoreState, b: StoreState)
    requires HonestState(a) && HonestState(b)
    ensures TargetDocument(a.target) == TargetDocument(b.target) <==> a.target == b.target
  {
    HonestCartBounds(a.target.cart);
    HonestCartBounds(b.target.cart);
    TargetDocumentsDecide(a.target, b.target);
  }

  /** The guard of `write_state` never drops a write: whatever version a fresh response reports is the one stored. */
  lemma ResponsesReportStoredVersion(w: Workspace, op: Op)
    requires Good(w)
    ensures ReportsStoredVersion(Step(w, op))
  {
    match op
    case UpdateCartOp(productId, quantity, requestId) => UpdateCartKeepsGood(w, productId, quantity, requestId);
    case ApplyDiscountOp(code) => ApplyDiscountKeepsGood(w, code);
    case CheckoutOp(id, requestId, orderId, now, stamp, spentAt) =>
      CheckoutKeepsGood(w, id, requestId, orderId, now, stamp, spentAt);
    case _ =>
  }

  // -- confirmations ----------------------------------------------------------

  /** A checkout moves at most the approved row it names. */
  lemma CheckoutMovesOneRow(w: Workspace, op: Op)
    requires op.CheckoutOp?
    ensures MovesOneRow(w.confirmations, Step(w, op).after.confirmations, op.id)
  {
    if ValidRequestId(op.requestId) {
      CheckoutTransactionMovesOneRow(Ensured(w), op);
    }
  }

  ghost predicate MovesOneRow(before: map<string, Confirmation>, after: map<string, Confirmation>, id: string) {
    || after == before
    || (id in before && before[id].status == Approved && id in after && after == before[id := after[id]])
  }

  lemma CheckoutTransactionMovesOneRow(w: Workspace, op: Op)
    requires w.row.Some? && op.CheckoutOp?
    ensures var r := CheckoutTransaction(w, op.id, op.requestId, op.orderId, op.now, op.stamp, op.spentAt);
            MovesOneRow(w.confirmations, r.after.confirmations, op.id)
  {
  }

  lemma CheckoutLeavesTerminal(w: Workspace, op: Op, id: string)
    requires id in w.confirmations && w.confirmations[id].status.Terminal() && op.CheckoutOp?
    ensures var after := Step(w, op).after;
            id in after.confirmations && after.confirmations[id] == w.confirmations[id]
  {
    CheckoutMovesOneRow(w, op);
  }

  /** A terminal status, with its dates, is left only by a reset. */
  lemma TerminalIsFinal(w: Workspace, op: Op, id: string)
    requires id in w.confirmations && w.confirmations[id].status.Terminal() && !op.ResetOp?
    ensures var after := Step(w, op).after;
            id in after.confirmations && after.confirmations[id] == w.confirmations[id]
  {
    match op
    case UpdateCartOp(_, _, _) => UpdateLeavesRows(w, op);
    case CheckoutOp(_, _, _, _, _, _) => CheckoutLeavesTerminal(w, op, id);
    case _ =>
  }

  lemma {:induction false} TerminalIsFinalOverRuns(w: Workspace, ops: seq<Op>, id: string)
    requires id in w.confirmations && w.confirmations[id].status.Terminal()
    requires forall i :: 0 <= i < |ops| ==> !ops[i].ResetOp?
    ensures id in Run(w, ops).confirmations && Run(w, ops).confirmations[id] == w.confirmations[id]
  {
    if ops != [] {
      TerminalIsFinalOverRuns(w, ops[..|ops| - 1], id);
      TerminalIsFinal(Run(w, ops[..|ops| - 1]), ops[|ops| - 1], id);
    }
  }

  /**
   The expiry sweep at `t` is invisible to `effective_status` from `t` on, except on a pending row that the text
   comparison sweeps early: one expiring later in the very second that `t` begins.
   */
  lemma SweepTransparency(c: Confirmation, t: Instant)
    ensures (forall u: Instant :: u >= t ==> Swept(c, t).EffectiveStatus(u) == c.EffectiveStatus(u))
       <==> !(c.status == Pending && t < c.expiresAt && MixedPrecision(c.expiresAt, t))
  {
    TextOrderIsTimeOrder(c.expiresAt, t);
    assert Swept(c, t).EffectiveStatus(t) == c.EffectiveStatus(t)
      <==> !(c.status == Pending && t < c.expiresAt && MixedPrecision(c.expiresAt, t));
  }

  /**
   A request at 1.5 s for 10 s is pending at 11 s and can then be approved, for half a second more; a sweep at 11 s
   expires it, and the approval is refused.
   */
  lemma SweepIsVisible(w: Workspace, id: string)
    requires id != "" && id !in w.confirmations
    ensures var asked := Run(w, [RequestOp(id, 10, 1_500_000)]);
            var swept := Run(w, [RequestOp(id, 10, 1_500_000), SweepOp(11_000_000)]);
            var approval := DecideOp(id, true, 11_000_000, 11_000_000);
            && id in asked.confirmations && id in swept.confirmations
            && asked.confirmations[id].EffectiveStatus(11_000_000) == Pending
            && swept.confirmations[id].EffectiveStatus(11_000_000) == Expired
            && Step(asked, approval).outcome.Noted?
            && Step(swept, approval).outcome == Refused(NotPending(Expired))
  {
    var request, sweep := RequestOp(id, 10, 1_500_000), SweepOp(11_000_000);
    var asked := Step(w, request).after;
    RunOfOne(w, request);
    RunOfTwo(w, request, sweep);
    SweptEarly(asked.confirmations[id]);
    DecisionEffect(asked, id, Approved, 11_000_000, 11_000_000);
  }

  lemma SweptEarly(c: Confirmation)
    requires c.status == Pending && c.expiresAt == 11_500_000
    ensures c.EffectiveStatus(11_000_000) == Pending
    ensures Swept(c, 11_000_000).status == Swept(c, 11_000_000).EffectiveStatus(11_000_000) == Expired
  {
    TextOrderIsTimeOrder(11_500_000, 11_000_000);
  }

  lemma RunOfOne(w: Workspace, op: Op)
    ensures Run(w, [op]) == Step(w, op).after
  {
    assert [op][..0] == [];
  }

  lemma RunOfTwo(w: Workspace, first: Op, second: Op)
    ensures Run(w, [first, second]) == Step(Step(w, first).after, second).after
  {
    assert [first, second][..1] == [first];
    RunOfOne(w, first);
  }
}
