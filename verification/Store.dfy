/**
 What each store operation does to one workspace (service.py over repository.py), as functions on values.

 A workspace is everything the database keeps under one workspace id: the state row with its scenario columns, the
 idempotency records and the confirmation rows. Every operation takes the clock readings and minted ids it would
 draw as inputs. Hashes carry the document they hash, so equal hashes are equal documents.
 */
module Store {
  import opened Wrappers
  import opened Money
  import opened Catalog
  import opened Models
  import opened Instants

  // -- scenarios (failure_injection.py) ---------------------------------------

  datatype Mode = PreFix | PostFix

  datatype Profile =
    | NoFault
    | DuplicateOnRetry
    | DiscountReportedButNotApplied
    | CheckoutWithoutConfirmation
    | UndeclaredSideEffect
    | ToolSurfacePoisoned

  datatype Scenario = Scenario(mode: Mode, profile: Profile)
  {
    predicate FaultActive() {
      mode == PreFix && profile != NoFault
    }

    predicate Injects(fault: Profile) {
      FaultActive() && profile == fault
    }
  }

  const DEFAULT_SCENARIO := Scenario(PostFix, NoFault)

  function ModeNamed(name: string): Option<Mode> {
    if name == "pre_fix" then Some(PreFix) else if name == "post_fix" then Some(PostFix) else None
  }

  function ProfileNamed(name: string): Option<Profile> {
    if name == "none" then Some(NoFault)
    else if name == "duplicate_on_retry" then Some(DuplicateOnRetry)
    else if name == "discount_reported_but_not_applied" then Some(DiscountReportedButNotApplied)
    else if name == "checkout_without_confirmation" then Some(CheckoutWithoutConfirmation)
    else if name == "undeclared_side_effect" then Some(UndeclaredSideEffect)
    else if name == "tool_surface_poisoned" then Some(ToolSurfacePoisoned)
    else None
  }

  /** Every recognised profile is shipped except `checkout_without_confirmation`. */
  predicate Implemented(profile: Profile) {
    profile != CheckoutWithoutConfirmation
  }

  // -- rows -------------------------------------------------------------------

  datatype Tool = UpdateCartTool | CheckoutTool

  datatype RecordKey = RecordKey(tool: Tool, requestId: string)

  datatype Payload =
    | CartPayload(productId: string, quantity: int)
    | CheckoutPayload(confirmationId: string)

  datatype ResponseStatus = Success | AlreadyApplied

  datatype Response = Response(status: ResponseStatus, version: int, orderId: Option<string>, cart: Cart)

  datatype Record = Record(payload: Payload, response: Response, versionAfter: int)

  datatype Status = Pending | Approved | Denied | Expired | Cancelled | Consumed
  {
    predicate Lapsing() {
      Pending? || Approved?
    }

    predicate Terminal() {
      Denied? || Expired? || Cancelled? || Consumed?
    }
  }

  /** What the human is shown. */
  datatype Consequence = Consequence(stateVersion: int, cartTotal: Cents, itemCount: nat)

  /** `bound` is the cart whose document `state_binding_hash` hashes. */
  datatype Confirmation = Confirmation(
    status: Status, bound: Cart, consequence: Consequence, expiresAt: Instant, createdAt: Instant,
    decidedAt: Option<Instant>, consumedAt: Option<Instant>)
  {
    predicate IsExpired(now: Instant) {
      now >= expiresAt
    }

    function EffectiveStatus(now: Instant): Status {
      if status.Lapsing() && IsExpired(now) then Expired else status
    }
  }

  datatype Row = Row(version: int, state: StoreState, scenario: Scenario)

  datatype Workspace = Workspace(
    row: Option<Row>, records: map<RecordKey, Record>, confirmations: map<string, Confirmation>)

  /** A workspace nobody has touched. */
  predicate Untouched(w: Workspace) {
    w.row.None? && |w.records| == 0 && |w.confirmations| == 0
  }

  // -- outcomes ---------------------------------------------------------------

  datatype Error =
    | BadRequestId
    | BadQuantity
    | BadExpiry
    | BadConfirmationId
    | ProductNotFound
    | DiscountNotFound
    | IdempotencyKeyReused
    | UnknownConfirmation
    | NotPending(effective: Status)
    | AlreadyDecided
    | NotAuthorizing(effective: Status)
    | CartChanged
    | AlreadyUsed

  datatype Outcome =
    | Done(response: Response, replayed: bool)
    | Noted(confirmation: Confirmation)
    | Quiet
    | Refused(error: Error)
    | Crashed // an exception no handler expects: a failed constraint, lookup or validator

  datatype Result = Result(after: Workspace, outcome: Outcome)

  // -- repository statements --------------------------------------------------

  /** The row of a freshly seeded workspace: an empty state at version 1, under the scenario selected, if any. */
  function SeedRow(w: Workspace): Row {
    OneEmptyState();
    var state: StoreState :| IsEmpty(state);
    Row(1, state, if w.row.Some? then w.row.value.scenario else DEFAULT_SCENARIO)
  }

  /** `ensure_workspace`: seed an empty state on first contact. */
  function Ensured(w: Workspace): Workspace {
    if w.row.Some? then w else w.(row := Some(SeedRow(w)))
  }

  /** `write_state`: its `state_version <` guard drops a write that would not move the version forward. */
  function WriteState(w: Workspace, state: StoreState): Workspace
    requires w.row.Some?
  {
    var row := w.row.value;
    if row.version < state.version then
      w.(row := Some(row.(version := state.version, state := state)))
    else w
  }

  function FindRecord(w: Workspace, key: RecordKey): Option<Record> {
    if key in w.records then Some(w.records[key]) else None
  }

  /** `record_result`: a plain INSERT, `None` when the key is already there. */
  function RecordResult(w: Workspace, key: RecordKey, record: Record): Option<Workspace> {
    if key in w.records then None else Some(w.(records := w.records[key := record]))
  }

  /** The row `set_confirmation_status` leaves behind when its guard matches. */
  function Moved(c: Confirmation, status: Status, stamp: Instant, consumedAt: Option<Instant>): Confirmation {
    c.(status := status, decidedAt := if c.decidedAt.Some? then c.decidedAt else Some(stamp), consumedAt := consumedAt)
  }

  /** `set_confirmation_status`: compare-and-set on the stored status, `None` when no row matched. */
  function SetStatus(w: Workspace, id: string, status: Status, expected: Status,
                     stamp: Instant, consumedAt: Option<Instant>): Option<Workspace> {
    if id in w.confirmations && w.confirmations[id].status == expected then
      Some(w.(confirmations := w.confirmations[id := Moved(w.confirmations[id], status, stamp, consumedAt)]))
    else None
  }

  /** `expire_pending_confirmations` on one row; the comparison is between stored texts. */
  function Swept(c: Confirmation, now: Instant): Confirmation {
    if c.status == Pending && IsoLe(Iso(c.expiresAt), Iso(now)) then
      c.(status := Expired, decidedAt := if c.decidedAt.Some? then c.decidedAt else Some(now))
    else c
  }

  function Sweep(w: Workspace, now: Instant): Workspace {
    w.(confirmations := map id | id in w.confirmations :: Swept(w.confirmations[id], now))
  }

  /** `reset_workspace`: every record and confirmation is deleted, and the scenario columns stay. */
  function ResetWorkspace(w: Workspace): Workspace {
    Workspace(if w.row.Some? then Some(SeedRow(w)) else w.row,
              w.records - w.records.Keys, w.confirmations - w.confirmations.Keys)
  }

  function WriteScenario(w: Workspace, scenario: Scenario): Workspace {
    if w.row.Some? then w.(row := Some(w.row.value.(scenario := scenario))) else w
  }

  /** `select_scenario`: the workspace is seeded if need be, reset, and given its scenario. */
  function Selected(w: Workspace, scenario: Scenario): (selected: Workspace)
    ensures selected.row.Some?
  {
    WriteScenario(ResetWorkspace(Ensured(w)), scenario)
  }

  // -- update_cart ------------------------------------------------------------

  const MIN_REQUEST_ID := 8
  const MAX_REQUEST_ID := 80
  const UNDECLARED_NOTE := "leave with the neighbour"

  predicate ValidRequestId(requestId: string) {
    MIN_REQUEST_ID <= |requestId| <= MAX_REQUEST_ID
  }

  function PreferencesAfter(current: StoreState, scenario: Scenario): Preferences {
    if scenario.Injects(UndeclaredSideEffect) then
      current.target.preferences.(deliveryNote := UNDECLARED_NOTE)
    else current.target.preferences
  }

  /** The cart lines after the assignment, or after the duplicated sum, which saturates at the line bound. */
  function AssignLine(items: Lines, product: Product, quantity: int, duplicating: bool): Lines {
    if quantity == 0 then items - {product.lineKey} else
    var applied :=
      if duplicating && product.lineKey in items then
        var sum := items[product.lineKey].quantity + quantity;
        if sum < MAX_LINE_QUANTITY then sum else MAX_LINE_QUANTITY
      else quantity;
    items[product.lineKey := CartLine(product.productId, applied, product.price)]
  }

  /** `_apply_quantity`: the current state itself when nothing moved. */
  function ApplyQuantity(current: StoreState, product: Product, quantity: int, scenario: Scenario,
                         duplicating: bool): Option<StoreState> {
    var cart := current.target.cart;
    match BuildCart(AssignLine(cart.items, product, quantity, duplicating), cart.Code())
    case None => None
    case Some(rebuilt) =>
      var target := TargetState(rebuilt, current.target.order, PreferencesAfter(current, scenario));
      Some(if target == current.target then current else current.Next(target))
  }

  function CartResponse(state: StoreState, status: ResponseStatus): Response {
    Response(status, state.version, None, state.target.cart)
  }

  function UpdateCart(w: Workspace, productId: string, quantity: int, requestId: string): Result {
    if !ValidRequestId(requestId) then Result(w, Refused(BadRequestId))
    else if ProductById(productId).None? then Result(w, Refused(ProductNotFound))
    else if !(0 <= quantity <= MAX_LINE_QUANTITY) then Result(w, Refused(BadQuantity))
    else UpdateCartTransaction(Ensured(w), ProductById(productId).value, quantity, requestId)
  }

  function UpdateCartTransaction(w: Workspace, product: Product, quantity: int, requestId: string): Result
    requires w.row.Some?
  {
    var key := RecordKey(UpdateCartTool, requestId);
    var payload := CartPayload(product.productId, quantity);
    var found := FindRecord(w, key);
    var current, scenario := w.row.value.state, w.row.value.scenario;
    if found.Some? && found.value.payload != payload then
      Result(w, Refused(IdempotencyKeyReused))
    else if found.Some? && !scenario.Injects(DuplicateOnRetry) then
      Result(w, Done(found.value.response, true))
    else
      match ApplyQuantity(current, product, quantity, scenario, found.Some?)
      case None => Result(w, Crashed)
      case Some(next) =>
        var written := if next == current then w else WriteState(w, next);
        var response := CartResponse(next, Success);
        if found.Some? then Result(written, Done(response, false)) else
        match RecordResult(written, key, Record(payload, response, next.version))
        case None => Result(w, Crashed)
        case Some(recorded) => Result(recorded, Done(response, false))
  }

  // -- apply_discount ---------------------------------------------------------

  function ApplyDiscount(w: Workspace, code: string): Result {
    if DiscountPercent(code).None? then Result(w, Refused(DiscountNotFound))
    else ApplyDiscountTransaction(Ensured(w), code)
  }

  function ApplyDiscountTransaction(w: Workspace, code: string): Result
    requires w.row.Some?
  {
    var current := w.row.value.state;
    var cart := current.target.cart;
    var faulty := w.row.value.scenario.Injects(DiscountReportedButNotApplied);
    if !faulty && cart.Code() == Some(code) then
      Result(w, Done(CartResponse(current, AlreadyApplied), false))
    else
      match BuildCart(cart.items, Some(code))
      case None => Result(w, Crashed)
      case Some(discounted) =>
        if faulty then
          Result(w, Done(Response(Success, current.version, None, discounted), false))
        else
          var next := current.Next(current.target.(cart := discounted));
          Result(WriteState(w, next), Done(CartResponse(next, Success), false))
  }

  // -- confirmations ----------------------------------------------------------

  const MIN_EXPIRY_SECONDS := 10
  const MAX_EXPIRY_SECONDS := 300

  function NewConfirmation(seen: StoreState, lifetime: nat, now: Instant): Confirmation {
    var cart := seen.target.cart;
    Confirmation(Pending, cart, Consequence(seen.version, cart.total, |cart.items|),
                 now + lifetime * MICROS, now, None, None)
  }

  /** The insert of `request_confirmation`, binding the state read before it. The id is a primary key. */
  function InsertConfirmation(w: Workspace, id: string, seen: StoreState, lifetime: nat, now: Instant): Result {
    if w.row.None? || id in w.confirmations then Result(w, Crashed) else
    var confirmation := NewConfirmation(seen, lifetime, now);
    Result(w.(confirmations := w.confirmations[id := confirmation]), Noted(confirmation))
  }

  /** `request_confirmation` under the workspace lock: nothing comes between its read and its insert. */
  function RequestConfirmation(w: Workspace, id: string, expiresIn: int, now: Instant): Result {
    if !(MIN_EXPIRY_SECONDS <= expiresIn <= MAX_EXPIRY_SECONDS) then Result(w, Refused(BadExpiry)) else
    var seeded := Ensured(w);
    InsertConfirmation(seeded, id, seeded.row.value.state, expiresIn, now)
  }

  /** Why the confirmation `id` cannot be decided at this instant, if it cannot. */
  function DecisionError(w: Workspace, id: string, now: Instant): Option<Error> {
    if id == "" then Some(BadConfirmationId)
    else if id !in w.confirmations then Some(UnknownConfirmation)
    else
      var effective := w.confirmations[id].EffectiveStatus(now);
      if effective != Pending then Some(NotPending(effective)) else None
  }

  /** `_transition`: a decision or a cancellation of a pending confirmation. */
  function Transition(w: Workspace, id: string, target: Status, now: Instant, stamp: Instant): Result {
    if DecisionError(w, id, now).Some? then Result(w, Refused(DecisionError(w, id, now).value)) else
    match SetStatus(w, id, target, Pending, stamp, None)
    case None => Result(w, Refused(AlreadyDecided))
    case Some(moved) => Result(moved, Noted(moved.confirmations[id]))
  }

  // -- checkout ---------------------------------------------------------------

  /** `_require_authorization`: `None` when the confirmation authorizes this state at this instant. */
  function AuthorizationError(c: Confirmation, state: StoreState, now: Instant): Option<Error> {
    var effective := c.EffectiveStatus(now);
    if effective != Approved then Some(NotAuthorizing(effective))
    else if c.bound != state.target.cart then Some(CartChanged)
    else None
  }

  /** Why the confirmation `id` cannot be spent on this state, if it cannot. */
  function SpendError(w: Workspace, id: string, state: StoreState, now: Instant): Option<Error> {
    if id == "" then Some(BadConfirmationId)
    else if id !in w.confirmations then Some(UnknownConfirmation)
    else AuthorizationError(w.confirmations[id], state, now)
  }

  function Ordered(state: StoreState, orderId: string): StoreState {
    state.Next(state.target.(order := Order(true, Some(orderId))))
  }

  function OrderResponse(state: StoreState, orderId: string): Response {
    Response(Success, state.version, Some(orderId), state.target.cart)
  }

  function Checkout(w: Workspace, id: string, requestId: string, orderId: string,
                    now: Instant, stamp: Instant, spentAt: Instant): Result {
    if !ValidRequestId(requestId) then Result(w, Refused(BadRequestId))
    else CheckoutTransaction(Ensured(w), id, requestId, orderId, now, stamp, spentAt)
  }

  function CheckoutTransaction(w: Workspace, id: string, requestId: string, orderId: string,
                               now: Instant, stamp: Instant, spentAt: Instant): Result
    requires w.row.Some?
  {
    var key := RecordKey(CheckoutTool, requestId);
    var payload := CheckoutPayload(id);
    var found := FindRecord(w, key);
    var current := w.row.value.state;
    if found.Some? && found.value.payload != payload then Result(w, Refused(IdempotencyKeyReused))
    else if found.Some? then Result(w, Done(found.value.response, true))
    else if SpendError(w, id, current, now).Some? then Result(w, Refused(SpendError(w, id, current, now).value))
    else
      match SetStatus(w, id, Consumed, Approved, stamp, Some(spentAt))
      case None => Result(w, Refused(AlreadyUsed))
      case Some(spent) =>
        var next := Ordered(current, orderId);
        var response := OrderResponse(next, orderId);
        match RecordResult(WriteState(spent, next), key, Record(payload, response, next.version))
        case None => Result(w, Crashed)
        case Some(recorded) => Result(recorded, Done(response, false))
  }

  // -- runs -------------------------------------------------------------------

  /**
   One atomic step. `InsertConfirmation` is the second half of a request whose read happened earlier, and
   `Reset` and `WriteScenario` are the two transactions of `select_scenario`.
   */
  datatype Op =
    | UpdateCartOp(productId: string, quantity: int, requestId: string)
    | ApplyDiscountOp(code: string)
    | RequestOp(id: string, expiresIn: int, now: Instant)
    | InsertOp(id: string, seen: StoreState, lifetime: nat, now: Instant)
    | DecideOp(id: string, approved: bool, now: Instant, stamp: Instant)
    | CancelOp(id: string, now: Instant, stamp: Instant)
    | CheckoutOp(id: string, requestId: string, orderId: string, now: Instant, stamp: Instant, spentAt: Instant)
    | SweepOp(now: Instant)
    | ResetOp
    | WriteScenarioOp(scenario: Scenario)
    | ReadOp

  function Step(w: Workspace, op: Op): Result {
    match op
    case UpdateCartOp(productId, quantity, requestId) => UpdateCart(w, productId, quantity, requestId)
    case ApplyDiscountOp(code) => ApplyDiscount(w, code)
    case RequestOp(id, expiresIn, now) => RequestConfirmation(w, id, expiresIn, now)
    case InsertOp(id, seen, lifetime, now) => InsertConfirmation(w, id, seen, lifetime, now)
    case DecideOp(id, approved, now, stamp) => Transition(w, id, if approved then Approved else Denied, now, stamp)
    case CancelOp(id, now, stamp) => Transition(w, id, Cancelled, now, stamp)
    case CheckoutOp(id, requestId, orderId, now, stamp, spentAt) =>
      Checkout(w, id, requestId, orderId, now, stamp, spentAt)
    case SweepOp(now) => Result(Sweep(w, now), Quiet)
    case ResetOp => Result(ResetWorkspace(w), Quiet)
    case WriteScenarioOp(scenario) => Result(WriteScenario(w, scenario), Quiet)
    case ReadOp => Result(Ensured(w), Quiet)
  }

  /** The workspace after a log of operations. */
  function Run(w: Workspace, ops: seq<Op>): Workspace {
    if ops == [] then w else Step(Run(w, ops[..|ops| - 1]), ops[|ops| - 1]).after
  }

  /** The outcome of the `i`-th operation of a log. */
  function OutcomeAt(w: Workspace, ops: seq<Op>, i: nat): Outcome
    requires i < |ops|
  {
    Step(Run(w, ops[..i]), ops[i]).outcome
  }

  lemma {:induction false} RunConcat(w: Workspace, a: seq<Op>, b: seq<Op>)
    ensures Run(w, a + b) == Run(Run(w, a), b)
  {
    if b == [] {
      assert a + b == a;
    } else {
      var front := b[..|b| - 1];
      RunConcat(w, a, front);
      assert (a + b)[..|a + b| - 1] == a + front;
    }
  }

  /** The log without its last operation has the same earlier states. */
  lemma PrefixOfFront(ops: seq<Op>, i: nat)
    requires i < |ops|
    ensures ops[..|ops| - 1][..i] == ops[..i]
  {
  }

  lemma PrefixOfPrefix(ops: seq<Op>, n: nat, m: nat)
    requires n <= m <= |ops|
    ensures ops[..m][..n] == ops[..n]
  {
  }

  lemma RunOneMore(w: Workspace, ops: seq<Op>, op: Op)
    ensures Run(w, ops + [op]) == Step(Run(w, ops), op).after
    ensures OutcomeAt(w, ops + [op], |ops|) == Step(Run(w, ops), op).outcome
  {
    assert (ops + [op])[..|ops|] == ops;
  }

  lemma OutcomeInPrefix(w: Workspace, ops: seq<Op>, i: nat)
    requires i < |ops|
    ensures OutcomeAt(w, ops[..i + 1], i) == OutcomeAt(w, ops, i)
  {
    assert ops[..i + 1][..i] == ops[..i];
  }
}
