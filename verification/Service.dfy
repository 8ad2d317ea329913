/**
 The store's operations over its repository (service.py), statement by statement. Each method is proved to leave every
 workspace exactly as the step functions say, and to answer as they do.
 */
module Service {
  import opened Wrappers
  import opened Catalog
  import opened Models
  import opened Documents
  import opened Instants
  import opened Store
  import opened Reachable
  import opened Database
  import opened Tables
  import opened Repository

  /** One workspace has become `w`; every other is as it was. */
  ghost predicate Became(before: Workspaces, after: Workspaces, ws: string, w: Workspace) {
    SameViews(after, before[ws := w])
  }

  lemma BecameTwice(before: Workspaces, between: Workspaces, after: Workspaces, ws: string, v: Workspace, w: Workspace)
    requires Became(before, between, ws, v) && Became(between, after, ws, w)
    ensures Became(before, after, ws, w)
  {
    forall other ensures View(after, other) == View(before[ws := w], other) {
      assert View(after, other) == View(between[ws := w], other);
      assert View(between, other) == View(before[ws := v], other);
    }
  }

  /** Every workspace keeps the invariant of the operations. */
  ghost predicate AllGood(db: Workspaces) {
    forall ws {:trigger Good(View(db, ws))} :: Good(View(db, ws))
  }

  lemma StillGood(before: Workspaces, after: Workspaces, ws: string, w: Workspace)
    requires AllGood(before) && Became(before, after, ws, w) && Good(w)
    ensures AllGood(after)
  {
    forall other ensures Good(View(after, other)) {
      assert Good(View(before, other));
      assert View(after, other) == View(before[ws := w], other);
    }
  }

  lemma NothingIsGood()
    ensures AllGood(map[])
  {
    UntouchedExists();
  }

  /** How `select_scenario` answers: the unshipped profile is refused as unavailable, an unknown name as invalid. */
  datatype Selection = Chosen(scenario: Scenario) | UnknownMode | UnknownProfile | UnavailableProfile

  function SelectionOf(mode: string, profile: string): Selection {
    match (ModeNamed(mode), ProfileNamed(profile))
    case (None, _) => UnknownMode
    case (_, None) => UnknownProfile
    case (Some(m), Some(p)) => if Implemented(p) then Chosen(Scenario(m, p)) else UnavailableProfile
  }

  /** The names a selection accepts, and what each of them selects. */
  lemma SelectionIsByName(mode: string, profile: string)
    ensures SelectionOf(mode, profile)
         == if mode !in {"pre_fix", "post_fix"} then UnknownMode
            else if profile == "checkout_without_confirmation" then UnavailableProfile
            else if profile !in {"none", "duplicate_on_retry", "discount_reported_but_not_applied",
                                 "undeclared_side_effect", "tool_surface_poisoned"} then UnknownProfile
            else Chosen(Scenario(if mode == "pre_fix" then PreFix else PostFix,
                                 if profile == "duplicate_on_retry" then DuplicateOnRetry
                                 else if profile == "undeclared_side_effect" then UndeclaredSideEffect
                                 else if profile == "discount_reported_but_not_applied"
                                 then DiscountReportedButNotApplied
                                 else if profile == "tool_surface_poisoned" then ToolSurfacePoisoned else NoFault))
  {
    assert |"pre_fix"| == 7 && |"post_fix"| == 8;
    assert |"none"| == 4 && |"duplicate_on_retry"| == 18 && |"discount_reported_but_not_applied"| == 33;
    assert |"undeclared_side_effect"| == 22 && |"tool_surface_poisoned"| == 21;
    assert |"checkout_without_confirmation"| == 29;
  }

  lemma HonestStateIsValid(state: StoreState)
    requires HonestState(state)
    ensures state.Valid()
  {
    HonestCartBounds(state.target.cart);
  }

  /** `_apply_quantity`: the lines are edited in a copy, and a rebuilt document equal to the stored one is no change. */
  method AssignQuantity(current: StoreState, product: Product, quantity: int, scenario: Scenario, duplicating: bool)
    returns (next: Option<StoreState>)
    requires HonestState(current)
    requires ProductById(product.productId) == Some(product) && 0 <= quantity <= MAX_LINE_QUANTITY
    ensures next == ApplyQuantity(current, product, quantity, scenario, duplicating)
    ensures next.Some? && HonestState(next.value)
  {
    var items := current.target.cart.items;
    if quantity == 0 {
      items := items - {product.lineKey};
    } else {
      var applied := quantity;
      if duplicating && product.lineKey in items {
        applied := items[product.lineKey].quantity + quantity;
        if applied > MAX_LINE_QUANTITY {
          applied := MAX_LINE_QUANTITY;
        }
      }
      items := items[product.lineKey := CartLine(product.productId, applied, product.price)];
    }
    assert items == AssignLine(current.target.cart.items, product, quantity, duplicating);
    ApplyQuantityIsHonest(current, product.productId, quantity, scenario, duplicating);
    var cart := BuildCart(items, current.target.cart.Code());
    if cart.None? {
      return None;
    }
    var rebuilt := TargetState(cart.value, current.target.order, PreferencesAfter(current, scenario));
    ghost var value := ApplyQuantity(current, product, quantity, scenario, duplicating).value;
    assert value.target == rebuilt;
    DocumentsDecide(value, current);
    if TargetDocument(rebuilt) == TargetDocument(current.target) {
      return Some(current);
    }
    return Some(current.Next(rebuilt));
  }

  /** `_require_authorization`: the binding is compared document against document. */
  method RequireAuthorization(c: Confirmation, state: StoreState, now: Instant) returns (error: Option<Error>)
    requires GoodConfirmation(c) && HonestState(state)
    ensures error.None? <==> c.status == Approved && now < c.expiresAt && c.bound == state.target.cart
    ensures error.Some? ==>
              error.value == if c.status in {Pending, Approved} && c.expiresAt <= now then NotAuthorizing(Expired)
              else if c.status != Approved then NotAuthorizing(c.status) else CartChanged
    ensures error == AuthorizationError(c, state, now)
  {
    var effective := c.EffectiveStatus(now);
    if effective != Approved {
      return Some(NotAuthorizing(effective));
    }
    HonestCartBounds(c.bound);
    HonestCartBounds(state.target.cart);
    CartDocumentsDecide(c.bound, state.target.cart);
    if CartDocument(c.bound) != CartDocument(state.target.cart) {
      return Some(CartChanged);
    }
    return None;
  }

  function Written(w: Workspace, current: StoreState, next: StoreState): Workspace
    requires w.row.Some?
  {
    if next == current then w else WriteState(w, next)
  }

  /** An update that is neither refused nor replayed writes what moved, and its record under a new key. */
  lemma UpdateGoesThrough(w: Workspace, product: Product, quantity: int, requestId: string, next: StoreState)
    requires w.row.Some?
    requires var found := FindRecord(w, RecordKey(UpdateCartTool, requestId));
             && (found.Some? ==> found.value.payload == CartPayload(product.productId, quantity))
             && (found.Some? ==> w.row.value.scenario.Injects(DuplicateOnRetry))
             && Some(next) == ApplyQuantity(w.row.value.state, product, quantity, w.row.value.scenario, found.Some?)
    ensures var key, payload := RecordKey(UpdateCartTool, requestId), CartPayload(product.productId, quantity);
            var written, response := Written(w, w.row.value.state, next), CartResponse(next, Success);
            var record := Record(payload, response, next.version);
            Store.UpdateCartTransaction(w, product, quantity, requestId)
            == Result(if key in w.records then written else written.(records := w.records[key := record]),
                      Done(response, false))
  {
  }

  /** A checkout that is neither refused nor replayed spends, orders and records. */
  lemma CheckoutGoesThrough(w: Workspace, id: string, requestId: string, orderId: string,
                            now: Instant, stamp: Instant, spentAt: Instant)
    requires w.row.Some? && RecordKey(CheckoutTool, requestId) !in w.records
    requires SpendError(w, id, w.row.value.state, now).None?
    ensures SetStatus(w, id, Consumed, Approved, stamp, Some(spentAt)).Some?
    ensures var spent := SetStatus(w, id, Consumed, Approved, stamp, Some(spentAt)).value;
            var next := Ordered(w.row.value.state, orderId);
            var written, response := WriteState(spent, next), OrderResponse(next, orderId);
            var key, record := RecordKey(CheckoutTool, requestId), Record(CheckoutPayload(id), response, next.version);
            Store.CheckoutTransaction(w, id, requestId, orderId, now, stamp, spentAt)
            == Result(written.(records := written.records[key := record]), Done(response, false))
  {
  }

  class StoreService {
    const repository: StoreRepository

    /** The tables are sound, and every operation so far was one of these. */
    ghost predicate Valid()
      reads repository
    {
      repository.Valid() && AllGood(repository.db)
    }

    constructor (repository: StoreRepository)
      ensures this.repository == repository
      ensures repository.Valid() && repository.db == map[] ==> Valid()
    {
      this.repository := repository;
      NothingIsGood();
    }

    /** Seeding is a transaction of its own, before the operation's. */
    method Seed(ws: string) returns (state: StoreState)
      requires Valid()
      modifies repository
      ensures Valid()
      ensures repository.db == old(repository.db)[ws := Ensured(View(old(repository.db), ws))]
      ensures state == Ensured(View(old(repository.db), ws)).row.value.state
    {
      ghost var before := repository.db;
      EnsuredIsGood(View(before, ws));
      state := repository.EnsureWorkspace(ws);
      StillGood(before, repository.db, ws, View(repository.db, ws));
    }

    // -- update_cart ----------------------------------------------------------

    method UpdateCart(ws: string, productId: string, quantity: int, requestId: string) returns (reply: Outcome)
      requires Valid()
      modifies repository
      ensures Valid()
      ensures var r := Store.UpdateCart(View(old(repository.db), ws), productId, quantity, requestId);
              Became(old(repository.db), repository.db, ws, r.after) && reply == r.outcome
    {
      if !ValidRequestId(requestId) {
        return Refused(BadRequestId);
      }
      var product := ProductById(productId);
      if product.None? {
        return Refused(ProductNotFound);
      }
      if !(0 <= quantity <= MAX_LINE_QUANTITY) {
        return Refused(BadQuantity);
      }
      LookupsAgree(productId);
      ghost var before := repository.db;
      UpdateCartKeepsGood(View(before, ws), productId, quantity, requestId);
      var _ := Seed(ws);
      ghost var seeded := repository.db;
      reply := UpdateCartTransaction(ws, product.value, quantity, requestId);
      BecameTwice(before, seeded, repository.db, ws, View(seeded, ws), View(repository.db, ws));
      StillGood(before, repository.db, ws, View(repository.db, ws));
    }

    method UpdateCartTransaction(ws: string, product: Product, quantity: int, requestId: string)
      returns (reply: Outcome)
      requires Valid() && View(repository.db, ws).row.Some?
      requires ValidRequestId(requestId) && ProductById(product.productId) == Some(product)
      requires 0 <= quantity <= MAX_LINE_QUANTITY
      modifies repository
      ensures repository.Valid()
      ensures var r := Store.UpdateCartTransaction(View(old(repository.db), ws), product, quantity, requestId);
              Became(old(repository.db), repository.db, ws, r.after) && reply == r.outcome
    {
      var saved := repository.Begin();
      ghost var was, w := repository.db, View(repository.db, ws);
      assert Good(View(repository.db, ws));
      var key, payload := RecordKey(UpdateCartTool, requestId), CartPayload(product.productId, quantity);
      var claim := repository.ReplayOrClaim(ws, key, payload);
      if claim.Conflict? {
        repository.Rollback(saved, was);
        return Refused(IdempotencyKeyReused);
      }
      var current := repository.ReadState(ws);
      var scenario := repository.ReadScenario(ws);
      if claim.Replay? && !scenario.value.Injects(DuplicateOnRetry) {
        return Done(claim.response, true);
      }
      var next := AssignQuantity(current.value, product, quantity, scenario.value, claim.Replay?);
      var response := CartResponse(next.value, Success);
      UpdateGoesThrough(w, product, quantity, requestId, next.value);
      WriteIfMoved(ws, current.value, next.value);
      ghost var between := repository.db;
      assert View(between, ws) == Written(w, current.value, next.value);
      if claim.Proceed? {
        var inserted := repository.RecordResult(ws, key, Record(payload, response, next.value.version));
        assert inserted; // the key was claimed in this transaction
        BecameTwice(was, between, repository.db, ws, View(between, ws), View(repository.db, ws));
      }
      return Done(response, false);
    }

    /** A state that has not moved is not written. */
    method WriteIfMoved(ws: string, current: StoreState, next: StoreState)
      requires repository.Valid() && View(repository.db, ws).row.Some? && HonestState(next)
      modifies repository
      ensures repository.Valid()
      ensures Became(old(repository.db), repository.db, ws, Written(View(old(repository.db), ws), current, next))
    {
      if next != current {
        HonestStateIsValid(next);
        repository.WriteState(ws, next);
      }
    }

    // -- apply_discount -------------------------------------------------------

    method ApplyDiscount(ws: string, code: string) returns (reply: Outcome)
      requires Valid()
      modifies repository
      ensures Valid()
      ensures var r := Store.ApplyDiscount(View(old(repository.db), ws), code);
              Became(old(repository.db), repository.db, ws, r.after) && reply == r.outcome
    {
      if DiscountPercent(code).None? {
        return Refused(DiscountNotFound);
      }
      ghost var before := repository.db;
      ApplyDiscountKeepsGood(View(before, ws), code);
      var _ := Seed(ws);
      ghost var seeded := repository.db;
      reply := ApplyDiscountTransaction(ws, code);
      BecameTwice(before, seeded, repository.db, ws, View(seeded, ws), View(repository.db, ws));
      StillGood(before, repository.db, ws, View(repository.db, ws));
    }

    method ApplyDiscountTransaction(ws: string, code: string) returns (reply: Outcome)
      requires Valid() && View(repository.db, ws).row.Some? && DiscountPercent(code).Some?
      modifies repository
      ensures repository.Valid()
      ensures var r := Store.ApplyDiscountTransaction(View(old(repository.db), ws), code);
              Became(old(repository.db), repository.db, ws, r.after) && reply == r.outcome
    {
      assert Good(View(repository.db, ws));
      var current := repository.ReadState(ws);
      var scenario := repository.ReadScenario(ws);
      var cart := current.value.target.cart;
      BuildCartIsHonest(cart.items, Some(code));
      if scenario.value.Injects(DiscountReportedButNotApplied) {
        var optimistic := BuildCart(cart.items, Some(code));
        return Done(Response(Success, current.value.version, None, optimistic.value), false);
      }
      if cart.discount.Discount? && cart.discount.code == code {
        return Done(CartResponse(current.value, AlreadyApplied), false);
      }
      var rebuilt := BuildCart(cart.items, Some(code));
      var next := current.value.Next(current.value.target.(cart := rebuilt.value));
      HonestStateIsValid(next);
      repository.WriteState(ws, next);
      return Done(CartResponse(next, Success), false);
    }

    // -- scenario selection ---------------------------------------------------

    /** Two transactions: the workspace is reseeded, then the selection is written. */
    method SelectScenario(ws: string, mode: string, profile: string) returns (selection: Selection)
      requires Valid()
      modifies repository
      ensures Valid()
      ensures selection == SelectionOf(mode, profile)
      ensures selection.Chosen? ==>
                Became(old(repository.db), repository.db, ws,
                       Selected(View(old(repository.db), ws), selection.scenario))
      ensures !selection.Chosen? ==> repository.db == old(repository.db)
    {
      if ModeNamed(mode).None? {
        return UnknownMode;
      }
      if ProfileNamed(profile).None? {
        return UnknownProfile;
      }
      if !Implemented(ProfileNamed(profile).value) {
        return UnavailableProfile;
      }
      var scenario := Scenario(ModeNamed(mode).value, ProfileNamed(profile).value);
      var _ := Seed(ws);
      Reset(ws);
      WriteScenario(ws, scenario);
      return Chosen(scenario);
    }

    // -- confirmations --------------------------------------------------------

    method RequestConfirmation(ws: string, id: string, expiresIn: int, now: Instant) returns (reply: Outcome)
      requires Valid()
      modifies repository
      ensures Valid()
      ensures var r := CallResult(old(repository.db), Call(ws, RequestOp(id, expiresIn, now)));
              Became(old(repository.db), repository.db, ws, r.after) && reply == r.outcome
    {
      if !(MIN_EXPIRY_SECONDS <= expiresIn <= MAX_EXPIRY_SECONDS) {
        return Refused(BadExpiry);
      }
      ghost var before := repository.db;
      EnsuredIsGood(View(before, ws));
      var state := Seed(ws);
      ghost var seeded := repository.db;
      TakenElsewhereIgnoresOwn(before, ws, Ensured(View(before, ws)), id);
      reply := Insert(ws, id, state, expiresIn, now);
      BecameTwice(before, seeded, repository.db, ws, View(seeded, ws), View(repository.db, ws));
    }

    /** The insert of a request, binding the state it read, which may since have moved. */
    method Insert(ws: string, id: string, seen: StoreState, lifetime: nat, now: Instant) returns (reply: Outcome)
      requires Valid() && HonestState(seen)
      modifies repository
      ensures Valid()
      ensures var r := CallResult(old(repository.db), Call(ws, InsertOp(id, seen, lifetime, now)));
              Became(old(repository.db), repository.db, ws, r.after) && reply == r.outcome
    {
      ghost var before := repository.db;
      InsertKeepsGood(View(before, ws), id, seen, lifetime, now);
      var c := NewConfirmation(seen, lifetime, now);
      var inserted := repository.InsertConfirmation(ws, id, c);
      StillGood(before, repository.db, ws, View(repository.db, ws));
      return if inserted then Noted(c) else Crashed;
    }

    method Transition(ws: string, id: string, target: Status, now: Instant, stamp: Instant) returns (reply: Outcome)
      requires Valid() && target in {Approved, Denied, Cancelled}
      modifies repository
      ensures Valid()
      ensures var r := Store.Transition(View(old(repository.db), ws), id, target, now, stamp);
              Became(old(repository.db), repository.db, ws, r.after) && reply == r.outcome
    {
      ghost var before := repository.db;
      TransitionKeepsGood(View(before, ws), id, target, now, stamp);
      if id == "" {
        return Refused(BadConfirmationId);
      }
      var found := repository.FindConfirmation(ws, id);
      if found.None? {
        return Refused(UnknownConfirmation);
      }
      var effective := found.value.EffectiveStatus(now);
      if effective != Pending {
        return Refused(NotPending(effective));
      }
      var moved := repository.SetConfirmationStatus(ws, id, target, Pending, stamp, None);
      assert moved; // the pending row was read in this transaction
      StillGood(before, repository.db, ws, View(repository.db, ws));
      var after := repository.FindConfirmation(ws, id);
      return Noted(after.value);
    }

    // -- checkout -------------------------------------------------------------

    method Checkout(ws: string, id: string, requestId: string, orderId: string,
                    now: Instant, stamp: Instant, spentAt: Instant) returns (reply: Outcome)
      requires Valid()
      modifies repository
      ensures Valid()
      ensures var r := Store.Checkout(View(old(repository.db), ws), id, requestId, orderId, now, stamp, spentAt);
              Became(old(repository.db), repository.db, ws, r.after) && reply == r.outcome
    {
      if !ValidRequestId(requestId) {
        return Refused(BadRequestId);
      }
      ghost var before := repository.db;
      CheckoutKeepsGood(View(before, ws), id, requestId, orderId, now, stamp, spentAt);
      var _ := Seed(ws);
      ghost var seeded := repository.db;
      reply := CheckoutTransaction(ws, id, requestId, orderId, now, stamp, spentAt);
      BecameTwice(before, seeded, repository.db, ws, View(seeded, ws), View(repository.db, ws));
      StillGood(before, repository.db, ws, View(repository.db, ws));
    }

    /** The consume, the order and the record are one transaction. */
    method CheckoutTransaction(ws: string, id: string, requestId: string, orderId: string,
                               now: Instant, stamp: Instant, spentAt: Instant) returns (reply: Outcome)
      requires Valid() && View(repository.db, ws).row.Some? && ValidRequestId(requestId)
      modifies repository
      ensures repository.Valid()
      ensures var w := View(old(repository.db), ws);
              var r := Store.CheckoutTransaction(w, id, requestId, orderId, now, stamp, spentAt);
              Became(old(repository.db), repository.db, ws, r.after) && reply == r.outcome
    {
      var saved := repository.Begin();
      ghost var was, w := repository.db, View(repository.db, ws);
      assert Good(w);
      var key, payload := RecordKey(CheckoutTool, requestId), CheckoutPayload(id);
      var claim := repository.ReplayOrClaim(ws, key, payload);
      if claim.Conflict? {
        repository.Rollback(saved, was);
        return Refused(IdempotencyKeyReused);
      }
      var current := repository.ReadState(ws);
      if claim.Replay? {
        return Done(claim.response, true);
      }
      if id == "" {
        repository.Rollback(saved, was);
        return Refused(BadConfirmationId);
      }
      var found := repository.FindConfirmation(ws, id);
      if found.None? {
        repository.Rollback(saved, was);
        return Refused(UnknownConfirmation);
      }
      var error := RequireAuthorization(found.value, current.value, now);
      if error.Some? {
        repository.Rollback(saved, was);
        return Refused(error.value);
      }
      reply := Spend(ws, current.value, id, requestId, orderId, now, stamp, spentAt);
    }

    /** The consume, the order and the record, once everything has been checked. */
    method Spend(ws: string, current: StoreState, id: string, requestId: string, orderId: string,
                 ghost now: Instant, stamp: Instant, spentAt: Instant) returns (reply: Outcome)
      requires Valid() && View(repository.db, ws).row.Some? && current == View(repository.db, ws).row.value.state
      requires RecordKey(CheckoutTool, requestId) !in View(repository.db, ws).records
      requires SpendError(View(repository.db, ws), id, current, now).None?
      modifies repository
      ensures repository.Valid()
      ensures var w := View(old(repository.db), ws);
              var r := Store.CheckoutTransaction(w, id, requestId, orderId, now, stamp, spentAt);
              Became(old(repository.db), repository.db, ws, r.after) && reply == r.outcome
    {
      assert Good(View(repository.db, ws));
      CheckoutGoesThrough(View(repository.db, ws), id, requestId, orderId, now, stamp, spentAt);
      var consumed := repository.SetConfirmationStatus(ws, id, Consumed, Approved, stamp, Some(spentAt));
      assert consumed; // the approval was read in this transaction
      var next := Ordered(current, orderId);
      HonestStateIsValid(next);
      repository.WriteState(ws, next);
      var key, response := RecordKey(CheckoutTool, requestId), OrderResponse(next, orderId);
      var inserted := repository.RecordResult(ws, key, Record(CheckoutPayload(id), response, next.version));
      assert inserted; // the key was claimed in this transaction
      return Done(response, false);
    }

    // -- whole logs -----------------------------------------------------------

    /** The statements that are transactions by themselves. */
    method Sweep(ws: string, now: Instant)
      requires Valid()
      modifies repository
      ensures Valid()
      ensures repository.db == old(repository.db)[ws := Store.Sweep(View(old(repository.db), ws), now)]
    {
      ghost var before := repository.db;
      SweepKeepsGood(View(before, ws), now);
      var _ := repository.ExpirePendingConfirmations(ws, now);
      StillGood(before, repository.db, ws, View(repository.db, ws));
    }

    method Reset(ws: string)
      requires Valid()
      modifies repository
      ensures Valid()
      ensures repository.db == old(repository.db)[ws := ResetWorkspace(View(old(repository.db), ws))]
    {
      ghost var before := repository.db;
      SelectionKeepsGood(View(before, ws), DEFAULT_SCENARIO);
      repository.ResetWorkspace(ws);
      StillGood(before, repository.db, ws, View(repository.db, ws));
    }

    method WriteScenario(ws: string, scenario: Scenario)
      requires Valid()
      modifies repository
      ensures Valid()
      ensures repository.db == old(repository.db)[ws := Store.WriteScenario(View(old(repository.db), ws), scenario)]
    {
      ghost var before := repository.db;
      SelectionKeepsGood(View(before, ws), scenario);
      repository.WriteScenario(ws, scenario);
      StillGood(before, repository.db, ws, View(repository.db, ws));
    }

    /** One request about a confirmation. */
    method HandleConfirmation(ws: string, op: Op) returns (reply: Outcome)
      requires Valid() && SoundOp(op) && (op.RequestOp? || op.InsertOp? || op.DecideOp? || op.CancelOp?)
      modifies repository
      ensures Valid()
      ensures SameViews(repository.db, Perform(old(repository.db), Call(ws, op)))
      ensures reply == CallResult(old(repository.db), Call(ws, op)).outcome
    {
      match op {
        case RequestOp(id, expiresIn, now) => reply := RequestConfirmation(ws, id, expiresIn, now);
        case InsertOp(id, seen, lifetime, now) => reply := Insert(ws, id, seen, lifetime, now);
        case DecideOp(id, approved, now, stamp) =>
          reply := Transition(ws, id, if approved then Approved else Denied, now, stamp);
        case CancelOp(id, now, stamp) => reply := Transition(ws, id, Cancelled, now, stamp);
      }
    }

    /** One request: whatever the operation, the database moves and the reply reads as `Perform` says. */
    method Handle(call: Call) returns (reply: Outcome)
      requires Valid() && SoundOp(call.op)
      modifies repository
      ensures Valid()
      ensures SameViews(repository.db, Perform(old(repository.db), call))
      ensures reply == CallResult(old(repository.db), call).outcome
    {
      reply := Quiet;
      var ws := call.ws;
      match call.op {
        case UpdateCartOp(productId, quantity, requestId) => reply := UpdateCart(ws, productId, quantity, requestId);
        case ApplyDiscountOp(code) => reply := ApplyDiscount(ws, code);
        case CheckoutOp(id, requestId, orderId, now, stamp, spentAt) =>
          reply := Checkout(ws, id, requestId, orderId, now, stamp, spentAt);
        case SweepOp(now) => Sweep(ws, now);
        case ResetOp => Reset(ws);
        case WriteScenarioOp(scenario) => WriteScenario(ws, scenario);
        case ReadOp => var _ := Seed(ws);
        case _ => reply := HandleConfirmation(ws, call.op);
      }
    }

    /** A whole log of requests from any number of workspaces. */
    method HandleAll(log: seq<Call>) returns (replies: seq<Outcome>)
      requires Valid()
      requires forall i :: 0 <= i < |log| ==> SoundOp(log[i].op)
      modifies repository
      ensures Valid()
      ensures SameViews(repository.db, PerformAll(old(repository.db), log))
      ensures replies == Replies(old(repository.db), log)
    {
      ghost var before := repository.db;
      replies := [];
      for k := 0 to |log|
        invariant Valid()
        invariant SameViews(repository.db, PerformAll(before, log[..k]))
        invariant replies == Replies(before, log[..k])
      {
        SameViewsSameResult(repository.db, PerformAll(before, log[..k]), log[k]);
        OneMoreCall(before, log, k);
        var reply := Handle(log[k]);
        replies := replies + [reply];
      }
      assert log[..|log|] == log;
    }
  }
}
