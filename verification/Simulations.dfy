/**
 Two fault profiles against the corrected store: the same operations, run from one state under `pre_fix` and under
 `post_fix`, differ exactly as described here and in nothing else.
 */
module Simulations {
  import opened Wrappers
  import opened Catalog
  import opened Models
  import opened Instants
  import opened Store
  import opened Reachable

  function StateOf(w: Workspace): StoreState
    requires w.row.Some?
  {
    w.row.value.state
  }

  predicate Runs(w: Workspace, mode: Mode, profile: Profile) {
    w.row.Some? && w.row.value.scenario == Scenario(mode, profile)
  }

  // -- undeclared_side_effect -------------------------------------------------

  /** Responses that differ at most in the version they report. */
  predicate SameResponse(a: Response, b: Response) {
    a.status == b.status && a.orderId == b.orderId && a.cart == b.cart
  }

  /** Confirmations that differ at most in the version shown to the human. */
  predicate SameConfirmation(a: Confirmation, b: Confirmation) {
    a == b.(consequence := a.consequence) && a.consequence == b.consequence.(stateVersion := a.consequence.stateVersion)
  }

  predicate SameOutcome(a: Outcome, b: Outcome) {
    match a
    case Done(response, replayed) => b.Done? && SameResponse(response, b.response) && replayed == b.replayed
    case Noted(confirmation) => b.Noted? && SameConfirmation(confirmation, b.confirmation)
    case _ => a == b
  }

  /** Equal carts, orders, records and confirmations, up to versions; the delivery note may differ. */
  ghost predicate Twins(a: Workspace, b: Workspace) {
    && Good(a) && Good(b)
    && Runs(a, PreFix, UndeclaredSideEffect) && Runs(b, PostFix, UndeclaredSideEffect)
    && StateOf(a).target.cart == StateOf(b).target.cart
    && StateOf(a).target.order == StateOf(b).target.order
    && StateOf(a).target.preferences.giftWrap == StateOf(b).target.preferences.giftWrap
    && SameRecords(a, b) && SameConfirmations(a, b)
  }

  ghost predicate SameRecords(a: Workspace, b: Workspace) {
    && a.records.Keys == b.records.Keys
    && (forall k :: k in a.records ==>
                      && a.records[k].payload == b.records[k].payload
                      && SameResponse(a.records[k].response, b.records[k].response))
  }

  ghost predicate SameConfirmations(a: Workspace, b: Workspace) {
    && a.confirmations.Keys == b.confirmations.Keys
    && (forall id :: id in a.confirmations ==> SameConfirmation(a.confirmations[id], b.confirmations[id]))
  }

  function Note(w: Workspace): string
    requires w.row.Some?
  {
    StateOf(w).target.preferences.deliveryNote
  }

  /** How far the faulty store's version is ahead. */
  function Gap(a: Workspace, b: Workspace): int
    requires a.row.Some? && b.row.Some?
  {
    StateOf(a).version - StateOf(b).version
  }

  /** A fresh, successful `update_cart`. */
  predicate FreshUpdate(op: Op, outcome: Outcome) {
    op.UpdateCartOp? && outcome.Done? && !outcome.replayed
  }

  /** The two results of one step on twins: twins again, with the same outcome, and the note and gap accounted for. */
  ghost predicate TwinResults(a: Workspace, b: Workspace, op: Op, x: Result, y: Result)
    requires Twins(a, b)
  {
    && Twins(x.after, y.after)
    && SameOutcome(x.outcome, y.outcome)
    && Note(y.after) == (if op.ResetOp? then "" else Note(b))
    && Note(x.after) == (if op.ResetOp? then "" else if FreshUpdate(op, x.outcome) then UNDECLARED_NOTE else Note(a))
    && Gap(x.after, y.after) == (if op.ResetOp? then 0 else Gap(a, b) + Opens(a, op, x))
  }

  /** One when the step is the update that sets the note without moving a line. */
  function Opens(a: Workspace, op: Op, x: Result): int
    requires a.row.Some? && x.after.row.Some?
  {
    if FreshUpdate(op, x.outcome) && Note(a) == "" && StateOf(x.after).target.cart == StateOf(a).target.cart
    then 1 else 0
  }

  /** Adding one record and writing one state on each side keeps twins. */
  lemma TwinsAfterRecord(a: Workspace, b: Workspace, x: Workspace, y: Workspace, key: RecordKey)
    requires Twins(a, b) && Good(x) && Good(y)
    requires Runs(x, PreFix, UndeclaredSideEffect) && Runs(y, PostFix, UndeclaredSideEffect)
    requires StateOf(x).target.cart == StateOf(y).target.cart
    requires StateOf(x).target.order == StateOf(y).target.order
    requires StateOf(x).target.preferences.giftWrap == StateOf(y).target.preferences.giftWrap
    requires key in x.records && x.records == a.records[key := x.records[key]]
    requires key in y.records && y.records == b.records[key := y.records[key]]
    requires x.records[key].payload == y.records[key].payload
    requires SameResponse(x.records[key].response, y.records[key].response)
    requires SameConfirmations(x, y)
    ensures Twins(x, y)
  {
    SameAfterRecord(a, b, key, x.records[key], y.records[key], x, y);
  }

  lemma SameAfterRecord(a: Workspace, b: Workspace, key: RecordKey, r: Record, q: Record, x: Workspace, y: Workspace)
    requires SameRecords(a, b) && r.payload == q.payload && SameResponse(r.response, q.response)
    requires x.records == a.records[key := r] && y.records == b.records[key := q]
    ensures SameRecords(x, y)
  {
  }

  lemma TwinFirstUse(a: Workspace, b: Workspace, op: Op)
    requires Twins(a, b) && Note(b) == "" && FirstUse(a, op)
    ensures TwinResults(a, b, op, Step(a, op), Step(b, op))
  {
    var s, t := ScenarioOf(a), ScenarioOf(b);
    ApplyQuantityIsHonest(StateOf(a), op.productId, op.quantity, s, false);
    ApplyQuantityIsHonest(StateOf(b), op.productId, op.quantity, t, false);
    UpdateCartKeepsGood(a, op.productId, op.quantity, op.requestId);
    UpdateCartKeepsGood(b, op.productId, op.quantity, op.requestId);
    FirstUseEffect(a, op);
    FirstUseEffect(b, op);
    TwinFirstUseResults(a, b, op, UpdatedState(a, op).value, UpdatedState(b, op).value);
  }

  lemma TwinFirstUseResults(a: Workspace, b: Workspace, op: Op, x: StoreState, y: StoreState)
    requires Twins(a, b) && Note(b) == "" && FirstUse(a, op) && FirstUse(b, op)
    requires Good(FirstUseResult(a, op, x).after) && Good(FirstUseResult(b, op, y).after)
    requires x.target.cart.items == y.target.cart.items && x.target.cart.Code() == y.target.cart.Code()
    requires x.target.order == StateOf(a).target.order && y.target.order == StateOf(b).target.order
    requires x.target.preferences == StateOf(a).target.preferences.(deliveryNote := UNDECLARED_NOTE)
    requires y.target.preferences == StateOf(b).target.preferences
    requires x.version == StateOf(a).version + (if x.target == StateOf(a).target then 0 else 1)
    requires y.version == StateOf(b).version + (if y.target == StateOf(b).target then 0 else 1)
    ensures TwinResults(a, b, op, FirstUseResult(a, op, x), FirstUseResult(b, op, y))
  {
    HonestCartIsBuilt(x.target.cart);
    HonestCartIsBuilt(y.target.cart);
    TwinsAfterFirstUse(a, b, op, x, y);
    SideEffectOpensGap(StateOf(a).target, x.target, StateOf(b).target, y.target);
  }

  lemma TwinsAfterFirstUse(a: Workspace, b: Workspace, op: Op, x: StoreState, y: StoreState)
    requires Twins(a, b) && FirstUse(a, op) && FirstUse(b, op)
    requires Good(FirstUseResult(a, op, x).after) && Good(FirstUseResult(b, op, y).after)
    requires x.target.cart == y.target.cart && x.target.order == y.target.order
    requires x.target.preferences.giftWrap == y.target.preferences.giftWrap
    ensures Twins(FirstUseResult(a, op, x).after, FirstUseResult(b, op, y).after)
  {
    TwinsAfterRecord(a, b, FirstUseResult(a, op, x).after, FirstUseResult(b, op, y).after,
                     RecordKey(UpdateCartTool, op.requestId));
  }

  function ScenarioOf(w: Workspace): Scenario
    requires w.row.Some?
  {
    w.row.value.scenario
  }

  /** Both targets move together, except that writing the note for the first time is a change by itself. */
  lemma SideEffectOpensGap(a: TargetState, x: TargetState, b: TargetState, y: TargetState)
    requires a.cart == b.cart && a.order == b.order && a.preferences.giftWrap == b.preferences.giftWrap
    requires x.cart == y.cart && x.order == a.order && y.order == b.order
    requires y.preferences == b.preferences && x.preferences == a.preferences.(deliveryNote := UNDECLARED_NOTE)
    requires a.preferences.deliveryNote in {"", UNDECLARED_NOTE}
    ensures y == b <==> x.cart == a.cart
    ensures x == a <==> x.cart == a.cart && a.preferences.deliveryNote != ""
  {
    assert UNDECLARED_NOTE != "";
  }

  lemma TwinUpdate(a: Workspace, b: Workspace, op: Op)
    requires Twins(a, b) && Note(b) == "" && op.UpdateCartOp?
    ensures TwinResults(a, b, op, Step(a, op), Step(b, op))
  {
    if FirstUse(a, op) {
      TwinFirstUse(a, b, op);
    } else {
      StaleUpdateEffect(a, op);
      StaleUpdateEffect(b, op);
    }
  }

  lemma TwinDiscount(a: Workspace, b: Workspace, op: Op)
    requires Twins(a, b) && op.ApplyDiscountOp?
    ensures TwinResults(a, b, op, Step(a, op), Step(b, op))
  {
    ApplyDiscountKeepsGood(a, op.code);
    ApplyDiscountKeepsGood(b, op.code);
    if DiscountPercent(op.code).Some? {
      DiscountEffect(a, op);
      DiscountEffect(b, op);
      var cart := StateOf(a).target.cart;
      if cart.Code() != Some(op.code) {
        TwinDiscountResults(a, b, op, BuildCart(cart.items, Some(op.code)).value);
      }
    }
  }

  lemma TwinDiscountResults(a: Workspace, b: Workspace, op: Op, cart: Cart)
    requires Twins(a, b) && op.ApplyDiscountOp?
    requires Good(DiscountResult(a, cart).after) && Good(DiscountResult(b, cart).after)
    ensures TwinResults(a, b, op, DiscountResult(a, cart), DiscountResult(b, cart))
  {
  }

  lemma TwinSpend(a: Workspace, b: Workspace, op: Op)
    requires Twins(a, b) && CanSpend(a, op) && CanSpend(b, op)
    ensures TwinResults(a, b, op, Step(a, op), Step(b, op))
  {
    SpendIsGood(a, op);
    SpendIsGood(b, op);
    SpendEffect(a, op);
    SpendEffect(b, op);
    TwinSpendResults(a, b, op);
  }

  lemma TwinSpendResults(a: Workspace, b: Workspace, op: Op)
    requires Twins(a, b) && op.CheckoutOp? && op.id in a.confirmations
    requires RecordKey(CheckoutTool, op.requestId) !in a.records
    requires Good(SpendResult(a, op).after) && Good(SpendResult(b, op).after)
    ensures TwinResults(a, b, op, SpendResult(a, op), SpendResult(b, op))
  {
    SpentTwins(a, b, op);
  }

  lemma SpentTwins(a: Workspace, b: Workspace, op: Op)
    requires Twins(a, b) && op.CheckoutOp? && op.id in a.confirmations
    requires Good(SpendResult(a, op).after) && Good(SpendResult(b, op).after)
    ensures Twins(SpendResult(a, op).after, SpendResult(b, op).after)
  {
    var x, y := SpendResult(a, op).after, SpendResult(b, op).after;
    SameAfterConfirmation(a, b, op.id, x.confirmations[op.id], y.confirmations[op.id], x, y);
    TwinsAfterRecord(a, b, x, y, RecordKey(CheckoutTool, op.requestId));
  }

  lemma SameAfterConfirmation(a: Workspace, b: Workspace, id: string, c: Confirmation, d: Confirmation,
                              x: Workspace, y: Workspace)
    requires SameConfirmations(a, b) && SameConfirmation(c, d)
    requires x.confirmations == a.confirmations[id := c] && y.confirmations == b.confirmations[id := d]
    ensures SameConfirmations(x, y)
  {
  }

  lemma TwinCheckout(a: Workspace, b: Workspace, op: Op)
    requires Twins(a, b) && op.CheckoutOp?
    ensures TwinResults(a, b, op, Step(a, op), Step(b, op))
  {
    SameSpendError(a, b, op);
    if CanSpend(a, op) {
      TwinSpend(a, b, op);
    } else {
      UnspentEffect(a, op);
      UnspentEffect(b, op);
    }
  }

  lemma SameSpendError(a: Workspace, b: Workspace, op: Op)
    requires Twins(a, b) && op.CheckoutOp?
    ensures SpendError(a, op.id, StateOf(a), op.now) == SpendError(b, op.id, StateOf(b), op.now)
  {
  }

  /** Setting one row to the same confirmation on each side keeps twins. */
  lemma TwinsAfterConfirmation(a: Workspace, b: Workspace, id: string, c: Confirmation, d: Confirmation)
    requires Twins(a, b) && SameConfirmation(c, d)
    requires GoodConfirmation(c) && GoodConfirmation(d)
    ensures Twins(a.(confirmations := a.confirmations[id := c]), b.(confirmations := b.confirmations[id := d]))
  {
  }

  lemma TwinRequest(a: Workspace, b: Workspace, op: Op)
    requires Twins(a, b) && op.RequestOp?
    ensures TwinResults(a, b, op, Step(a, op), Step(b, op))
  {
    if MIN_EXPIRY_SECONDS <= op.expiresIn <= MAX_EXPIRY_SECONDS && op.id !in a.confirmations {
      TwinsAfterConfirmation(a, b, op.id, NewConfirmation(StateOf(a), op.expiresIn, op.now),
                             NewConfirmation(StateOf(b), op.expiresIn, op.now));
    }
  }

  lemma TwinTransition(a: Workspace, b: Workspace, id: string, target: Status, now: Instant, stamp: Instant)
    requires Twins(a, b) && target in {Approved, Denied, Cancelled}
    ensures var x, y := Transition(a, id, target, now, stamp), Transition(b, id, target, now, stamp);
            && Twins(x.after, y.after) && SameOutcome(x.outcome, y.outcome)
            && x.after.row == a.row && y.after.row == b.row && !x.outcome.Done?
  {
    SameDecisionError(a, b, id, now);
    if DecisionError(a, id, now).None? {
      DecisionEffect(a, id, target, now, stamp);
      DecisionEffect(b, id, target, now, stamp);
      TwinDecisionResults(a, b, id, Moved(a.confirmations[id], target, stamp, None),
                          Moved(b.confirmations[id], target, stamp, None));
    }
  }

  lemma SameDecisionError(a: Workspace, b: Workspace, id: string, now: Instant)
    requires Twins(a, b)
    ensures DecisionError(a, id, now) == DecisionError(b, id, now)
  {
  }

  lemma TwinDecisionResults(a: Workspace, b: Workspace, id: string, c: Confirmation, d: Confirmation)
    requires Twins(a, b) && SameConfirmation(c, d) && GoodConfirmation(c) && GoodConfirmation(d)
    ensures Twins(DecisionResult(a, id, c).after, DecisionResult(b, id, d).after)
    ensures SameOutcome(DecisionResult(a, id, c).outcome, DecisionResult(b, id, d).outcome)
  {
    TwinsAfterConfirmation(a, b, id, c, d);
  }

  lemma TwinDecision(a: Workspace, b: Workspace, op: Op)
    requires Twins(a, b) && (op.DecideOp? || op.CancelOp?)
    ensures TwinResults(a, b, op, Step(a, op), Step(b, op))
  {
    if op.DecideOp? {
      TwinTransition(a, b, op.id, if op.approved then Approved else Denied, op.now, op.stamp);
    } else {
      TwinTransition(a, b, op.id, Cancelled, op.now, op.stamp);
    }
  }

  lemma TwinSweep(a: Workspace, b: Workspace, op: Op)
    requires Twins(a, b) && op.SweepOp?
    ensures TwinResults(a, b, op, Step(a, op), Step(b, op))
  {
    SweepKeepsGood(a, op.now);
    SweepKeepsGood(b, op.now);
    SweptStaySame(a, b, op.now);
  }

  lemma SweptStaySame(a: Workspace, b: Workspace, now: Instant)
    requires SameConfirmations(a, b)
    ensures SameConfirmations(Sweep(a, now), Sweep(b, now))
  {
    forall id | id in a.confirmations
      ensures SameConfirmation(Swept(a.confirmations[id], now), Swept(b.confirmations[id], now)) {
    }
  }

  lemma TwinReset(a: Workspace, b: Workspace, op: Op)
    requires Twins(a, b) && op.ResetOp?
    ensures TwinResults(a, b, op, Step(a, op), Step(b, op))
  {
    SelectionKeepsGood(a, DEFAULT_SCENARIO);
    SelectionKeepsGood(b, DEFAULT_SCENARIO);
    OneEmptyState();
  }

  /** One request, its insert binding the state that each store held at its read. */
  ghost predicate SameOp(op: Op, other: Op) {
    && !op.WriteScenarioOp?
    && if op.InsertOp? then
         && other.InsertOp? && other == op.(seen := other.seen)
         && HonestState(op.seen) && HonestState(other.seen) && op.seen.target.cart == other.seen.target.cart
       else other == op
  }

  lemma TwinInsert(a: Workspace, b: Workspace, op: Op, other: Op)
    requires Twins(a, b) && op.InsertOp? && SameOp(op, other)
    ensures TwinResults(a, b, op, Step(a, op), Step(b, other))
  {
    if op.id !in a.confirmations {
      TwinsAfterConfirmation(a, b, op.id, NewConfirmation(op.seen, op.lifetime, op.now),
                             NewConfirmation(other.seen, other.lifetime, other.now));
    }
  }

  lemma TwinsStayTwins(a: Workspace, b: Workspace, op: Op, other: Op)
    requires Twins(a, b) && Note(b) == "" && SameOp(op, other)
    ensures TwinResults(a, b, op, Step(a, op), Step(b, other))
  {
    match op
    case UpdateCartOp(_, _, _) => TwinUpdate(a, b, op);
    case ApplyDiscountOp(_) => TwinDiscount(a, b, op);
    case CheckoutOp(_, _, _, _, _, _) => TwinCheckout(a, b, op);
    case SweepOp(_) => TwinSweep(a, b, op);
    case ResetOp => TwinReset(a, b, op);
    case ReadOp =>
    case RequestOp(_, _, _) => TwinRequest(a, b, op);
    case InsertOp(_, _, _, _) => TwinInsert(a, b, op, other);
    case _ => TwinDecision(a, b, op);
  }

  /** A fresh `update_cart` has run since the last reset. */
  ghost predicate Updated(a: Workspace, ops: seq<Op>) {
    if ops == [] then false else
    var front, last := ops[..|ops| - 1], ops[|ops| - 1];
    !last.ResetOp? && (Updated(a, front) || FreshUpdate(last, Step(Run(a, front), last).outcome))
  }

  /** The state a log leaves after its first `r` steps. */
  ghost predicate Held(w: Workspace, ops: seq<Op>, r: nat, s: StoreState) {
    r <= |ops| && Run(w, ops[..r]).row.Some? && StateOf(Run(w, ops[..r])) == s
  }

  /**
   The same requests made of the two stores, in any interleaving of transactions without a scenario selection. A request
   for a confirmation may read at one point and insert at a later one, and then binds what its own store held there.
   */
  ghost predicate SameLogs(a: Workspace, b: Workspace, ops: seq<Op>, others: seq<Op>) {
    |ops| == |others| && forall i :: 0 <= i < |ops| ==> SameCall(a, b, ops, others, i)
  }

  ghost predicate SameCall(a: Workspace, b: Workspace, ops: seq<Op>, others: seq<Op>, i: nat)
    requires i < |ops| == |others|
  {
    && !ops[i].WriteScenarioOp?
    && if ops[i].InsertOp? then
         && others[i].InsertOp? && others[i] == ops[i].(seen := others[i].seen)
         && exists r: nat :: r <= i && Held(a, ops, r, ops[i].seen) && Held(b, others, r, others[i].seen)
       else others[i] == ops[i]
  }

  lemma SameLogsPrefix(a: Workspace, b: Workspace, ops: seq<Op>, others: seq<Op>, n: nat)
    requires SameLogs(a, b, ops, others) && n <= |ops|
    ensures SameLogs(a, b, ops[..n], others[..n])
  {
    forall i | 0 <= i < n ensures SameCall(a, b, ops[..n], others[..n], i) {
      assert SameCall(a, b, ops, others, i);
      if ops[i].InsertOp? {
        var r: nat :| r <= i && Held(a, ops, r, ops[i].seen) && Held(b, others, r, others[i].seen);
        assert ops[..n][..r] == ops[..r] && others[..n][..r] == others[..r];
        assert Held(a, ops[..n], r, ops[i].seen) && Held(b, others[..n], r, others[i].seen);
      }
    }
  }

  /** Twins that nothing has told apart yet. */
  ghost predicate FreshTwins(a: Workspace, b: Workspace) {
    Twins(a, b) && Note(a) == Note(b) == "" && Gap(a, b) == 0
  }

  /** What the fault may have changed after a log. */
  ghost predicate OnlyNoteAndGap(a: Workspace, b: Workspace, updated: bool) {
    && Twins(a, b)
    && Note(b) == ""
    && Note(a) == (if updated then UNDECLARED_NOTE else "")
    && 0 <= Gap(a, b) <= (if updated then 1 else 0)
  }

  /**
   The undeclared side effect, exactly. From one freshly reset state, the same operations with the same ids and
   instants give equal carts, orders, confirmations and outcomes. The faulty store's delivery note is set exactly when
   a fresh `update_cart` has run, the corrected store's never is, and the faulty version is ahead by 0 or 1.
   */
  lemma {:induction false} UndeclaredSideEffectSimulation(a: Workspace, b: Workspace, ops: seq<Op>, others: seq<Op>)
    requires FreshTwins(a, b) && SameLogs(a, b, ops, others)
    ensures OnlyNoteAndGap(Run(a, ops), Run(b, others), Updated(a, ops))
    ensures ops != [] ==> SameOutcome(OutcomeAt(a, ops, |ops| - 1), OutcomeAt(b, others, |others| - 1))
    decreases |ops|, 0
  {
    if ops != [] {
      var n := |ops| - 1;
      SameLogsPrefix(a, b, ops, others, n);
      UndeclaredSideEffectSimulation(a, b, ops[..n], others[..n]);
      SameOpAt(a, b, ops, others, n);
      TwinsStayTwins(Run(a, ops[..n]), Run(b, others[..n]), ops[n], others[n]);
    }
  }

  lemma {:induction false} SameOpAt(a: Workspace, b: Workspace, ops: seq<Op>, others: seq<Op>, i: nat)
    requires FreshTwins(a, b) && SameLogs(a, b, ops, others) && i < |ops|
    ensures SameOp(ops[i], others[i])
    decreases i, 1
  {
    assert SameCall(a, b, ops, others, i);
    if ops[i].InsertOp? {
      var r: nat :| r <= i && Held(a, ops, r, ops[i].seen) && Held(b, others, r, others[i].seen);
      SameLogsPrefix(a, b, ops, others, r);
      UndeclaredSideEffectSimulation(a, b, ops[..r], others[..r]);
    }
  }

  /** Once an update has run, the gap stays what that first update made it, until a reset. */
  lemma {:induction false} GapIsConstant(a: Workspace, b: Workspace, ops: seq<Op>, others: seq<Op>, n: nat)
    requires FreshTwins(a, b) && SameLogs(a, b, ops, others)
    requires n <= |ops| && Updated(a, ops[..n]) && forall i :: n <= i < |ops| ==> !ops[i].ResetOp?
    ensures Updated(a, ops)
    ensures Twins(Run(a, ops[..n]), Run(b, others[..n])) && Twins(Run(a, ops), Run(b, others))
    ensures Gap(Run(a, ops), Run(b, others)) == Gap(Run(a, ops[..n]), Run(b, others[..n]))
    decreases |ops|
  {
    if n == |ops| {
      assert ops[..n] == ops && others[..n] == others;
      UndeclaredSideEffectSimulation(a, b, ops, others);
    } else {
      var m := |ops| - 1;
      PrefixOfPrefix(ops, n, m);
      PrefixOfPrefix(others, n, m);
      SameLogsPrefix(a, b, ops, others, m);
      GapIsConstant(a, b, ops[..m], others[..m], n);
      GapStays(a, b, ops, others);
    }
  }

  lemma GapStays(a: Workspace, b: Workspace, ops: seq<Op>, others: seq<Op>)
    requires FreshTwins(a, b) && SameLogs(a, b, ops, others)
    requires ops != [] && Updated(a, ops[..|ops| - 1]) && !ops[|ops| - 1].ResetOp?
    ensures var m := |ops| - 1;
            && Updated(a, ops)
            && Twins(Run(a, ops[..m]), Run(b, others[..m])) && Twins(Run(a, ops), Run(b, others))
            && Gap(Run(a, ops), Run(b, others)) == Gap(Run(a, ops[..m]), Run(b, others[..m]))
  {
    var m := |ops| - 1;
    SameLogsPrefix(a, b, ops, others, m);
    UndeclaredSideEffectSimulation(a, b, ops[..m], others[..m]);
    SameOpAt(a, b, ops, others, m);
    TwinsStayTwins(Run(a, ops[..m]), Run(b, others[..m]), ops[m], others[m]);
  }

  /** The first update sets the note and opens the gap exactly when it moved no line. */
  lemma FirstUpdateDecidesGap(a: Workspace, b: Workspace, ops: seq<Op>, others: seq<Op>, first: Op)
    requires FreshTwins(a, b) && SameLogs(a, b, ops, others)
    requires !Updated(a, ops) && FreshUpdate(first, Step(Run(a, ops), first).outcome)
    ensures var x, y := Step(Run(a, ops), first).after, Step(Run(b, others), first).after;
            && x.row.Some? && y.row.Some? && Run(a, ops).row.Some?
            && Note(x) == UNDECLARED_NOTE && Note(y) == ""
            && Gap(x, y) == (if StateOf(x).target.cart == StateOf(Run(a, ops)).target.cart then 1 else 0)
  {
    UndeclaredSideEffectSimulation(a, b, ops, others);
    TwinsStayTwins(Run(a, ops), Run(b, others), first, first);
  }

  // -- discount_reported_but_not_applied --------------------------------------

  /** `a` is the faulty store and `b` the corrected one, over the same cart lines. */
  ghost predicate DiscountTwins(a: Workspace, b: Workspace) {
    && Good(a) && Good(b)
    && Runs(a, PreFix, DiscountReportedButNotApplied) && Runs(b, PostFix, DiscountReportedButNotApplied)
    && StateOf(a).target.cart.items == StateOf(b).target.cart.items
    && StateOf(a).target.cart.discount.FullPrice?
    && StateOf(a).target.order == StateOf(b).target.order
    && StateOf(a).target.preferences == StateOf(b).target.preferences
    && SamePayloads(a.records, b.records)
    && StateOf(b).version == StateOf(a).version + (if StateOf(b).target.cart.discount.Discount? then 1 else 0)
  }

  ghost predicate SamePayloads(a: map<RecordKey, Record>, b: map<RecordKey, Record>) {
    a.Keys == b.Keys && forall k :: k in a ==> a[k].payload == b[k].payload
  }

  /** What the fault claims at each step, against what the corrected store does. */
  ghost predicate DiscountOutcome(a: Workspace, b: Workspace, op: Op) {
    var x, y := Step(a, op), Step(b, op);
    && (x.outcome.Done? <==> y.outcome.Done?)
    && (!x.outcome.Done? ==> x.outcome == y.outcome)
    && (op.ApplyDiscountOp? && x.outcome.Done? ==>
          && y.after.row.Some?
          && x.after == a
          && x.outcome.response.status == Success
          && x.outcome.response.cart == StateOf(y.after).target.cart)
  }

  /** Writing states over the same lines, with one record each, keeps the discount twins. */
  lemma DiscountTwinsAfterRecord(a: Workspace, b: Workspace, x: Workspace, y: Workspace, key: RecordKey)
    requires DiscountTwins(a, b) && Good(x) && Good(y)
    requires Runs(x, PreFix, DiscountReportedButNotApplied) && Runs(y, PostFix, DiscountReportedButNotApplied)
    requires StateOf(x).target.cart.items == StateOf(y).target.cart.items
    requires StateOf(x).target.cart.discount.FullPrice?
    requires StateOf(y).target.cart.discount.Discount? <==> StateOf(b).target.cart.discount.Discount?
    requires StateOf(x).target.order == StateOf(y).target.order
    requires StateOf(x).target.preferences == StateOf(y).target.preferences
    requires StateOf(x).version - StateOf(a).version == StateOf(y).version - StateOf(b).version
    requires key in x.records && x.records == a.records[key := x.records[key]]
    requires key in y.records && y.records == b.records[key := y.records[key]]
    requires x.records[key].payload == y.records[key].payload
    ensures DiscountTwins(x, y)
  {
    SamePayloadsAfter(a.records, b.records, key, x.records[key], y.records[key]);
  }

  lemma SamePayloadsAfter(a: map<RecordKey, Record>, b: map<RecordKey, Record>, key: RecordKey, r: Record, q: Record)
    requires SamePayloads(a, b) && r.payload == q.payload
    ensures SamePayloads(a[key := r], b[key := q])
  {
  }

  lemma DiscountTwinFirstUse(a: Workspace, b: Workspace, op: Op)
    requires DiscountTwins(a, b) && FirstUse(a, op)
    ensures DiscountTwins(Step(a, op).after, Step(b, op).after) && DiscountOutcome(a, b, op)
  {
    UpdateCartKeepsGood(a, op.productId, op.quantity, op.requestId);
    UpdateCartKeepsGood(b, op.productId, op.quantity, op.requestId);
    ApplyQuantityIsHonest(StateOf(a), op.productId, op.quantity, ScenarioOf(a), false);
    ApplyQuantityIsHonest(StateOf(b), op.productId, op.quantity, ScenarioOf(b), false);
    LinesDecideChange(StateOf(a), op, ScenarioOf(a));
    LinesDecideChange(StateOf(b), op, ScenarioOf(b));
    FirstUseEffect(a, op);
    FirstUseEffect(b, op);
    DiscountTwinsAfterRecord(a, b, Step(a, op).after, Step(b, op).after, RecordKey(UpdateCartTool, op.requestId));
  }

  lemma DiscountTwinUpdate(a: Workspace, b: Workspace, op: Op)
    requires DiscountTwins(a, b) && op.UpdateCartOp?
    ensures DiscountTwins(Step(a, op).after, Step(b, op).after) && DiscountOutcome(a, b, op)
  {
    if FirstUse(a, op) {
      DiscountTwinFirstUse(a, b, op);
    } else {
      DiscountTwinStale(a, b, op);
    }
  }

  lemma DiscountTwinStale(a: Workspace, b: Workspace, op: Op)
    requires DiscountTwins(a, b) && op.UpdateCartOp? && !FirstUse(a, op)
    ensures Step(a, op).after == a && Step(b, op).after == b && DiscountOutcome(a, b, op)
  {
    StaleUpdateEffect(a, op);
    StaleUpdateEffect(b, op);
    SameStaleOutcome(a.records, b.records, op);
  }

  lemma SameStaleOutcome(a: map<RecordKey, Record>, b: map<RecordKey, Record>, op: Op)
    requires op.UpdateCartOp? && SamePayloads(a, b)
    ensures StaleOutcome(a, op).Done? <==> StaleOutcome(b, op).Done?
    ensures !StaleOutcome(a, op).Done? ==> StaleOutcome(a, op) == StaleOutcome(b, op)
  {
  }

  /** Without the side effect, an update changes the state exactly when it changes the lines. */
  lemma LinesDecideChange(s: StoreState, op: Op, scenario: Scenario)
    requires HonestState(s) && !scenario.Injects(UndeclaredSideEffect)
    requires op.UpdateCartOp? && ProductById(op.productId).Some? && 0 <= op.quantity <= MAX_LINE_QUANTITY
    ensures var product := ProductById(op.productId).value;
            var next := ApplyQuantity(s, product, op.quantity, scenario, false);
            && next.Some?
            && (next.value.target == s.target
                <==> AssignLine(s.target.cart.items, product, op.quantity, false) == s.target.cart.items)
  {
    ApplyQuantityIsHonest(s, op.productId, op.quantity, scenario, false);
    var next := ApplyQuantity(s, ProductById(op.productId).value, op.quantity, scenario, false);
    HonestCartIsBuilt(s.target.cart);
    HonestCartIsBuilt(next.value.target.cart);
  }

  /** The fault answers with the discounted cart and writes nothing. */
  lemma FaultyDiscountEffect(w: Workspace, op: Op)
    requires Good(w) && Runs(w, PreFix, DiscountReportedButNotApplied)
    requires op.ApplyDiscountOp? && DiscountPercent(op.code).Some?
    ensures var cart := BuildCart(StateOf(w).target.cart.items, Some(op.code));
            && cart.Some?
            && Step(w, op) == Result(w, Done(Response(Success, StateOf(w).version, None, cart.value), false))
  {
    BuildCartIsHonest(StateOf(w).target.cart.items, Some(op.code));
  }

  lemma DiscountTwinApply(a: Workspace, b: Workspace, op: Op)
    requires DiscountTwins(a, b) && op.ApplyDiscountOp?
    ensures DiscountTwins(Step(a, op).after, Step(b, op).after) && DiscountOutcome(a, b, op)
  {
    ApplyDiscountKeepsGood(b, op.code);
    if DiscountPercent(op.code).Some? {
      HonestCartIsBuilt(StateOf(b).target.cart);
      FaultyDiscountEffect(a, op);
      DiscountEffect(b, op);
    }
  }

  predicate CartOp(op: Op) {
    op.UpdateCartOp? || op.ApplyDiscountOp?
  }

  /**
   The discount fault, exactly. Over any log of `update_cart` and `apply_discount`, the faulty store never holds a
   discount, its lines and subtotal are the honest ones, its total exceeds the honest total by the honest discount,
   and the honest version is ahead by one exactly while a discount is active. Every faulty `apply_discount` leaves
   its store unchanged and answers with the cart the honest store then holds.
   */
  lemma {:induction false} DiscountFaultSimulation(a: Workspace, b: Workspace, ops: seq<Op>)
    requires DiscountTwins(a, b)
    requires forall i :: 0 <= i < |ops| ==> CartOp(ops[i])
    ensures var x, y := Run(a, ops), Run(b, ops);
            && DiscountTwins(x, y)
            && StateOf(x).target.cart.subtotal == StateOf(y).target.cart.subtotal
            && StateOf(x).target.cart.total
               == StateOf(y).target.cart.total + Reduction(StateOf(y).target.cart.discount)
    ensures ops != [] ==> DiscountOutcome(Run(a, ops[..|ops| - 1]), Run(b, ops[..|ops| - 1]), ops[|ops| - 1])
  {
    if ops != [] {
      var front, last := ops[..|ops| - 1], ops[|ops| - 1];
      DiscountFaultSimulation(a, b, front);
      if last.UpdateCartOp? {
        DiscountTwinUpdate(Run(a, front), Run(b, front), last);
      } else {
        DiscountTwinApply(Run(a, front), Run(b, front), last);
      }
    }
  }

  // -- where the simulations start --------------------------------------------

  lemma SelectedIsFresh(w: Workspace, scenario: Scenario)
    requires Good(w)
    ensures var s := Selected(w, scenario);
            && Good(s) && s.row.Some? && s.row.value.scenario == scenario
            && IsEmpty(StateOf(s)) && |s.records| == 0 && |s.confirmations| == 0
  {
    EnsuredIsGood(w);
    SelectionKeepsGood(Ensured(w), scenario);
    SelectionKeepsGood(ResetWorkspace(Ensured(w)), scenario);
  }

  lemma SelectionsAreTwins(w: Workspace, x: Scenario, y: Scenario)
    requires Good(w)
    ensures StateOf(Selected(w, x)) == StateOf(Selected(w, y))
    ensures Selected(w, x).records == Selected(w, y).records
    ensures Selected(w, x).confirmations == Selected(w, y).confirmations
  {
    SelectedIsFresh(w, x);
    SelectedIsFresh(w, y);
    OneEmptyState();
  }

  /** Wherever a workspace stands, selecting the two modes starts both simulations. */
  lemma FreshSelectionsAreTwins(w: Workspace)
    requires Good(w)
    ensures FreshTwins(Selected(w, Scenario(PreFix, UndeclaredSideEffect)),
                       Selected(w, Scenario(PostFix, UndeclaredSideEffect)))
    ensures DiscountTwins(Selected(w, Scenario(PreFix, DiscountReportedButNotApplied)),
                          Selected(w, Scenario(PostFix, DiscountReportedButNotApplied)))
  {
    SelectedIsFresh(w, Scenario(PreFix, UndeclaredSideEffect));
    SelectedIsFresh(w, Scenario(PostFix, UndeclaredSideEffect));
    SelectedIsFresh(w, Scenario(PreFix, DiscountReportedButNotApplied));
    SelectedIsFresh(w, Scenario(PostFix, DiscountReportedButNotApplied));
    SelectionsAreTwins(w, Scenario(PreFix, UndeclaredSideEffect), Scenario(PostFix, UndeclaredSideEffect));
    SelectionsAreTwins(w, Scenario(PreFix, DiscountReportedButNotApplied),
                       Scenario(PostFix, DiscountReportedButNotApplied));
  }

  /** The simulation at every point of the logs. */
  lemma SideEffectOutcomes(a: Workspace, b: Workspace, ops: seq<Op>, others: seq<Op>, i: nat)
    requires FreshTwins(a, b) && SameLogs(a, b, ops, others) && i < |ops|
    ensures SameOutcome(OutcomeAt(a, ops, i), OutcomeAt(b, others, i))
  {
    SameLogsPrefix(a, b, ops, others, i + 1);
    UndeclaredSideEffectSimulation(a, b, ops[..i + 1], others[..i + 1]);
    OutcomeInPrefix(a, ops, i);
    OutcomeInPrefix(b, others, i);
  }

  /** End to end: any workspace, either mode selected, the same requests; only the note and the version may differ. */
  lemma SideEffectFromSelection(w: Workspace, a: Workspace, b: Workspace, ops: seq<Op>, others: seq<Op>)
    requires Good(w)
    requires a == Selected(w, Scenario(PreFix, UndeclaredSideEffect))
    requires b == Selected(w, Scenario(PostFix, UndeclaredSideEffect))
    requires SameLogs(a, b, ops, others)
    ensures OnlyNoteAndGap(Run(a, ops), Run(b, others), Updated(a, ops))
    ensures forall i :: 0 <= i < |ops| ==> SameOutcome(OutcomeAt(a, ops, i), OutcomeAt(b, others, i))
  {
    FreshSelectionsAreTwins(w);
    UndeclaredSideEffectSimulation(a, b, ops, others);
    forall i | 0 <= i < |ops| ensures SameOutcome(OutcomeAt(a, ops, i), OutcomeAt(b, others, i)) {
      SideEffectOutcomes(a, b, ops, others, i);
    }
  }

  lemma DiscountOutcomes(a: Workspace, b: Workspace, ops: seq<Op>, i: nat)
    requires DiscountTwins(a, b) && (forall k :: 0 <= k < |ops| ==> CartOp(ops[k])) && i < |ops|
    ensures DiscountOutcome(Run(a, ops[..i]), Run(b, ops[..i]), ops[i])
  {
    DiscountFaultSimulation(a, b, ops[..i + 1]);
    assert ops[..i + 1][..i] == ops[..i];
  }

  /** And the same for the discount fault, over logs of cart operations. */
  lemma DiscountFaultFromSelection(w: Workspace, a: Workspace, b: Workspace, ops: seq<Op>)
    requires Good(w) && forall k :: 0 <= k < |ops| ==> CartOp(ops[k])
    requires a == Selected(w, Scenario(PreFix, DiscountReportedButNotApplied))
    requires b == Selected(w, Scenario(PostFix, DiscountReportedButNotApplied))
    ensures DiscountTwins(Run(a, ops), Run(b, ops))
    ensures forall i :: 0 <= i < |ops| ==> DiscountOutcome(Run(a, ops[..i]), Run(b, ops[..i]), ops[i])
  {
    FreshSelectionsAreTwins(w);
    DiscountFaultSimulation(a, b, ops);
    forall i | 0 <= i < |ops| ensures DiscountOutcome(Run(a, ops[..i]), Run(b, ops[..i]), ops[i]) {
      DiscountOutcomes(a, b, ops, i);
    }
  }
}
