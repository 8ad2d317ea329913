/**
 Retries over whole logs: what a repeated request id does in the honest store, and exactly what
 `duplicate_on_retry` turns it into.
 */
module Retries {
  import opened Wrappers
  import opened Catalog
  import opened Models
  import opened Store
  import opened Reachable

  /** The idempotency key and the payload a call presents. */
  function KeyOf(op: Op): Option<RecordKey> {
    match op
    case UpdateCartOp(_, _, requestId) => Some(RecordKey(UpdateCartTool, requestId))
    case CheckoutOp(_, requestId, _, _, _, _) => Some(RecordKey(CheckoutTool, requestId))
    case _ => None
  }

  function PayloadOf(op: Op): Payload
    requires KeyOf(op).Some?
  {
    match op
    case UpdateCartOp(productId, quantity, _) => CartPayload(productId, quantity)
    case CheckoutOp(id, _, _, _, _, _) => CheckoutPayload(id)
  }

  /** The call repeats an already recorded `(tool, request_id)`. */
  predicate Repeats(w: Workspace, op: Op) {
    KeyOf(op).Some? && KeyOf(op).value in w.records
  }

  predicate Duplicating(w: Workspace) {
    w.row.Some? && w.row.value.scenario.Injects(DuplicateOnRetry)
  }

  // -- the honest store -------------------------------------------------------

  lemma CheckoutKeepsRecords(w: Workspace, op: Op, key: RecordKey)
    requires key in w.records && op.CheckoutOp?
    ensures key in Step(w, op).after.records && Step(w, op).after.records[key] == w.records[key]
  {
  }

  /** A record stays, unchanged, until a reset. */
  lemma RecordsAreKept(w: Workspace, op: Op, key: RecordKey)
    requires key in w.records && !op.ResetOp?
    ensures key in Step(w, op).after.records && Step(w, op).after.records[key] == w.records[key]
  {
    match op
    case UpdateCartOp(_, _, _) => UpdateLeavesRows(w, op);
    case CheckoutOp(_, _, _, _, _, _) => CheckoutKeepsRecords(w, op, key);
    case _ =>
  }

  lemma {:induction false} RecordsAreKeptOverRuns(w: Workspace, ops: seq<Op>, key: RecordKey)
    requires key in w.records
    requires forall i :: 0 <= i < |ops| ==> !ops[i].ResetOp?
    ensures key in Run(w, ops).records && Run(w, ops).records[key] == w.records[key]
  {
    if ops != [] {
      RecordsAreKeptOverRuns(w, ops[..|ops| - 1], key);
      RecordsAreKept(Run(w, ops[..|ops| - 1]), ops[|ops| - 1], key);
    }
  }

  /** A repeat replays the record if the payload is the recorded one, and is refused otherwise; nothing changes. */
  lemma RepeatChangesNothing(w: Workspace, op: Op)
    requires Good(w) && Repeats(w, op) && !Duplicating(w)
    ensures var r, record := Step(w, op), w.records[KeyOf(op).value];
            && r.after == w
            && (PayloadOf(op) != record.payload ==> r.outcome.Refused?)
            && (PayloadOf(op) == record.payload ==> r.outcome.Refused? || r.outcome == Done(record.response, true))
  {
    assert w.row.Some?;
    if op.UpdateCartOp? {
      LookupsAgree(op.productId);
    }
  }

  /** A fresh success records the response it returned, under its key and payload. */
  lemma FreshSuccessIsRecorded(w: Workspace, op: Op)
    requires Good(w) && KeyOf(op).Some? && !Repeats(w, op) && Step(w, op).outcome.Done?
    ensures var r, key := Step(w, op), KeyOf(op).value;
            && !r.outcome.replayed
            && key in r.after.records
            && r.after.records[key] == Record(PayloadOf(op), r.outcome.response, r.outcome.response.version)
  {
    if op.UpdateCartOp? {
      LookupsAgree(op.productId);
    }
  }

  /** A call that succeeded once is valid, so its identical repeat replays. */
  lemma ValidRepeatReplays(w: Workspace, op: Op)
    requires Good(w) && Repeats(w, op) && !Duplicating(w)
    requires w.records[KeyOf(op).value].payload == PayloadOf(op)
    requires op.UpdateCartOp? ==> ProductById(op.productId).Some? && 0 <= op.quantity <= MAX_LINE_QUANTITY
    ensures Step(w, op) == Result(w, Done(w.records[KeyOf(op).value].response, true))
  {
    assert GoodRecord(KeyOf(op).value, w.records[KeyOf(op).value]);
    if op.UpdateCartOp? {
      LookupsAgree(op.productId);
    }
  }

  /**
   Over any stretch of a log without a reset: once a call has succeeded afresh, every later call that presents the
   same key and payload returns that first response, and every later call that presents the same key with another
   payload is refused. Neither changes anything.
   */
  lemma RepeatsReturnFirstResponse(w: Workspace, first: Op, between: seq<Op>, again: Op)
    requires Good(w) && SoundLog(between) && SoundOp(first)
    requires KeyOf(first).Some? && KeyOf(again) == KeyOf(first)
    requires !Repeats(w, first) && Step(w, first).outcome.Done?
    requires forall i :: 0 <= i < |between| ==> !between[i].ResetOp?
    requires !Duplicating(Run(Step(w, first).after, between))
    ensures var now := Run(Step(w, first).after, between);
            && Step(now, again).after == now
            && (PayloadOf(again) == PayloadOf(first) ==>
                  Step(now, again).outcome == Done(Step(w, first).outcome.response, true))
            && (PayloadOf(again) != PayloadOf(first) ==> Step(now, again).outcome.Refused?)
  {
    FreshSuccessIsRecorded(w, first);
    StepKeepsGood(w, first);
    RepeatAfter(Step(w, first).after, between, again, PayloadOf(first), Step(w, first).outcome.response);
  }

  lemma RepeatAfter(start: Workspace, between: seq<Op>, again: Op, payload: Payload, response: Response)
    requires Good(start) && SoundLog(between) && Repeats(start, again)
    requires var record := start.records[KeyOf(again).value]; record.payload == payload && record.response == response
    requires forall i :: 0 <= i < |between| ==> !between[i].ResetOp?
    requires !Duplicating(Run(start, between))
    requires payload == PayloadOf(again) && again.UpdateCartOp? ==>
               ProductById(again.productId).Some? && 0 <= again.quantity <= MAX_LINE_QUANTITY
    ensures var now := Run(start, between);
            && Step(now, again).after == now
            && (PayloadOf(again) == payload ==> Step(now, again).outcome == Done(response, true))
            && (PayloadOf(again) != payload ==> Step(now, again).outcome.Refused?)
  {
    RunKeepsGood(start, between);
    RecordsAreKeptOverRuns(start, between, KeyOf(again).value);
    RepeatOfRecorded(Run(start, between), again, payload, response);
  }

  /** What a repeat is answered, in terms of what the key holds. */
  lemma RepeatOfRecorded(w: Workspace, op: Op, payload: Payload, response: Response)
    requires Good(w) && Repeats(w, op) && !Duplicating(w)
    requires w.records[KeyOf(op).value].payload == payload && w.records[KeyOf(op).value].response == response
    requires payload == PayloadOf(op) && op.UpdateCartOp? ==>
               ProductById(op.productId).Some? && 0 <= op.quantity <= MAX_LINE_QUANTITY
    ensures Step(w, op).after == w
    ensures PayloadOf(op) == payload ==> Step(w, op).outcome == Done(response, true)
    ensures PayloadOf(op) != payload ==> Step(w, op).outcome.Refused?
  {
    RepeatChangesNothing(w, op);
    if PayloadOf(op) == payload {
      ValidRepeatReplays(w, op);
    }
  }

  /** No call of the log selects the duplicating scenario. */
  predicate HonestRetries(ops: seq<Op>) {
    forall i :: 0 <= i < |ops| && ops[i].WriteScenarioOp? ==> !ops[i].scenario.Injects(DuplicateOnRetry)
  }

  lemma DuplicationIsSelected(w: Workspace, op: Op)
    requires !Duplicating(w) && (op.WriteScenarioOp? ==> !op.scenario.Injects(DuplicateOnRetry))
    ensures !Duplicating(Step(w, op).after)
  {
    if !op.WriteScenarioOp? {
      ScenarioIsKept(w, op);
    }
  }

  lemma {:induction false} DuplicationIsSelectedOverRuns(w: Workspace, ops: seq<Op>)
    requires !Duplicating(w) && HonestRetries(ops)
    ensures !Duplicating(Run(w, ops))
  {
    if ops != [] {
      DuplicationIsSelectedOverRuns(w, ops[..|ops| - 1]);
      DuplicationIsSelected(Run(w, ops[..|ops| - 1]), ops[|ops| - 1]);
    }
  }

  /** The log without every call that, where it stands, repeats a recorded key. */
  ghost function WithoutRepeats(w: Workspace, ops: seq<Op>): seq<Op> {
    if ops == [] then [] else
    var front, last := ops[..|ops| - 1], ops[|ops| - 1];
    WithoutRepeats(w, front) + (if Repeats(Run(w, front), last) then [] else [last])
  }

  /** Retry erasure: a log and the log without its retries end in the same database. */
  lemma {:induction false} RetryErasure(w: Workspace, ops: seq<Op>)
    requires Good(w) && SoundLog(ops) && !Duplicating(w) && HonestRetries(ops)
    ensures Run(w, WithoutRepeats(w, ops)) == Run(w, ops)
  {
    if ops != [] {
      var front, last := ops[..|ops| - 1], ops[|ops| - 1];
      RetryErasure(w, front);
      var before, kept := Run(w, front), WithoutRepeats(w, front);
      if Repeats(before, last) {
        RunKeepsGood(w, front);
        DuplicationIsSelectedOverRuns(w, front);
        RepeatChangesNothing(before, last);
        assert kept + [] == kept;
      } else {
        RunConcat(w, kept, [last]);
        assert Run(before, [last]) == Step(Run(before, []), last).after by { assert [last][..0] == []; }
      }
    }
  }

  // -- duplicate_on_retry -----------------------------------------------------

  function QuantityAt(items: Lines, lineKey: string): int {
    if lineKey in items then items[lineKey].quantity else 0
  }

  function CartItems(w: Workspace): Lines
    requires w.row.Some?
  {
    w.row.value.state.target.cart.items
  }

  function Capped(n: int): int {
    if n < MAX_LINE_QUANTITY then n else MAX_LINE_QUANTITY
  }

  /** A well-formed `update_cart` call. */
  predicate ValidUpdate(op: Op) {
    && op.UpdateCartOp?
    && ValidRequestId(op.requestId)
    && ProductById(op.productId).Some?
    && 0 <= op.quantity <= MAX_LINE_QUANTITY
  }

  function LineKeyOf(op: Op): string
    requires ValidUpdate(op)
  {
    ProductById(op.productId).value.lineKey
  }

  /** The operation can move the product's line, or ends the fault's scenario. */
  predicate Touches(op: Op, productId: string) {
    op.ResetOp? || op.WriteScenarioOp? || (op.UpdateCartOp? && op.productId == productId)
  }

  /** A retry of the recorded call adds its quantity to the line, up to the bound; the record stays. */
  lemma DuplicatedRetry(w: Workspace, op: Op)
    requires Good(w) && Duplicating(w) && ValidUpdate(op) && Repeats(w, op)
    requires w.records[KeyOf(op).value].payload == PayloadOf(op)
    ensures var r := Step(w, op);
            && r.outcome.Done? && !r.outcome.replayed
            && Duplicating(r.after) && r.after.records == w.records
            && CartItems(r.after) == AssignLine(CartItems(w), ProductById(op.productId).value, op.quantity, true)
  {
    LookupsAgree(op.productId);
    ApplyQuantityIsHonest(w.row.value.state, op.productId, op.quantity, w.row.value.scenario, true);
  }

  lemma FreshUpdateApplies(w: Workspace, op: Op)
    requires Good(w) && Duplicating(w) && ValidUpdate(op) && !Repeats(w, op)
    ensures var r := Step(w, op);
            && r.outcome.Done?
            && Duplicating(r.after)
            && QuantityAt(CartItems(r.after), LineKeyOf(op)) == op.quantity
            && CartItems(r.after) == AssignLine(CartItems(w), ProductById(op.productId).value, op.quantity, false)
  {
    LookupsAgree(op.productId);
    ApplyQuantityIsHonest(w.row.value.state, op.productId, op.quantity, w.row.value.scenario, false);
  }

  /** The row keeps its scenario, and the line its quantity. */
  ghost predicate KeepsLine(before: Workspace, after: Workspace, lineKey: string) {
    && before.row.Some? && after.row.Some?
    && after.row.value.scenario == before.row.value.scenario
    && QuantityAt(CartItems(after), lineKey) == QuantityAt(CartItems(before), lineKey)
  }

  lemma OtherUpdateKeepsLine(w: Workspace, op: Op, productId: string)
    requires Good(w) && w.row.Some? && op.UpdateCartOp? && op.productId != productId && ProductById(productId).Some?
    ensures KeepsLine(w, Step(w, op).after, ProductById(productId).value.lineKey)
  {
    LookupsAgree(productId);
    if ValidUpdate(op) {
      LookupsAgree(op.productId);
      var found := FindRecord(w, RecordKey(UpdateCartTool, op.requestId));
      ApplyQuantityIsHonest(w.row.value.state, op.productId, op.quantity, w.row.value.scenario, found.Some?);
    }
  }

  lemma DiscountKeepsLines(w: Workspace, op: Op, lineKey: string)
    requires Good(w) && w.row.Some? && op.ApplyDiscountOp?
    ensures KeepsLine(w, Step(w, op).after, lineKey)
  {
    BuildCartIsHonest(CartItems(w), Some(SAVE20));
  }

  lemma OtherLinesKeep(w: Workspace, op: Op, productId: string)
    requires Good(w) && w.row.Some? && !Touches(op, productId) && ProductById(productId).Some?
    ensures KeepsLine(w, Step(w, op).after, ProductById(productId).value.lineKey)
  {
    match op
    case UpdateCartOp(_, _, _) => OtherUpdateKeepsLine(w, op, productId);
    case ApplyDiscountOp(_) => DiscountKeepsLines(w, op, ProductById(productId).value.lineKey);
    case _ =>
  }

  function Count(ops: seq<Op>, op: Op): nat {
    if ops == [] then 0 else Count(ops[..|ops| - 1], op) + if ops[|ops| - 1] == op then 1 else 0
  }

  /** The line holds the capped sum of `n` applications, and the record is the first result. */
  ghost predicate AppliedTimes(w: Workspace, first: Op, response: Response, n: nat)
    requires ValidUpdate(first)
  {
    && Good(w) && Duplicating(w)
    && QuantityAt(CartItems(w), LineKeyOf(first)) == Capped(n * first.quantity)
    && Repeats(w, first)
    && w.records[KeyOf(first).value].payload == PayloadOf(first)
    && w.records[KeyOf(first).value].response == response
  }

  lemma AppliedOnce(w: Workspace, first: Op)
    requires Good(w) && Duplicating(w) && ValidUpdate(first) && !Repeats(w, first)
    ensures Step(w, first).outcome.Done?
    ensures AppliedTimes(Step(w, first).after, first, Step(w, first).outcome.response, 1)
  {
    FreshUpdateApplies(w, first);
    FreshSuccessIsRecorded(w, first);
    StepKeepsGood(w, first);
  }

  lemma AppliedAgain(w: Workspace, first: Op, response: Response, n: nat)
    requires ValidUpdate(first) && n > 0 && AppliedTimes(w, first, response, n)
    ensures AppliedTimes(Step(w, first).after, first, response, n + 1)
  {
    StepKeepsGood(w, first);
    DuplicatedRetry(w, first);
    AgainQuantity(CartItems(w), ProductById(first.productId).value, first.quantity, n);
  }

  lemma AgainQuantity(items: Lines, product: Product, quantity: int, n: nat)
    requires 0 <= quantity <= MAX_LINE_QUANTITY && n > 0
    requires QuantityAt(items, product.lineKey) == Capped(n * quantity)
    ensures QuantityAt(AssignLine(items, product, quantity, true), product.lineKey) == Capped((n + 1) * quantity)
  {
    SaturatingSum(n - 1, quantity);
    assert QuantityAt(AssignLine(items, product, quantity, true), product.lineKey)
        == Capped(QuantityAt(items, product.lineKey) + quantity);
  }

  lemma AppliedElsewhere(w: Workspace, op: Op, first: Op, response: Response, n: nat)
    requires ValidUpdate(first) && AppliedTimes(w, first, response, n)
    requires SoundOp(op) && !Touches(op, first.productId)
    ensures AppliedTimes(Step(w, op).after, first, response, n)
  {
    StepKeepsGood(w, op);
    RecordsAreKept(w, op, KeyOf(first).value);
    OtherLinesKeep(w, op, first.productId);
  }

  lemma AppliedNext(w: Workspace, op: Op, first: Op, response: Response, n: nat)
    requires ValidUpdate(first) && n > 0 && AppliedTimes(w, first, response, n)
    requires SoundOp(op) && (op == first || !Touches(op, first.productId))
    ensures AppliedTimes(Step(w, op).after, first, response, if op == first then n + 1 else n)
  {
    if op == first {
      AppliedAgain(w, first, response, n);
    } else {
      AppliedElsewhere(w, op, first, response, n);
    }
  }

  lemma {:induction false} AppliedOverRuns(w: Workspace, first: Op, response: Response, ops: seq<Op>)
    requires ValidUpdate(first) && AppliedTimes(w, first, response, 1) && SoundLog(ops)
    requires forall i :: 0 <= i < |ops| ==> ops[i] == first || !Touches(ops[i], first.productId)
    ensures AppliedTimes(Run(w, ops), first, response, Count(ops, first) + 1)
  {
    if ops != [] {
      AppliedOverRuns(w, first, response, ops[..|ops| - 1]);
      AppliedOnceMore(w, first, response, ops);
    }
  }

  lemma AppliedOnceMore(w: Workspace, first: Op, response: Response, ops: seq<Op>)
    requires ops != [] && ValidUpdate(first)
    requires var front, last := ops[..|ops| - 1], ops[|ops| - 1];
             && AppliedTimes(Run(w, front), first, response, Count(front, first) + 1)
             && SoundOp(last) && (last == first || !Touches(last, first.productId))
    ensures AppliedTimes(Run(w, ops), first, response, Count(ops, first) + 1)
  {
    var front, last := ops[..|ops| - 1], ops[|ops| - 1];
    AppliedNext(Run(w, front), last, first, response, Count(front, first) + 1);
  }

  /**
   `duplicate_on_retry`, characterised. However they are interleaved with operations that leave the product's line
   alone, `k` identical retries of a fresh `update_cart` leave `min((k + 1) * quantity, 5)` of the product in the cart,
   and the stored record is still the first result.
   */
  lemma DuplicatedRetries(w: Workspace, first: Op, ops: seq<Op>)
    requires Good(w) && Duplicating(w) && ValidUpdate(first) && !Repeats(w, first)
    requires SoundLog(ops)
    requires forall i :: 0 <= i < |ops| ==> ops[i] == first || !Touches(ops[i], first.productId)
    ensures Step(w, first).outcome.Done?
    ensures AppliedTimes(Run(Step(w, first).after, ops), first, Step(w, first).outcome.response, Count(ops, first) + 1)
  {
    AppliedOnce(w, first);
    AppliedOverRuns(Step(w, first).after, first, Step(w, first).outcome.response, ops);
  }

  lemma SaturatingSum(k: nat, q: int)
    requires 0 <= q
    ensures Capped(Capped((k + 1) * q) + q) == Capped((k + 2) * q)
    ensures q == 0 ==> Capped((k + 2) * q) == 0
    ensures q > 0 ==> Capped((k + 1) * q) > 0
  {
    assert (k + 2) * q == (k + 1) * q + q;
    if q > 0 {
      assert (k + 1) * q >= q by { Money.ProductMonotone(q, 1, k + 1); }
    }
  }

  ghost predicate SameLines(a: Workspace, b: Workspace) {
    a.row.Some? && b.row.Some? && CartItems(a) == CartItems(b)
  }

  /** An immediate retry shows the fault exactly when the line is neither absent nor already at its bound. */
  lemma FirstRetryObservable(w: Workspace, op: Op)
    requires Good(w) && Duplicating(w) && ValidUpdate(op) && !Repeats(w, op)
    ensures var once := Step(w, op).after;
            SameLines(Step(once, op).after, once) <==> !(1 <= op.quantity <= 4)
  {
    var once, product := Step(w, op).after, ProductById(op.productId).value;
    FreshUpdateApplies(w, op);
    FreshSuccessIsRecorded(w, op);
    StepKeepsGood(w, op);
    DuplicatedRetry(once, op);
    RepeatedAssignment(CartItems(w), product, op.quantity);
  }

  lemma RepeatedAssignment(items: Lines, product: Product, quantity: int)
    requires 0 <= quantity <= MAX_LINE_QUANTITY
    ensures var once := AssignLine(items, product, quantity, false);
            AssignLine(once, product, quantity, true) != once <==> 1 <= quantity <= 4
  {
    var once := AssignLine(items, product, quantity, false);
    var twice := AssignLine(once, product, quantity, true);
    if quantity > 0 {
      assert once[product.lineKey].quantity == quantity;
      assert twice[product.lineKey].quantity == Capped(quantity + quantity);
      assert quantity == MAX_LINE_QUANTITY ==> twice == once;
    } else {
      assert twice == once;
    }
  }

  // -- the fault is silent without a retry ------------------------------------

  const FAULTY := Scenario(PreFix, DuplicateOnRetry)
  const FIXED := Scenario(PostFix, DuplicateOnRetry)

  predicate NoRepeats(w: Workspace, ops: seq<Op>) {
    forall i :: 0 <= i < |ops| ==> !Repeats(Run(w, ops[..i]), ops[i])
  }

  /** The corrected store, one step along the same operation, with the same outcome. */
  ghost predicate SilentAt(w: Workspace, op: Op) {
    var faulty, fixed := Step(w, op), Step(WriteScenario(w, FIXED), op);
    && fixed.outcome == faulty.outcome
    && fixed.after == WriteScenario(faulty.after, FIXED)
    && faulty.after.row.Some? && faulty.after.row.value.scenario == FAULTY
  }

  lemma SilentUpdate(w: Workspace, op: Op)
    requires w.row.Some? && w.row.value.scenario == FAULTY && op.UpdateCartOp? && !Repeats(w, op)
    ensures SilentAt(w, op)
  {
    var product := ProductById(op.productId);
    if ValidRequestId(op.requestId) && product.Some? && 0 <= op.quantity <= MAX_LINE_QUANTITY {
      LookupsAgree(op.productId);
      SilentTransaction(w, product.value, op.quantity, op.requestId);
    }
  }

  lemma SilentTransaction(w: Workspace, product: Product, quantity: int, requestId: string)
    requires w.row.Some? && w.row.value.scenario == FAULTY && RecordKey(UpdateCartTool, requestId) !in w.records
    ensures var faulty := UpdateCartTransaction(w, product, quantity, requestId);
            && UpdateCartTransaction(WriteScenario(w, FIXED), product, quantity, requestId)
               == Result(WriteScenario(faulty.after, FIXED), faulty.outcome)
            && faulty.after.row.Some? && faulty.after.row.value.scenario == FAULTY
  {
  }

  lemma SilentDiscount(w: Workspace, op: Op)
    requires w.row.Some? && w.row.value.scenario == FAULTY && op.ApplyDiscountOp?
    ensures SilentAt(w, op)
  {
  }

  lemma SilentCheckout(w: Workspace, op: Op)
    requires w.row.Some? && w.row.value.scenario == FAULTY && op.CheckoutOp?
    ensures SilentAt(w, op)
  {
  }

  lemma SilentStep(w: Workspace, op: Op)
    requires w.row.Some? && w.row.value.scenario == FAULTY && !Repeats(w, op) && !op.WriteScenarioOp?
    ensures SilentAt(w, op)
  {
    match op
    case UpdateCartOp(_, _, _) => SilentUpdate(w, op);
    case ApplyDiscountOp(_) => SilentDiscount(w, op);
    case CheckoutOp(_, _, _, _, _, _) => SilentCheckout(w, op);
    case _ =>
  }

  /** A log that never repeats a recorded key runs under the fault exactly as in the corrected store. */
  lemma {:induction false} SilentWithoutRepeats(w: Workspace, ops: seq<Op>)
    requires w.row.Some? && w.row.value.scenario == FAULTY && NoRepeats(w, ops)
    requires forall i :: 0 <= i < |ops| ==> !ops[i].WriteScenarioOp?
    ensures Run(WriteScenario(w, FIXED), ops) == WriteScenario(Run(w, ops), FIXED)
    ensures Run(w, ops).row.Some? && Run(w, ops).row.value.scenario == FAULTY
    ensures ops != [] ==>
              OutcomeAt(WriteScenario(w, FIXED), ops, |ops| - 1) == OutcomeAt(w, ops, |ops| - 1)
  {
    if ops != [] {
      var front := ops[..|ops| - 1];
      forall i | 0 <= i < |front| ensures !Repeats(Run(w, front[..i]), front[i]) {
        PrefixOfFront(ops, i);
      }
      SilentWithoutRepeats(w, front);
      SilentStep(Run(w, front), ops[|ops| - 1]);
    }
  }
}
