/**
 Single use from the compare-and-set alone: every SQL statement of a checkout or a decision is its own step, with no
 transaction around it, and any number of them run at once beside the writes of other operations.
 */
module SingleUse {
  import opened Wrappers
  import opened Models
  import opened Instants
  import opened Store

  /** The statement a checkout runs next, with what it has read so far. */
  datatype SpendStage =
    | FindingRecord
    | ReadingState
    | FindingConfirmation(seen: StoreState)
    | Consuming(seen: StoreState)
    | Writing(seen: StoreState)
    | Recording(next: StoreState)
    | Finished
    | TurnedAway

  /** Likewise for a decision, whose last statement reads the row it moved. */
  datatype DecisionStage = Finding | Deciding | Reporting | Decided | Declined

  datatype Request =
    | Spend(id: string, requestId: string, orderId: string, stage: SpendStage)
    | Decision(id: string, target: Status, step: DecisionStage)

  /** `wins` lists the ids whose compare-and-set to `consumed` matched, and `orders` those whose order was stored. */
  datatype System = System(workspace: Workspace, requests: seq<Request>, wins: seq<string>, orders: seq<string>)

  /**
   Request `k` runs its next statement; or the sweep runs, or another operation inserts a pending confirmation or
   writes a state.
   */
  datatype Event =
    | Run(k: nat, now: Instant, stamp: Instant, spentAt: Instant)
    | SweepAt(now: Instant)
    | Insert(id: string, seen: StoreState, lifetime: nat, now: Instant)
    | Write(state: StoreState)

  // -- one statement ----------------------------------------------------------

  /** The statement of checkout `r` at its stage; a statement outside these is no event of `Run`. */
  function SpendStep(s: System, k: nat, r: Request, e: Event): System
    requires k < |s.requests| && r.Spend? && e.Run?
  {
    var w, key, payload := s.workspace, RecordKey(CheckoutTool, r.requestId), CheckoutPayload(r.id);
    match r.stage
    case FindingRecord =>
      At(s, k, r, if FindRecord(w, key).None? then ReadingState
         else if FindRecord(w, key).value.payload == payload then Finished else TurnedAway)
    case ReadingState =>
      At(s, k, r, if w.row.Some? then FindingConfirmation(w.row.value.state) else TurnedAway)
    case FindingConfirmation(seen) =>
      At(s, k, r, if SpendError(w, r.id, seen, e.now).None? then Consuming(seen) else TurnedAway)
    case Consuming(seen) =>
      (match SetStatus(w, r.id, Consumed, Approved, e.stamp, Some(e.spentAt))
       case None => At(s, k, r, TurnedAway)
       case Some(spent) => At(s, k, r, Writing(seen)).(workspace := spent, wins := s.wins + [r.id]))
    case Writing(seen) =>
      var next := Ordered(seen, r.orderId);
      At(StateWritten(s, next, [r.id]), k, r, Recording(next))
    case Recording(next) =>
      (match RecordResult(w, key, Record(payload, OrderResponse(next, r.orderId), next.version))
       case None => At(s, k, r, TurnedAway)
       case Some(recorded) => At(s, k, r, Finished).(workspace := recorded))
    case _ => s
  }

  function At(s: System, k: nat, r: Request, stage: SpendStage): System
    requires k < |s.requests| && r.Spend?
  {
    s.(requests := s.requests[k := r.(stage := stage)])
  }

  /** The guarded `UPDATE` of the state row, which stores nothing unless it moves the version forward. */
  function StateWritten(s: System, next: StoreState, ordered: seq<string>): System {
    if s.workspace.row.Some? && s.workspace.row.value.version < next.version then
      s.(workspace := WriteState(s.workspace, next), orders := s.orders + ordered)
    else s
  }

  function DecisionStep(s: System, k: nat, r: Request, e: Event): System
    requires k < |s.requests| && r.Decision? && e.Run?
  {
    match r.step
    case Finding =>
      s.(requests := s.requests[
      k := r.(step := if DecisionError(s.workspace, r.id, e.now).None? then Deciding else Declined)])
    case Deciding =>
      (match SetStatus(s.workspace, r.id, r.target, Pending, e.stamp, None)
       case None => s.(requests := s.requests[k := r.(step := Declined)])
       case Some(moved) => s.(workspace := moved, requests := s.requests[k := r.(step := Reporting)]))
    case Reporting => s.(requests := s.requests[k := r.(step := Decided)])
    case _ => s
  }

  function React(s: System, e: Event): System {
    match e
    case SweepAt(now) => s.(workspace := Sweep(s.workspace, now))
    case Insert(id, seen, lifetime, now) =>
      s.(workspace := InsertConfirmation(s.workspace, id, seen, lifetime, now).after)
    case Write(state) => StateWritten(s, state, [])
    case Run(k, _, _, _) =>
      if k >= |s.requests| then s
      else if s.requests[k].Spend? then SpendStep(s, k, s.requests[k], e)
      else DecisionStep(s, k, s.requests[k], e)
  }

  function Execute(s: System, events: seq<Event>): System {
    if events == [] then s else React(Execute(s, events[..|events| - 1]), events[|events| - 1])
  }

  // -- the invariant ----------------------------------------------------------

  function Times(ids: seq<string>, id: string): nat {
    multiset(ids)[id]
  }

  /** The request has won `id` and not yet written its order. */
  predicate Owes(r: Request, id: string) {
    r.Spend? && r.id == id && r.stage.Writing?
  }

  function Owed(requests: seq<Request>, id: string): nat {
    if requests == [] then 0 else
    Owed(requests[..|requests| - 1], id) + (if Owes(requests[|requests| - 1], id) then 1 else 0)
  }

  /** Decisions only ever decide: they approve, deny or cancel. */
  predicate SoundRequests(requests: seq<Request>) {
    forall k :: 0 <= k < |requests| && requests[k].Decision? ==> requests[k].target in {Approved, Denied, Cancelled}
  }

  predicate IsConsumed(w: Workspace, id: string) {
    id in w.confirmations && w.confirmations[id].status == Consumed
  }

  /**
   An id has been won once if its row is consumed and never otherwise; each order stored or still owed is paid for by a
   win of its own.
   */
  ghost predicate SpentOnce(s: System) {
    SoundRequests(s.requests) && forall id :: PaidFor(s, id)
  }

  predicate PaidFor(s: System, id: string) {
    && Times(s.wins, id) == (if IsConsumed(s.workspace, id) then 1 else 0)
    && Times(s.orders, id) + Owed(s.requests, id) <= Times(s.wins, id)
  }

  predicate Unstarted(r: Request) {
    if r.Spend? then r.stage == FindingRecord else r.step == Finding
  }

  /** A system in which every request is still to run its first statement, and nothing has been spent. */
  predicate Fresh(s: System) {
    && s.wins == [] && s.orders == [] && SoundRequests(s.requests)
    && (forall k :: 0 <= k < |s.requests| ==>
                      Unstarted(s.requests[k]))
    && (forall id :: id in s.workspace.confirmations ==> s.workspace.confirmations[id].status != Consumed)
  }

  lemma FreshIsSpentOnce(s: System)
    requires Fresh(s)
    ensures SpentOnce(s)
  {
    forall id ensures PaidFor(s, id) {
      NothingOwed(s.requests, id);
    }
  }

  lemma {:induction false} NothingOwed(requests: seq<Request>, id: string)
    requires forall k :: 0 <= k < |requests| ==> !Owes(requests[k], id)
    ensures Owed(requests, id) == 0
  {
    if requests != [] {
      NothingOwed(requests[..|requests| - 1], id);
    }
  }

  lemma {:induction false} OwedAfter(requests: seq<Request>, k: nat, request: Request, id: string)
    requires k < |requests|
    ensures OwedMoves(requests, k, request, id)
  {
    var n := |requests| - 1;
    var after := requests[k := request];
    if k == n {
      assert after[..n] == requests[..n];
    } else {
      assert after[..n] == requests[..n][k := request];
      OwedAfter(requests[..n], k, request, id);
    }
  }

  ghost predicate OwedMoves(requests: seq<Request>, k: nat, request: Request, id: string)
    requires k < |requests|
  {
    Owed(requests[k := request], id)
    == Owed(requests, id) - (if Owes(requests[k], id) then 1 else 0) + (if Owes(request, id) then 1 else 0)
  }

  lemma OneMore(ids: seq<string>, id: string, other: string)
    ensures Times(ids + [id], other) == Times(ids, other) + (if id == other then 1 else 0)
  {
  }

  /** The step keeps what is owed, won and stored of each id in balance. */
  lemma SpendKeepsPaidFor(s: System, k: nat, e: Event, id: string)
    requires k < |s.requests| && s.requests[k].Spend? && e.Run?
    requires PaidFor(s, id) && Owed(s.requests, id) >= (if Owes(s.requests[k], id) then 1 else 0)
    ensures PaidFor(SpendStep(s, k, s.requests[k], e), id)
  {
    var r := s.requests[k];
    var after := SpendStep(s, k, r, e);
    OwedAfter(s.requests, k, after.requests[k], id);
    assert after.requests == s.requests[k := after.requests[k]];
    OneMore(s.wins, r.id, id);
    OneMore(s.orders, r.id, id);
    match r.stage
    case Consuming(_) => ConsumingMoves(s.workspace, r.id, e.stamp, e.spentAt, id);
    case _ => assert IsConsumed(after.workspace, id) == IsConsumed(s.workspace, id);
  }

  lemma ConsumingMoves(w: Workspace, id: string, stamp: Instant, spentAt: Instant, other: string)
    ensures var after := SetStatus(w, id, Consumed, Approved, stamp, Some(spentAt));
            after.Some? ==>
              && !IsConsumed(w, id) && IsConsumed(after.value, id)
              && (other != id ==> IsConsumed(after.value, other) == IsConsumed(w, other))
  {
  }

  lemma SpendKeepsSpentOnce(s: System, k: nat, e: Event)
    requires SpentOnce(s) && k < |s.requests| && s.requests[k].Spend? && e.Run?
    ensures SpentOnce(SpendStep(s, k, s.requests[k], e))
  {
    forall id ensures PaidFor(SpendStep(s, k, s.requests[k], e), id) {
      assert PaidFor(s, id);
      if Owes(s.requests[k], id) {
        SomethingOwed(s.requests, k, id);
      }
      SpendKeepsPaidFor(s, k, e, id);
    }
    SpendStaysSpend(s, k, e);
  }

  lemma SpendStaysSpend(s: System, k: nat, e: Event)
    requires k < |s.requests| && s.requests[k].Spend? && e.Run?
    ensures var after := SpendStep(s, k, s.requests[k], e);
            after.requests[k].Spend? && after.requests == s.requests[k := after.requests[k]]
  {
  }

  lemma DecisionKeepsSpentOnce(s: System, k: nat, e: Event)
    requires SpentOnce(s) && k < |s.requests| && s.requests[k].Decision? && e.Run?
    ensures SpentOnce(DecisionStep(s, k, s.requests[k], e))
  {
    var after := DecisionStep(s, k, s.requests[k], e);
    assert after.requests == s.requests[k := after.requests[k]];
    forall id ensures PaidFor(after, id) {
      assert PaidFor(s, id);
      OwedAfter(s.requests, k, after.requests[k], id);
      assert IsConsumed(after.workspace, id) == IsConsumed(s.workspace, id);
    }
  }

  lemma ReactKeepsSpentOnce(s: System, e: Event)
    requires SpentOnce(s)
    ensures SpentOnce(React(s, e))
  {
    match e
    case Run(k, _, _, _) =>
      if k < |s.requests| {
        if s.requests[k].Spend? {
          SpendKeepsSpentOnce(s, k, e);
        } else {
          DecisionKeepsSpentOnce(s, k, e);
        }
      }
    case _ =>
      forall id ensures PaidFor(React(s, e), id) {
        assert PaidFor(s, id);
        assert IsConsumed(React(s, e).workspace, id) == IsConsumed(s.workspace, id);
      }
  }

  /** Over every schedule of single statements, each confirmation is spent at most once, and for at most one order. */
  lemma AtMostOneWins(s: System, events: seq<Event>)
    requires Fresh(s)
    ensures forall id :: Times(Execute(s, events).orders, id) <= Times(Execute(s, events).wins, id) <= 1
  {
    FreshIsSpentOnce(s);
    ScheduleKeepsSpentOnce(s, events);
    forall id ensures Times(Execute(s, events).orders, id) <= Times(Execute(s, events).wins, id) <= 1 {
      assert PaidFor(Execute(s, events), id);
    }
  }

  lemma {:induction false} ScheduleKeepsSpentOnce(s: System, events: seq<Event>)
    requires SpentOnce(s)
    ensures SpentOnce(Execute(s, events))
  {
    if events != [] {
      ScheduleKeepsSpentOnce(s, events[..|events| - 1]);
      ReactKeepsSpentOnce(Execute(s, events[..|events| - 1]), events[|events| - 1]);
    }
  }

  /** Two checkouts that both read the approval: whichever runs first wins, and the other is turned away. */
  lemma SecondSpenderIsTurned(s: System, j: nat, k: nat, first: Event, second: Event)
    requires j < |s.requests| && k < |s.requests| && j != k
    requires s.requests[j].Spend? && s.requests[k].Spend? && s.requests[j].id == s.requests[k].id
    requires s.requests[j].stage.Consuming? && s.requests[k].stage.Consuming?
    requires var id := s.requests[j].id;
             id in s.workspace.confirmations && s.workspace.confirmations[id].status == Approved
    requires first.Run? && first.k == j && second.Run? && second.k == k
    ensures var end := React(React(s, first), second);
            && end.requests[j].Spend? && end.requests[j].stage.Writing?
            && end.requests[k] == s.requests[k].(stage := TurnedAway)
            && end.wins == s.wins + [s.requests[j].id]
  {
  }

  /**
   The compare-and-set is not enough for the order. A checkout that has won stores its order exactly when no other write
   has moved the version past the one it read; otherwise the confirmation is spent and there is no order, which is what
   one transaction around both prevents.
   */
  lemma SpentWithoutAnOrder(s: System, k: nat, e: Event)
    requires SpentOnce(s) && e.Run? && e.k == k < |s.requests| && s.requests[k].Spend? && s.requests[k].stage.Writing?
    requires s.workspace.row.Some?
    ensures var id, seen, end := s.requests[k].id, s.requests[k].stage.seen, React(s, e);
            && IsConsumed(end.workspace, id)
            && Times(end.orders, id) == (if s.workspace.row.value.version <= seen.version then 1 else 0)
  {
    var id := s.requests[k].id;
    SomethingOwed(s.requests, k, id);
    assert PaidFor(s, id);
    OneMore(s.orders, id, id);
    assert IsConsumed(React(s, e).workspace, id) == IsConsumed(s.workspace, id);
  }

  lemma {:induction false} SomethingOwed(requests: seq<Request>, k: nat, id: string)
    requires k < |requests| && Owes(requests[k], id)
    ensures Owed(requests, id) >= 1
  {
    if k < |requests| - 1 {
      SomethingOwed(requests[..|requests| - 1], k, id);
    }
  }

  // -- one request by itself --------------------------------------------------

  /** The same request runs its next `n` statements with nothing in between. */
  function Alone(s: System, e: Event, n: nat): System
    decreases n
  {
    if n == 0 then s else Alone(React(s, e), e, n - 1)
  }

  /** A request that has ended stays as it is. */
  lemma {:induction false} EndedStays(s: System, e: Event, n: nat)
    requires e.Run? && e.k < |s.requests| && s.requests[e.k].Spend? && s.requests[e.k].stage in {Finished, TurnedAway}
    ensures Alone(s, e, n) == s
  {
    if n > 0 {
      EndedStays(s, e, n - 1);
    }
  }

  /** Undisturbed, the six statements of a checkout do what its transaction does, and end as it answers. */
  lemma CheckoutAlone(w: Workspace, id: string, requestId: string, orderId: string, e: Event)
    requires w.row.Some? && w.row.value.version == w.row.value.state.version && e.Run? && e.k == 0
    ensures var r := CheckoutTransaction(w, id, requestId, orderId, e.now, e.stamp, e.spentAt);
            var end := Alone(System(w, [Spend(id, requestId, orderId, FindingRecord)], [], []), e, 6);
            && end.workspace == r.after
            && end.requests == [Spend(id, requestId, orderId, if r.outcome.Done? then Finished else TurnedAway)]
  {
    var s := System(w, [Spend(id, requestId, orderId, FindingRecord)], [], []);
    var found, key := React(s, e), RecordKey(CheckoutTool, requestId);
    if key in w.records {
      EndedStays(found, e, 5);
    } else {
      var read := React(found, e);
      var checked := React(read, e);
      if SpendError(w, id, w.row.value.state, e.now).Some? {
        EndedStays(checked, e, 3);
      } else {
        SpendingAlone(w, id, requestId, orderId, e, checked);
      }
      assert Alone(s, e, 6) == Alone(found, e, 5) == Alone(read, e, 4) == Alone(checked, e, 3);
    }
  }

  lemma SpendingAlone(w: Workspace, id: string, requestId: string, orderId: string, e: Event, checked: System)
    requires w.row.Some? && w.row.value.version == w.row.value.state.version && e.Run? && e.k == 0
    requires RecordKey(CheckoutTool, requestId) !in w.records
    requires SpendError(w, id, w.row.value.state, e.now).None?
    requires checked.workspace == w && checked.requests == [Spend(id, requestId, orderId, Consuming(w.row.value.state))]
    ensures var r := CheckoutTransaction(w, id, requestId, orderId, e.now, e.stamp, e.spentAt);
            && r.outcome.Done?
            && Alone(checked, e, 3).workspace == r.after
            && Alone(checked, e, 3).requests == [Spend(id, requestId, orderId, Finished)]
  {
    var spent := React(checked, e);
    var written := React(spent, e);
    assert Alone(checked, e, 3) == Alone(spent, e, 2) == Alone(written, e, 1) == React(written, e);
  }

  /** Likewise the three statements of a decision. */
  lemma DecisionAlone(w: Workspace, id: string, target: Status, e: Event)
    requires e.Run? && e.k == 0
    ensures var r := Transition(w, id, target, e.now, e.stamp);
            var end := Alone(System(w, [Decision(id, target, Finding)], [], []), e, 3);
            && end.workspace == r.after
            && end.requests == [Decision(id, target, if r.outcome.Noted? then Decided else Declined)]
  {
    var s := System(w, [Decision(id, target, Finding)], [], []);
    var found := React(s, e);
    var moved := React(found, e);
    assert Alone(s, e, 3) == Alone(found, e, 2) == Alone(moved, e, 1) == React(moved, e);
  }
}
