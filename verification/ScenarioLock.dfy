/**
 Scenario purity: what the keyed lock of service.py buys `select_scenario`, whose reset and whose scenario write are
 two transactions.
 */
module ScenarioLock {
  import opened Wrappers
  import opened Catalog
  import opened Models
  import opened Instants
  import opened Store
  import opened Reachable

  /** A workspace, and the scenarios in force whenever a transaction since the last reset changed its content. */
  datatype Tracked = Tracked(workspace: Workspace, producers: set<Scenario>)

  function Track(t: Tracked, op: Op): Tracked {
    var after := Step(t.workspace, op).after;
    Tracked(after, ProducersAfter(t, op, after))
  }

  function ProducersAfter(t: Tracked, op: Op, after: Workspace): set<Scenario> {
    var w := t.workspace;
    if op.ResetOp? then {}
    else if op.WriteScenarioOp? || after == w || after == Ensured(w) then t.producers
    else t.producers + {StoredScenario(w)}
  }

  /** Nothing is in the workspace: no line, discount, order, note, record or confirmation. */
  predicate Pristine(w: Workspace) {
    (w.row.Some? ==> IsEmpty(w.row.value.state)) && |w.records| == 0 && |w.confirmations| == 0
  }

  /** Whatever is in the workspace has a producer. */
  predicate Attributed(t: Tracked) {
    t.producers == {} ==> Pristine(t.workspace)
  }

  /** Everything in the workspace was produced under the scenario now stored. */
  predicate Pure(t: Tracked) {
    Attributed(t) && t.producers <= {StoredScenario(t.workspace)}
  }

  lemma TrackAttributes(t: Tracked, op: Op)
    requires Attributed(t)
    ensures Attributed(Track(t, op))
  {
  }

  // -- with the lock ----------------------------------------------------------

  /** A request that takes the workspace lock: a single transaction, or the two of a scenario selection. */
  datatype Job = Mutate(op: Op) | Select(scenario: Scenario)

  datatype Lock = Free | Held(job: Job, stage: nat)

  datatype Machine = Machine(tracked: Tracked, lock: Lock)

  /** Some waiting request acquires the lock, the holder runs its next transaction, or the process dies. */
  datatype Event = Acquire(job: Job) | Advance | Crash

  predicate ValidJob(job: Job) {
    job.Mutate? ==> !job.op.ResetOp? && !job.op.WriteScenarioOp?
  }

  function React(m: Machine, e: Event): Machine {
    match (e, m.lock)
    case (Acquire(job), Free) => if ValidJob(job) then m.(lock := Held(job, 0)) else m
    case (Advance, Held(Mutate(op), _)) => Machine(Track(m.tracked, op), Free)
    case (Advance, Held(Select(scenario), stage)) =>
      if stage == 0 then Machine(Track(Track(m.tracked, ReadOp), ResetOp), Held(Select(scenario), 1))
      else Machine(Track(m.tracked, WriteScenarioOp(scenario)), Free)
    case (Crash, _) => m.(lock := Free)
    case _ => m
  }

  function Execute(m: Machine, events: seq<Event>): Machine {
    if events == [] then m else React(Execute(m, events[..|events| - 1]), events[|events| - 1])
  }

  /** Pure throughout, and nothing at all in the workspace between the two transactions of a selection. */
  ghost predicate LockInvariant(m: Machine) {
    && Pure(m.tracked)
    && (m.lock.Held? ==> ValidJob(m.lock.job))
    && (m.lock.Held? && m.lock.job.Select? && m.lock.stage > 0 ==> m.tracked.producers == {})
  }

  lemma ReactKeepsPurity(m: Machine, e: Event)
    requires LockInvariant(m)
    ensures LockInvariant(React(m, e))
  {
    var t := m.tracked;
    if e.Advance? && m.lock.Held? {
      match m.lock.job {
        case Mutate(op) =>
          TrackAttributes(t, op);
          ScenarioIsKept(t.workspace, op);
        case Select(scenario) =>
          TrackAttributes(t, ReadOp);
          TrackAttributes(Track(t, ReadOp), ResetOp);
          TrackAttributes(t, WriteScenarioOp(scenario));
      }
    }
  }

  /**
   Scenario purity. Under the lock, and through any number of crashes at any point, everything in the workspace was
   produced under the scenario stored beside it.
   */
  lemma {:induction false} LockedStoreIsPure(m: Machine, events: seq<Event>)
    requires LockInvariant(m)
    ensures LockInvariant(Execute(m, events))
  {
    if events != [] {
      LockedStoreIsPure(m, events[..|events| - 1]);
      ReactKeepsPurity(Execute(m, events[..|events| - 1]), events[|events| - 1]);
    }
  }

  /** A selection that is not cut short ends with the lock free and the scenario selected over a fresh seed. */
  lemma LockedSelectionSelects(m: Machine, scenario: Scenario)
    requires m.lock == Free
    ensures var end := Execute(m, [Acquire(Select(scenario)), Advance, Advance]);
            end.lock == Free && end.tracked.workspace == Selected(m.tracked.workspace, scenario)
  {
    var acquire := Acquire(Select(scenario));
    assert [acquire, Advance, Advance][..2] == [acquire, Advance];
    assert [acquire, Advance][..1] == [acquire];
    assert [acquire][..0] == [];
    assert Execute(m, [acquire]) == Machine(m.tracked, Held(Select(scenario), 0));
  }

  /** Any other request runs its one transaction under the lock. */
  lemma LockedOperationRuns(m: Machine, op: Op)
    requires m.lock == Free && ValidJob(Mutate(op))
    ensures var end := Execute(m, [Acquire(Mutate(op)), Advance]);
            end.lock == Free && end.tracked.workspace == Step(m.tracked.workspace, op).after
  {
    var acquire := Acquire(Mutate(op));
    assert [acquire, Advance][..1] == [acquire];
    assert [acquire][..0] == [];
    assert Execute(m, [acquire]) == Machine(m.tracked, Held(Mutate(op), 0));
  }

  // -- without the lock -------------------------------------------------------

  function TrackAll(t: Tracked, ops: seq<Op>): Tracked {
    if ops == [] then t else Track(TrackAll(t, ops[..|ops| - 1]), ops[|ops| - 1])
  }

  /** A scenario write meets content left under another scenario. */
  predicate MeetsContent(w: Workspace, op: Op) {
    op.WriteScenarioOp? && w.row.Some? && !Pristine(w) && op.scenario != StoredScenario(w)
  }

  /** There is content exactly when there is a producer. */
  ghost predicate Accounted(t: Tracked) {
    Good(t.workspace) && (t.producers == {} <==> Pristine(t.workspace))
  }

  /** No operation but a reset takes content away. */
  lemma ContentStays(w: Workspace, op: Op)
    requires Good(w) && SoundOp(op) && !op.ResetOp? && !Pristine(w)
    ensures !Pristine(Step(w, op).after)
  {
    match op
    case UpdateCartOp(_, _, _) => UpdateKeepsContent(w, op);
    case ApplyDiscountOp(_) => DiscountKeepsContent(w, op);
    case CheckoutOp(_, _, _, _, _, _) => CheckoutKeepsContent(w, op);
    case SweepOp(now) => SweepKeepsContent(w, now);
    case WriteScenarioOp(scenario) => SelectionMovesNoContent(w, scenario);
    case ReadOp =>
    case _ => ConfirmationKeepsContent(w, op);
  }

  lemma ConfirmationKeepsContent(w: Workspace, op: Op)
    requires Good(w) && !Pristine(w) && (op.RequestOp? || op.InsertOp? || op.DecideOp? || op.CancelOp?)
    ensures !Pristine(Step(w, op).after)
  {
    if op.DecideOp? || op.CancelOp? {
      DecisionKeepsContent(w, op);
    }
  }

  lemma DecisionKeepsContent(w: Workspace, op: Op)
    requires !Pristine(w) && (op.DecideOp? || op.CancelOp?)
    ensures !Pristine(Step(w, op).after)
  {
    if DecisionError(w, op.id, op.now).None? {
      DecisionEffect(w, op.id, if op.CancelOp? then Cancelled else if op.approved then Approved else Denied,
                     op.now, op.stamp);
    }
  }

  lemma SweepKeepsContent(w: Workspace, now: Instant)
    requires !Pristine(w)
    ensures !Pristine(Sweep(w, now))
  {
    if |w.confirmations| > 0 {
      var id :| id in w.confirmations;
      assert id in Sweep(w, now).confirmations;
    }
  }

  lemma UpdateKeepsContent(w: Workspace, op: Op)
    requires Good(w) && op.UpdateCartOp? && !Pristine(w)
    ensures !Pristine(Step(w, op).after)
  {
    if w.row.Some? {
      VersionOfUpdate(w, op);
      UpdateLeavesRows(w, op);
    }
  }

  lemma DiscountKeepsContent(w: Workspace, op: Op)
    requires Good(w) && op.ApplyDiscountOp? && !Pristine(w)
    ensures !Pristine(Step(w, op).after)
  {
    if w.row.Some? {
      VersionOfDiscount(w, op);
    }
  }

  lemma CheckoutKeepsContent(w: Workspace, op: Op)
    requires Good(w) && op.CheckoutOp? && !Pristine(w)
    ensures !Pristine(Step(w, op).after)
  {
  }

  /** A step between two workspaces without content has changed nothing, but perhaps seeded. */
  lemma NoContentNoChange(w: Workspace, op: Op)
    requires Good(w) && SoundOp(op) && !op.WriteScenarioOp? && Pristine(w) && Pristine(Step(w, op).after)
    ensures Step(w, op).after == w || Step(w, op).after == Ensured(w)
  {
    StepKeepsGood(w, op);
    ScenarioIsKept(w, op);
    OneEmptyState();
  }

  lemma ResetLeavesNothing(w: Workspace)
    ensures Pristine(ResetWorkspace(w))
  {
  }

  lemma SelectionMovesNoContent(w: Workspace, scenario: Scenario)
    ensures Pristine(WriteScenario(w, scenario)) <==> Pristine(w)
  {
  }

  lemma SeedingAddsNoContent(w: Workspace)
    ensures Pristine(w) ==> Pristine(Ensured(w))
  {
  }

  /** What a step may do to content. */
  ghost predicate ContentStep(w: Workspace, op: Op, after: Workspace) {
    if op.ResetOp? then Pristine(after)
    else if op.WriteScenarioOp? then Pristine(after) <==> Pristine(w)
    else if Pristine(w) then Pristine(Ensured(w)) && (Pristine(after) ==> after == w || after == Ensured(w))
    else !Pristine(after)
  }

  lemma StepContent(w: Workspace, op: Op)
    requires Good(w) && SoundOp(op)
    ensures ContentStep(w, op, Step(w, op).after)
  {
    if op.ResetOp? {
      ResetLeavesNothing(w);
    } else if op.WriteScenarioOp? {
      SelectionMovesNoContent(w, op.scenario);
    } else if !Pristine(w) {
      ContentStays(w, op);
    } else {
      SeedingAddsNoContent(w);
      if Pristine(Step(w, op).after) {
        NoContentNoChange(w, op);
      }
    }
  }

  /** So content appears and stays with its producer. */
  lemma ProducersAccount(t: Tracked, op: Op, after: Workspace)
    requires (t.producers == {} <==> Pristine(t.workspace)) && ContentStep(t.workspace, op, after)
    ensures ProducersAfter(t, op, after) == {} <==> Pristine(after)
  {
  }

  lemma TrackAccounts(t: Tracked, op: Op)
    requires Accounted(t) && SoundOp(op)
    ensures Accounted(Track(t, op))
  {
    StepKeepsGood(t.workspace, op);
    StepContent(t.workspace, op);
    ProducersAccount(t, op, Step(t.workspace, op).after);
  }

  lemma PurityStep(t: Tracked, op: Op)
    requires Accounted(t) && Pure(t) && SoundOp(op)
    ensures Pure(Track(t, op)) <==> !MeetsContent(t.workspace, op)
  {
    TrackAttributes(t, op);
    if !op.WriteScenarioOp? {
      ScenarioIsKept(t.workspace, op);
    } else if t.workspace.row.None? {
      assert Track(t, op) == t;
    }
  }

  lemma {:induction false} TrackAllRuns(t: Tracked, ops: seq<Op>)
    requires Accounted(t) && SoundLog(ops)
    ensures TrackAll(t, ops).workspace == Run(t.workspace, ops) && Accounted(TrackAll(t, ops))
  {
    if ops != [] {
      TrackAllRuns(t, ops[..|ops| - 1]);
      TrackAccounts(TrackAll(t, ops[..|ops| - 1]), ops[|ops| - 1]);
    }
  }

  /** Pure after every prefix of the log. */
  predicate PureThroughout(t: Tracked, ops: seq<Op>) {
    Pure(TrackAll(t, ops)) && (ops == [] || PureThroughout(t, ops[..|ops| - 1]))
  }

  /** No scenario write of the log meets content under another scenario than the one it writes. */
  predicate NeverMeetsContent(w: Workspace, ops: seq<Op>) {
    forall i :: 0 <= i < |ops| ==> !MeetsAt(w, ops, i)
  }

  lemma NeverMeetsNext(w: Workspace, ops: seq<Op>)
    requires ops != []
    ensures var front := ops[..|ops| - 1];
            NeverMeetsContent(w, ops) <==> NeverMeetsContent(w, front) && !MeetsContent(Run(w, front), ops[|ops| - 1])
  {
    var n := |ops| - 1;
    var front := ops[..n];
    forall i | 0 <= i < n ensures MeetsAt(w, front, i) <==> MeetsAt(w, ops, i) {
      PrefixOfFront(ops, i);
    }
    assert NeverMeetsContent(w, ops) <==> (forall i :: 0 <= i < n ==> !MeetsAt(w, ops, i)) && !MeetsAt(w, ops, n);
  }

  predicate MeetsAt(w: Workspace, ops: seq<Op>, i: nat)
    requires i < |ops|
  {
    MeetsContent(Run(w, ops[..i]), ops[i])
  }

  /**
   Over transactions in any order, the workspace is pure at every point exactly when no scenario write meets a workspace
   that holds anything under a different scenario.
   */
  lemma {:induction false} PureThroughoutExactly(t: Tracked, ops: seq<Op>)
    requires Accounted(t) && Pure(t) && SoundLog(ops)
    ensures PureThroughout(t, ops) <==> NeverMeetsContent(t.workspace, ops)
  {
    if ops != [] {
      var front := ops[..|ops| - 1];
      PureThroughoutExactly(t, front);
      NeverMeetsNext(t.workspace, ops);
      TrackAllRuns(t, front);
      if PureThroughout(t, front) {
        PurityStep(TrackAll(t, front), ops[|ops| - 1]);
      }
    }
  }

  /**
   Correctness does depend on the lock. Any fresh `update_cart` between the two transactions of a selection leaves,
   under the newly stored scenario, a line that the old one produced.
   */
  lemma UnlockedSelectionMixes(w: Workspace, update: Op, after: Scenario)
    requires Good(w) && w.row.Some? && StoredScenario(w) != after
    requires update.UpdateCartOp? && FirstUse(ResetWorkspace(w), update) && update.quantity >= 1
    ensures var updated := Track(Track(Tracked(w, {}), ResetOp), update);
            var end := Track(updated, WriteScenarioOp(after));
            && MeetsContent(updated.workspace, WriteScenarioOp(after))
            && StoredScenario(end.workspace) == after
            && end.producers == {StoredScenario(w)}
            && end.workspace.row.Some?
            && ProductById(update.productId).value.lineKey in end.workspace.row.value.state.target.cart.items
  {
    SelectionKeepsGood(w, after);
    var reset := Track(Tracked(w, {}), ResetOp);
    UpdateAfterReset(reset, update);
    WriteOverContent(Track(reset, update), after);
  }

  lemma WriteOverContent(t: Tracked, after: Scenario)
    requires t.workspace.row.Some?
    ensures Track(t, WriteScenarioOp(after))
         == Tracked(t.workspace.(row := Some(t.workspace.row.value.(scenario := after))), t.producers)
  {
  }

  lemma UpdateAfterReset(t: Tracked, update: Op)
    requires Good(t.workspace) && t.workspace.row.Some? && t.producers == {}
    requires FirstUse(t.workspace, update) && update.quantity >= 1
    ensures var w, updated := t.workspace, Track(t, update);
            && updated.producers == {StoredScenario(w)}
            && updated.workspace.row.Some? && StoredScenario(updated.workspace) == StoredScenario(w)
            && ProductById(update.productId).value.lineKey in updated.workspace.row.value.state.target.cart.items
  {
    var w := t.workspace;
    FirstUseEffect(w, update);
    ApplyQuantityIsHonest(w.row.value.state, update.productId, update.quantity, w.row.value.scenario, false);
    assert RecordKey(UpdateCartTool, update.requestId) in Step(w, update).after.records;
  }
}
