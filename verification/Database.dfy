/**
 Many workspaces in one database, and the isolation between them.

 Every statement is scoped by workspace id, with one exception: a confirmation id is a primary key over the whole
 table, so an id taken in another workspace cannot be inserted.
 */
module Database {
  import opened Wrappers
  import opened Store
  import opened Reachable

  type Workspaces = map<string, Workspace>

  /** What the database holds for a workspace; nothing, for one nobody has touched. */
  function View(db: Workspaces, ws: string): Workspace {
    if ws in db then db[ws] else
    UntouchedExists();
    var w: Workspace :| Untouched(w);
    w
  }

  lemma UntouchedExists()
    ensures exists w: Workspace :: Untouched(w)
    ensures forall v: Workspace, w: Workspace :: Untouched(v) && Untouched(w) ==> v == w
  {
    assert Untouched(Workspace(None, map[], map[]));
  }

  datatype Call = Call(ws: string, op: Op)

  /** The id the operation inserts a confirmation under. */
  predicate InsertsUnder(op: Op, id: string) {
    (op.RequestOp? || op.InsertOp?) && op.id == id
  }

  predicate TakenElsewhere(db: Workspaces, ws: string, id: string) {
    exists other :: other in db && other != ws && id in db[other].confirmations
  }

  lemma TakenElsewhereIgnoresOwn(db: Workspaces, ws: string, w: Workspace, id: string)
    ensures TakenElsewhere(db[ws := w], ws, id) <==> TakenElsewhere(db, ws, id)
  {
    var later := db[ws := w];
    assert forall other :: other != ws ==> (other in later <==> other in db);
    assert forall other :: other != ws && other in db ==> later[other] == db[other];
  }

  /** The insert meets a confirmation of another workspace. */
  predicate Collides(db: Workspaces, call: Call) {
    match call.op
    case RequestOp(id, expiresIn, _) =>
      MIN_EXPIRY_SECONDS <= expiresIn <= MAX_EXPIRY_SECONDS && TakenElsewhere(db, call.ws, id)
    case InsertOp(id, _, _, _) => TakenElsewhere(db, call.ws, id)
    case _ => false
  }

  /** What one call does in its own workspace. */
  function CallResult(db: Workspaces, call: Call): Result {
    var w := View(db, call.ws);
    if Collides(db, call) then Result(if call.op.RequestOp? then Ensured(w) else w, Crashed) else Step(w, call.op)
  }

  function Perform(db: Workspaces, call: Call): Workspaces {
    db[call.ws := CallResult(db, call).after]
  }

  function PerformAll(db: Workspaces, log: seq<Call>): Workspaces {
    if log == [] then db else Perform(PerformAll(db, log[..|log| - 1]), log[|log| - 1])
  }

  /** What each call of a log is answered. */
  function Replies(db: Workspaces, log: seq<Call>): seq<Outcome> {
    if log == [] then [] else
    var front := log[..|log| - 1];
    Replies(db, front) + [CallResult(PerformAll(db, front), log[|log| - 1]).outcome]
  }

  lemma OneMoreCall(db: Workspaces, log: seq<Call>, k: nat)
    requires k < |log|
    ensures PerformAll(db, log[..k + 1]) == Perform(PerformAll(db, log[..k]), log[k])
    ensures Replies(db, log[..k + 1]) == Replies(db, log[..k]) + [CallResult(PerformAll(db, log[..k]), log[k]).outcome]
  {
    assert log[..k + 1][..k] == log[..k];
  }

  /** The operations of a log that belong to one workspace. */
  function Own(log: seq<Call>, ws: string): seq<Op> {
    if log == [] then [] else
    var last := log[|log| - 1];
    Own(log[..|log| - 1], ws) + (if last.ws == ws then [last.op] else [])
  }

  /** Minted ids are fresh across workspaces: no id is inserted by two of them, nor taken by another at the start. */
  ghost predicate FreshIds(db: Workspaces, log: seq<Call>) {
    && (forall i, ws, id :: 0 <= i < |log| && InsertsUnder(log[i].op, id) && ws != log[i].ws ==>
                              id !in View(db, ws).confirmations)
    && (forall i, j, id :: 0 <= i < |log| && 0 <= j < |log| && InsertsUnder(log[i].op, id)
                           && InsertsUnder(log[j].op, id) ==>
                             log[i].ws == log[j].ws)
  }

  /** A workspace only ever holds confirmations it started with or inserted itself. */
  ghost predicate OwnIds(db: Workspaces, log: seq<Call>, ws: string) {
    forall id :: id in View(PerformAll(db, log), ws).confirmations ==>
                   || id in View(db, ws).confirmations
                   || exists i :: 0 <= i < |log| && log[i].ws == ws && InsertsUnder(log[i].op, id)
  }

  lemma NewIdsAreMinted(w: Workspace, op: Op, id: string)
    requires id in Step(w, op).after.confirmations && id !in w.confirmations
    ensures InsertsUnder(op, id)
  {
    match op
    case UpdateCartOp(_, _, _) => UpdateLeavesRows(w, op);
    case CheckoutOp(_, _, _, _, _, _) => CheckoutMovesOneRow(w, op);
    case _ =>
  }

  lemma FreshPrefix(db: Workspaces, log: seq<Call>)
    requires log != [] && FreshIds(db, log)
    ensures FreshIds(db, log[..|log| - 1])
  {
    var front := log[..|log| - 1];
    assert forall i :: 0 <= i < |front| ==> front[i] == log[i];
  }

  lemma {:induction false} IdsAreOwn(db: Workspaces, log: seq<Call>, ws: string)
    ensures OwnIds(db, log, ws)
  {
    if log != [] {
      var front, last := log[..|log| - 1], log[|log| - 1];
      IdsAreOwn(db, front, ws);
      var before := PerformAll(db, front);
      forall id | id in View(PerformAll(db, log), ws).confirmations
        ensures || id in View(db, ws).confirmations
                || exists i :: 0 <= i < |log| && log[i].ws == ws && InsertsUnder(log[i].op, id)
      {
        if id in View(before, ws).confirmations {
          if id !in View(db, ws).confirmations {
            var i :| 0 <= i < |front| && front[i].ws == ws && InsertsUnder(front[i].op, id);
            assert log[i] == front[i];
          }
        } else {
          NewIdsAreMinted(View(before, ws), last.op, id);
          assert log[|log| - 1].ws == ws && InsertsUnder(log[|log| - 1].op, id);
        }
      }
    }
  }

  lemma FreshNeverCollides(db: Workspaces, log: seq<Call>)
    requires log != [] && FreshIds(db, log)
    ensures !Collides(PerformAll(db, log[..|log| - 1]), log[|log| - 1])
  {
    var front, last := log[..|log| - 1], log[|log| - 1];
    var before := PerformAll(db, front);
    assert forall i :: 0 <= i < |front| ==> front[i] == log[i];
    forall other | other in before && other != last.ws && (last.op.RequestOp? || last.op.InsertOp?)
      ensures last.op.id !in before[other].confirmations
    {
      var id := last.op.id;
      IdsAreOwn(db, front, other);
      assert before[other] == View(before, other);
      assert InsertsUnder(log[|log| - 1].op, id);
      assert forall i :: 0 <= i < |front| && InsertsUnder(front[i].op, id) ==> log[i].ws == last.ws;
    }
  }

  /**
   Workspace isolation. Over any log of calls from many workspaces, with fresh ids, what one workspace holds is what
   its own operations alone would have left, and its last outcome is the one they alone would have produced.
   */
  lemma {:induction false} Isolation(db: Workspaces, log: seq<Call>, ws: string)
    requires FreshIds(db, log)
    ensures View(PerformAll(db, log), ws) == Run(View(db, ws), Own(log, ws))
    ensures log != [] && log[|log| - 1].ws == ws ==>
              CallResult(PerformAll(db, log[..|log| - 1]), log[|log| - 1]).outcome
              == OutcomeAt(View(db, ws), Own(log, ws), |Own(log, ws)| - 1)
  {
    if log != [] {
      FreshPrefix(db, log);
      Isolation(db, log[..|log| - 1], ws);
      if log[|log| - 1].ws == ws {
        IsolationOfOwnCall(db, log, ws);
      } else {
        assert Own(log, ws) == Own(log[..|log| - 1], ws);
      }
    }
  }

  lemma IsolationOfOwnCall(db: Workspaces, log: seq<Call>, ws: string)
    requires log != [] && log[|log| - 1].ws == ws && FreshIds(db, log)
    requires View(PerformAll(db, log[..|log| - 1]), ws) == Run(View(db, ws), Own(log[..|log| - 1], ws))
    ensures View(PerformAll(db, log), ws) == Run(View(db, ws), Own(log, ws))
    ensures CallResult(PerformAll(db, log[..|log| - 1]), log[|log| - 1]).outcome
         == OutcomeAt(View(db, ws), Own(log, ws), |Own(log, ws)| - 1)
  {
    var own, op := Own(log[..|log| - 1], ws), log[|log| - 1].op;
    FreshNeverCollides(db, log);
    assert Own(log, ws) == own + [op];
    RunOneMore(View(db, ws), own, op);
  }
}
