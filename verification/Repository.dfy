/** The store's database (repository.py): one method per statement, over three mutable tables. */
module Repository {
  import opened Wrappers
  import opened Models
  import opened Documents
  import opened Instants
  import opened Store
  import opened Database
  import opened Tables

  /** What `replay_or_claim` decides. */
  datatype Claim = Proceed | Replay(response: Response) | Conflict

  /** The committed tables, as a transaction finds them. */
  datatype Snapshot = Snapshot(states: States, records: Records, confirmations: Confirmations)

  class StoreRepository {
    var states: States
    var records: Records
    var confirmations: Confirmations

    /** The workspaces the tables represent. */
    ghost var db: Workspaces

    ghost predicate Valid()
      reads this
    {
      Represents(states, records, confirmations, db)
    }

    constructor ()
      ensures Valid() && db == map[]
    {
      states, records, confirmations, db := map[], map[], map[], map[];
      new;
      Initial(states, records, confirmations);
    }

    // -- transactions ---------------------------------------------------------

    /** `BEGIN IMMEDIATE`. */
    method Begin() returns (before: Snapshot)
      ensures before == Snapshot(states, records, confirmations)
    {
      before := Snapshot(states, records, confirmations);
    }

    /** `ROLLBACK`: the tables as the transaction found them. */
    method Rollback(before: Snapshot, ghost was: Workspaces)
      requires Represents(before.states, before.records, before.confirmations, was)
      modifies this
      ensures Valid() && db == was
    {
      states, records, confirmations := before.states, before.records, before.confirmations;
      db := was;
    }

    // -- canonical state ------------------------------------------------------

    method ReadState(ws: string) returns (state: Option<StoreState>)
      requires Valid()
      ensures state == if View(db, ws).row.Some? then Some(View(db, ws).row.value.state) else None
    {
      assert StateMatches(states, ws, View(db, ws).row);
      if ws !in states {
        return None;
      }
      state := StateFromDocument(states[ws].stateJson);
      StoredStateReads(db, ws);
    }

    /** Seed an empty state on first contact; a second call finds the row. */
    method EnsureWorkspace(ws: string) returns (state: StoreState)
      requires Valid()
      modifies this
      ensures Valid() && db == old(db)[ws := Ensured(View(old(db), ws))]
      ensures View(db, ws).row.Some? && state == View(db, ws).row.value.state
    {
      var existing := ReadState(ws);
      if existing.Some? {
        state := existing.value;
        SameWorkspace(states, records, confirmations, db, ws);
      } else {
        state := EmptyState();
        AfterSeed(states, records, confirmations, db, ws, state);
        states := states[ws := StateRow(state.version, StateDocument(state), PostFix, NoFault)];
      }
      db := db[ws := Ensured(View(db, ws))];
    }

    /** The `UPDATE` matches only a row whose version column is smaller. */
    method WriteState(ws: string, state: StoreState)
      requires Valid() && state.Valid()
      modifies this
      ensures Valid()
      ensures db == if View(old(db), ws).row.Some? then old(db)[ws := Store.WriteState(View(old(db), ws), state)]
                    else old(db)
    {
      assert StateMatches(states, ws, View(db, ws).row);
      if View(db, ws).row.Some? {
        AfterGuardedWrite(states, records, confirmations, db, ws, state);
      }
      states := GuardedWrite(states, ws, state.version, StateDocument(state));
      db := if View(db, ws).row.Some? then db[ws := Store.WriteState(View(db, ws), state)] else db;
    }

    // -- idempotency records --------------------------------------------------

    /** Replay, proceed or refuse: the recorded request hash decides. */
    method ReplayOrClaim(ws: string, key: RecordKey, payload: Payload) returns (claim: Claim)
      requires Valid()
      ensures var found := FindRecord(View(db, ws), key);
              claim == if found.None? then Proceed
              else if found.value.payload != payload then Conflict
              else Replay(found.value.response)
    {
      assert RecordMatches(records, RecordId(ws, key), FindRecord(View(db, ws), key));
      if RecordId(ws, key) !in records {
        return Proceed;
      }
      var row := records[RecordId(ws, key)];
      if row.payload != payload {
        return Conflict;
      }
      return Replay(row.response);
    }

    /** A plain `INSERT`: `false` when the primary key, or the foreign key on the workspace, refuses the row. */
    method RecordResult(ws: string, key: RecordKey, record: Record) returns (inserted: bool)
      requires Valid()
      modifies this
      ensures Valid()
      ensures var recorded := Store.RecordResult(View(old(db), ws), key, record);
              && inserted == (View(old(db), ws).row.Some? && recorded.Some?)
              && db == if inserted then old(db)[ws := recorded.value] else old(db)
    {
      ghost var w := View(db, ws);
      assert StateMatches(states, ws, w.row);
      assert RecordMatches(records, RecordId(ws, key), FindRecord(w, key));
      inserted := ws in states && RecordId(ws, key) !in records;
      if inserted {
        AfterRecord(states, records, confirmations, db, ws, key, record);
        records := records[RecordId(ws, key) := record];
        db := db[ws := w.(records := w.records[key := record])];
      }
    }

    // -- scenario -------------------------------------------------------------

    method ReadScenario(ws: string) returns (scenario: Option<Scenario>)
      requires Valid()
      ensures scenario == if View(db, ws).row.Some? then Some(View(db, ws).row.value.scenario) else None
    {
      assert StateMatches(states, ws, View(db, ws).row);
      scenario := if ws in states then Some(Scenario(states[ws].scenarioMode, states[ws].faultProfile)) else None;
    }

    method WriteScenario(ws: string, scenario: Scenario)
      requires Valid()
      modifies this
      ensures Valid() && db == old(db)[ws := Store.WriteScenario(View(old(db), ws), scenario)]
    {
      ghost var w := View(db, ws);
      assert StateMatches(states, ws, w.row);
      assert Sound(w);
      if ws in states {
        ghost var row := w.row.value.(scenario := scenario);
        AfterStateWrite(states, records, confirmations, db, ws, row);
        states := states[ws := states[ws].(scenarioMode := scenario.mode, faultProfile := scenario.profile)];
        db := db[ws := w.(row := Some(row))];
      } else {
        SameWorkspace(states, records, confirmations, db, ws);
        db := db[ws := w];
      }
    }

    // -- confirmations --------------------------------------------------------

    /** `false` when the primary key, or the foreign key on the workspace, refuses the row. */
    method InsertConfirmation(ws: string, id: string, c: Confirmation) returns (inserted: bool)
      requires Valid()
      modifies this
      ensures Valid()
      ensures inserted <==> View(old(db), ws).row.Some? && id !in View(old(db), ws).confirmations
                            && !TakenElsewhere(old(db), ws, id)
      ensures var w := View(old(db), ws);
              db == if inserted then old(db)[ws := w.(confirmations := w.confirmations[id := c])] else old(db)
    {
      ghost var w := View(db, ws);
      assert StateMatches(states, ws, w.row);
      assert ConfirmationMatches(confirmations, ws, id, ConfirmationAt(w, id));
      TakenElsewhereIsARow(states, records, confirmations, db, ws, id);
      inserted := ws in states && id !in confirmations;
      if inserted {
        AfterConfirmation(states, records, confirmations, db, ws, id, c);
        confirmations := confirmations[id := ConfirmationRow(ws, c)];
        db := db[ws := w.(confirmations := w.confirmations[id := c])];
      }
    }

    /** An id selects a row only for the workspace that row belongs to. */
    method FindConfirmation(ws: string, id: string) returns (found: Option<Confirmation>)
      requires Valid()
      ensures found == ConfirmationAt(View(db, ws), id)
    {
      assert ConfirmationMatches(confirmations, ws, id, ConfirmationAt(View(db, ws), id));
      if id in confirmations && confirmations[id].ws == ws {
        return Some(confirmations[id].confirmation);
      }
      return None;
    }

    /** The guarded `UPDATE`: `true` when the one row still had the expected status. */
    method SetConfirmationStatus(ws: string, id: string, status: Status, expected: Status, now: Instant,
                                 consumedAt: Option<Instant>) returns (moved: bool)
      requires Valid()
      modifies this
      ensures Valid()
      ensures var after := SetStatus(View(old(db), ws), id, status, expected, now, consumedAt);
              && moved == after.Some?
              && db == if moved then old(db)[ws := after.value] else old(db)
    {
      AfterStatusUpdate(states, records, confirmations, db, ws, id, status, expected, now, consumedAt);
      ghost var after := SetStatus(View(db, ws), id, status, expected, now, consumedAt);
      moved := StatusIs(confirmations, ws, id, expected);
      if moved {
        confirmations := confirmations[id := MovedRow(confirmations[id], status, now, consumedAt)];
        db := db[ws := after.value];
      }
    }

    /** One `UPDATE` over the workspace's lapsed pending rows, and how many it matched. */
    method ExpirePendingConfirmations(ws: string, now: Instant) returns (swept: nat)
      requires Valid()
      modifies this
      ensures Valid() && db == old(db)[ws := Sweep(View(old(db), ws), now)]
      ensures var before := View(old(db), ws).confirmations;
              swept == |set id | id in before && Swept(before[id], now) != before[id]|
    {
      ghost var w := View(db, ws);
      var matched := set id | id in confirmations && confirmations[id].ws == ws
                              && Swept(confirmations[id].confirmation, now) != confirmations[id].confirmation;
      SweptRows(confirmations, db, ws, now);
      swept := |matched|;
      AfterSweep(states, records, confirmations, db, ws, now);
      confirmations := SweptTable(confirmations, ws, now);
      db := db[ws := Sweep(w, now)];
    }

    // -- reset ----------------------------------------------------------------

    method ResetWorkspace(ws: string)
      requires Valid()
      modifies this
      ensures Valid() && db == old(db)[ws := Store.ResetWorkspace(View(old(db), ws))]
    {
      var empty := EmptyState();
      AfterReset(states, records, confirmations, db, ws, empty);
      db := db[ws := Store.ResetWorkspace(View(db, ws))];
      records := OtherRecords(records, ws);
      confirmations := OtherConfirmations(confirmations, ws);
      states := Reseeded(states, ws, empty);
    }
  }
}
