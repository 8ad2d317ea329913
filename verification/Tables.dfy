/**
 The three tables of the store's database, and the workspaces they represent.

 The state column holds the JSON document that `write_state` stores and `read_state` validates. A request hash and a
 state binding hash are kept as the payload and the cart they are hashes of.
 */
module Tables {
  import opened Wrappers
  import opened Models
  import opened Documents
  import opened Instants
  import opened Store
  import opened Database

  /** `buggy_store_state`, keyed by workspace id. */
  datatype StateRow = StateRow(stateVersion: int, stateJson: Json, scenarioMode: Mode, faultProfile: Profile)

  /** `buggy_store_idempotency_records`, by its primary key. */
  datatype RecordId = RecordId(ws: string, key: RecordKey)

  /** `buggy_store_confirmations`, keyed by confirmation id. */
  datatype ConfirmationRow = ConfirmationRow(ws: string, confirmation: Confirmation)

  type States = map<string, StateRow>
  type Records = map<RecordId, Record>
  type Confirmations = map<string, ConfirmationRow>

  function StateRowOf(row: Row): StateRow {
    StateRow(row.version, StateDocument(row.state), row.scenario.mode, row.scenario.profile)
  }

  // -- representation ---------------------------------------------------------

  ghost predicate StatesMatch(states: States, db: Workspaces) {
    forall ws {:trigger StateMatches(states, ws, View(db, ws).row)} :: StateMatches(states, ws, View(db, ws).row)
  }

  ghost predicate StateMatches(states: States, ws: string, row: Option<Row>) {
    (ws in states <==> row.Some?) && (row.Some? ==> states[ws] == StateRowOf(row.value))
  }

  ghost predicate RecordsMatch(records: Records, db: Workspaces) {
    forall ws, key {:trigger RecordMatches(records, RecordId(ws, key), FindRecord(View(db, ws), key))} ::
      RecordMatches(records, RecordId(ws, key), FindRecord(View(db, ws), key))
  }

  ghost predicate RecordMatches(records: Records, id: RecordId, record: Option<Record>) {
    (id in records <==> record.Some?) && (record.Some? ==> records[id] == record.value)
  }

  ghost predicate ConfirmationsMatch(confirmations: Confirmations, db: Workspaces) {
    forall ws, id {:trigger ConfirmationMatches(confirmations, ws, id, ConfirmationAt(View(db, ws), id))} ::
      ConfirmationMatches(confirmations, ws, id, ConfirmationAt(View(db, ws), id))
  }

  function ConfirmationAt(w: Workspace, id: string): Option<Confirmation> {
    if id in w.confirmations then Some(w.confirmations[id]) else None
  }

  ghost predicate ConfirmationMatches(confirmations: Confirmations, ws: string, id: string, c: Option<Confirmation>) {
    && (id in confirmations && confirmations[id].ws == ws <==> c.Some?)
    && (c.Some? ==> confirmations[id] == ConfirmationRow(ws, c.value))
  }

  /** What validation and the foreign keys ensure: a stored state is valid, and other rows belong to a state row. */
  ghost predicate Sound(w: Workspace) {
    (w.row.Some? ==> w.row.value.state.Valid()) && (w.row.None? ==> Untouched(w))
  }

  ghost predicate AllSound(db: Workspaces) {
    forall ws {:trigger Sound(View(db, ws))} :: Sound(View(db, ws))
  }

  /** The tables hold exactly these workspaces, and each of them is sound. */
  ghost predicate Represents(states: States, records: Records, confirmations: Confirmations, db: Workspaces) {
    StatesMatch(states, db) && RecordsMatch(records, db) && ConfirmationsMatch(confirmations, db) && AllSound(db)
  }

  /** The same workspaces, told apart from the ids that happen to be keys. */
  ghost predicate SameViews(a: Workspaces, b: Workspaces) {
    forall ws :: View(a, ws) == View(b, ws)
  }

  lemma SameViewsSameResult(a: Workspaces, b: Workspaces, call: Call)
    requires SameViews(a, b)
    ensures CallResult(a, call) == CallResult(b, call)
    ensures SameViews(Perform(a, call), Perform(b, call))
  {
    assert View(a, call.ws) == View(b, call.ws);
    forall id ensures TakenElsewhere(a, call.ws, id) <==> TakenElsewhere(b, call.ws, id) {
      TakenInView(a, call.ws, id);
      TakenInView(b, call.ws, id);
      assert forall other :: View(a, other) == View(b, other);
    }
    forall ws ensures View(Perform(a, call), ws) == View(Perform(b, call), ws) {
      assert View(a, ws) == View(b, ws);
    }
  }

  lemma TakenInView(db: Workspaces, ws: string, id: string)
    ensures TakenElsewhere(db, ws, id) <==> exists other :: other != ws && id in View(db, other).confirmations
  {
    if other :| other in db && other != ws && id in db[other].confirmations {
      assert id in View(db, other).confirmations;
    }
  }

  // -- one statement at a time ------------------------------------------------

  lemma StatesKept(states: States, db: Workspaces, ws: string, w: Workspace)
    requires StatesMatch(states, db) && w.row == View(db, ws).row
    ensures StatesMatch(states, db[ws := w])
  {
    var later := db[ws := w];
    forall other ensures StateMatches(states, other, View(later, other).row) {
      assert StateMatches(states, other, View(db, other).row);
    }
  }

  lemma StateWritten(states: States, db: Workspaces, ws: string, w: Workspace)
    requires StatesMatch(states, db) && w.row.Some?
    ensures StatesMatch(states[ws := StateRowOf(w.row.value)], db[ws := w])
  {
    var later := db[ws := w];
    forall other ensures StateMatches(states[ws := StateRowOf(w.row.value)], other, View(later, other).row) {
      assert StateMatches(states, other, View(db, other).row);
    }
  }

  lemma RecordsKept(records: Records, db: Workspaces, ws: string, w: Workspace)
    requires RecordsMatch(records, db) && w.records == View(db, ws).records
    ensures RecordsMatch(records, db[ws := w])
  {
    var later := db[ws := w];
    forall other, key ensures RecordMatches(records, RecordId(other, key), FindRecord(View(later, other), key)) {
      assert RecordMatches(records, RecordId(other, key), FindRecord(View(db, other), key));
    }
  }

  lemma RecordInserted(records: Records, db: Workspaces, ws: string, w: Workspace, key: RecordKey, record: Record)
    requires RecordsMatch(records, db) && w.records == View(db, ws).records[key := record]
    ensures RecordsMatch(records[RecordId(ws, key) := record], db[ws := w])
  {
    var later := db[ws := w];
    var after := records[RecordId(ws, key) := record];
    forall other, k ensures RecordMatches(after, RecordId(other, k), FindRecord(View(later, other), k)) {
      assert RecordMatches(records, RecordId(other, k), FindRecord(View(db, other), k));
    }
  }

  lemma ConfirmationsKept(confirmations: Confirmations, db: Workspaces, ws: string, w: Workspace)
    requires ConfirmationsMatch(confirmations, db) && w.confirmations == View(db, ws).confirmations
    ensures ConfirmationsMatch(confirmations, db[ws := w])
  {
    var later := db[ws := w];
    forall other, id
      ensures ConfirmationMatches(confirmations, other, id, ConfirmationAt(View(later, other), id)) {
      assert ConfirmationMatches(confirmations, other, id, ConfirmationAt(View(db, other), id));
    }
  }

  lemma ConfirmationSet(confirmations: Confirmations, db: Workspaces, ws: string, w: Workspace,
                        id: string, c: Confirmation)
    requires ConfirmationsMatch(confirmations, db) && w.confirmations == View(db, ws).confirmations[id := c]
    requires id in confirmations ==> confirmations[id].ws == ws
    ensures ConfirmationsMatch(confirmations[id := ConfirmationRow(ws, c)], db[ws := w])
  {
    var later := db[ws := w];
    var after := confirmations[id := ConfirmationRow(ws, c)];
    forall other, i ensures ConfirmationMatches(after, other, i, ConfirmationAt(View(later, other), i)) {
      assert ConfirmationMatches(confirmations, other, i, ConfirmationAt(View(db, other), i));
    }
  }

  lemma StillSound(db: Workspaces, ws: string, w: Workspace)
    requires AllSound(db) && Sound(w)
    ensures AllSound(db[ws := w])
  {
    var later := db[ws := w];
    forall other ensures Sound(View(later, other)) {
      assert Sound(View(db, other));
    }
  }

  /** A primary key taken by another workspace is exactly a row under another workspace id. */
  lemma TakenElsewhereIsARow(states: States, records: Records, confirmations: Confirmations, db: Workspaces,
                             ws: string, id: string)
    requires Represents(states, records, confirmations, db)
    ensures TakenElsewhere(db, ws, id) <==> id in confirmations && confirmations[id].ws != ws
  {
    forall other | other in db && other != ws && id in db[other].confirmations
      ensures id in confirmations && confirmations[id].ws != ws {
      assert ConfirmationMatches(confirmations, other, id, ConfirmationAt(View(db, other), id));
    }
    if id in confirmations && confirmations[id].ws != ws {
      var other := confirmations[id].ws;
      assert ConfirmationMatches(confirmations, other, id, ConfirmationAt(View(db, other), id));
      assert other in db && id in db[other].confirmations;
    }
  }

  lemma Initial(states: States, records: Records, confirmations: Confirmations)
    requires states == map[] && records == map[] && confirmations == map[]
    ensures Represents(states, records, confirmations, map[])
  {
  }

  /** What a row's document reads back as. */
  lemma StoredStateReads(db: Workspaces, ws: string)
    requires AllSound(db) && View(db, ws).row.Some?
    ensures var state := View(db, ws).row.value.state;
            StateFromDocument(StateDocument(state)) == Some(state)
  {
    assert Sound(View(db, ws));
    StateRoundTrip(View(db, ws).row.value.state);
  }

  /** Writing back the workspace that is there changes nothing. */
  lemma SameWorkspace(states: States, records: Records, confirmations: Confirmations, db: Workspaces, ws: string)
    requires Represents(states, records, confirmations, db)
    ensures Represents(states, records, confirmations, db[ws := View(db, ws)])
  {
    StatesKept(states, db, ws, View(db, ws));
    assert Sound(View(db, ws));
    RowKept(records, confirmations, db, ws, View(db, ws));
  }

  /** A change to the state row alone. */
  lemma RowKept(records: Records, confirmations: Confirmations, db: Workspaces, ws: string, w: Workspace)
    requires RecordsMatch(records, db) && ConfirmationsMatch(confirmations, db) && AllSound(db)
    requires Sound(w) && w.records == View(db, ws).records && w.confirmations == View(db, ws).confirmations
    ensures RecordsMatch(records, db[ws := w]) && ConfirmationsMatch(confirmations, db[ws := w])
    ensures AllSound(db[ws := w])
  {
    RecordsKept(records, db, ws, w);
    ConfirmationsKept(confirmations, db, ws, w);
    StillSound(db, ws, w);
  }

  lemma AfterStateWrite(states: States, records: Records, confirmations: Confirmations, db: Workspaces,
                        ws: string, row: Row)
    requires Represents(states, records, confirmations, db) && row.state.Valid()
    ensures Represents(states[ws := StateRowOf(row)], records, confirmations,
                       db[ws := View(db, ws).(row := Some(row))])
  {
    var after := View(db, ws).(row := Some(row));
    assert Sound(View(db, ws));
    StateWritten(states, db, ws, after);
    RowKept(records, confirmations, db, ws, after);
  }

  /** The row that seeding inserts; the scenario columns take their defaults. */
  lemma AfterSeed(states: States, records: Records, confirmations: Confirmations, db: Workspaces,
                  ws: string, empty: StoreState)
    requires Represents(states, records, confirmations, db) && View(db, ws).row.None? && IsEmpty(empty)
    ensures Represents(states[ws := StateRow(empty.version, StateDocument(empty), PostFix, NoFault)],
                       records, confirmations, db[ws := Ensured(View(db, ws))])
    ensures Ensured(View(db, ws)).row == Some(Row(empty.version, empty, DEFAULT_SCENARIO))
  {
    OneEmptyState();
    EmptyIsValid(empty);
    AfterStateWrite(states, records, confirmations, db, ws, SeedRow(View(db, ws)));
  }

  /** The table after the guarded `UPDATE` of `write_state`. */
  function GuardedWrite(states: States, ws: string, version: int, stateJson: Json): States {
    if ws in states && states[ws].stateVersion < version then
      states[ws := states[ws].(stateVersion := version, stateJson := stateJson)]
    else states
  }

  lemma AfterGuardedWrite(states: States, records: Records, confirmations: Confirmations, db: Workspaces,
                          ws: string, state: StoreState)
    requires Represents(states, records, confirmations, db) && View(db, ws).row.Some? && state.Valid()
    ensures Represents(GuardedWrite(states, ws, state.version, StateDocument(state)), records, confirmations,
                       db[ws := WriteState(View(db, ws), state)])
  {
    var w := View(db, ws);
    var row := w.row.value.(version := state.version, state := state);
    assert StateMatches(states, ws, w.row);
    if w.row.value.version < state.version {
      assert StateRowOf(row) == states[ws].(stateVersion := state.version, stateJson := StateDocument(state));
      AfterStateWrite(states, records, confirmations, db, ws, row);
    } else {
      SameWorkspace(states, records, confirmations, db, ws);
    }
  }

  /** The guard of the status `UPDATE`. */
  predicate StatusIs(confirmations: Confirmations, ws: string, id: string, expected: Status) {
    id in confirmations && confirmations[id].ws == ws && confirmations[id].confirmation.status == expected
  }

  function MovedRow(row: ConfirmationRow, status: Status, now: Instant, consumedAt: Option<Instant>): ConfirmationRow {
    ConfirmationRow(row.ws, Moved(row.confirmation, status, now, consumedAt))
  }

  lemma AfterStatusUpdate(states: States, records: Records, confirmations: Confirmations, db: Workspaces, ws: string,
                          id: string, status: Status, expected: Status, now: Instant, consumedAt: Option<Instant>)
    requires Represents(states, records, confirmations, db)
    ensures var after := SetStatus(View(db, ws), id, status, expected, now, consumedAt);
            && (StatusIs(confirmations, ws, id, expected) <==> after.Some?)
            && (after.Some? ==>
                  Represents(states, records,
                             confirmations[id := MovedRow(confirmations[id], status, now, consumedAt)],
                             db[ws := after.value]))
  {
    var w := View(db, ws);
    assert Sound(w);
    assert ConfirmationMatches(confirmations, ws, id, ConfirmationAt(w, id));
    if StatusIs(confirmations, ws, id, expected) {
      AfterConfirmation(states, records, confirmations, db, ws, id,
                        Moved(w.confirmations[id], status, now, consumedAt));
    }
  }

  // -- reset ------------------------------------------------------------------

  function Reseeded(states: States, ws: string, empty: StoreState): States {
    if ws in states then states[ws := states[ws].(stateVersion := empty.version, stateJson := StateDocument(empty))]
    else states
  }

  function OtherRecords(records: Records, ws: string): Records {
    map id | id in records && id.ws != ws :: records[id]
  }

  function OtherConfirmations(confirmations: Confirmations, ws: string): Confirmations {
    map id | id in confirmations && confirmations[id].ws != ws :: confirmations[id]
  }

  lemma AfterReset(states: States, records: Records, confirmations: Confirmations, db: Workspaces,
                   ws: string, empty: StoreState)
    requires Represents(states, records, confirmations, db) && IsEmpty(empty)
    ensures Represents(Reseeded(states, ws, empty), OtherRecords(records, ws), OtherConfirmations(confirmations, ws),
                       db[ws := ResetWorkspace(View(db, ws))])
  {
    var w, after := View(db, ws), ResetWorkspace(View(db, ws));
    assert Sound(w);
    EmptyIsValid(empty);
    OneEmptyState();
    RowsDeleted(records, confirmations, db, ws, after);
    StillSound(db, ws, after);
    assert StateMatches(states, ws, w.row);
    if ws in states {
      OneEmptyState();
      assert SeedRow(w).state == empty;
      StateWritten(states, db, ws, after);
      assert Reseeded(states, ws, empty)[ws] == StateRowOf(after.row.value);
    } else {
      StatesKept(states, db, ws, after);
    }
  }

  lemma AfterRecord(states: States, records: Records, confirmations: Confirmations, db: Workspaces,
                    ws: string, key: RecordKey, record: Record)
    requires Represents(states, records, confirmations, db) && View(db, ws).row.Some?
    ensures var w := View(db, ws);
            Represents(states, records[RecordId(ws, key) := record], confirmations,
                       db[ws := w.(records := w.records[key := record])])
  {
    var w := View(db, ws);
    assert Sound(w);
    var after := w.(records := w.records[key := record]);
    StatesKept(states, db, ws, after);
    RecordInserted(records, db, ws, after, key, record);
    ConfirmationsKept(confirmations, db, ws, after);
    StillSound(db, ws, after);
  }

  lemma AfterConfirmation(states: States, records: Records, confirmations: Confirmations, db: Workspaces,
                          ws: string, id: string, c: Confirmation)
    requires Represents(states, records, confirmations, db) && View(db, ws).row.Some?
    requires id in confirmations ==> confirmations[id].ws == ws
    ensures var w := View(db, ws);
            Represents(states, records, confirmations[id := ConfirmationRow(ws, c)],
                       db[ws := w.(confirmations := w.confirmations[id := c])])
  {
    var w := View(db, ws);
    assert Sound(w);
    var after := w.(confirmations := w.confirmations[id := c]);
    StatesKept(states, db, ws, after);
    RecordsKept(records, db, ws, after);
    ConfirmationSet(confirmations, db, ws, after, id, c);
    StillSound(db, ws, after);
  }

  // -- whole-workspace statements ---------------------------------------------

  function SweptTable(confirmations: Confirmations, ws: string, now: Instant): Confirmations {
    map id | id in confirmations ::
      var row := confirmations[id];
      if row.ws == ws then ConfirmationRow(ws, Swept(row.confirmation, now)) else row
  }

  lemma ConfirmationsSwept(confirmations: Confirmations, db: Workspaces, ws: string, now: Instant)
    requires ConfirmationsMatch(confirmations, db)
    ensures ConfirmationsMatch(SweptTable(confirmations, ws, now), db[ws := Sweep(View(db, ws), now)])
  {
    var later, table := db[ws := Sweep(View(db, ws), now)], SweptTable(confirmations, ws, now);
    forall other, id ensures ConfirmationMatches(table, other, id, ConfirmationAt(View(later, other), id)) {
      assert ConfirmationMatches(confirmations, other, id, ConfirmationAt(View(db, other), id));
    }
  }

  lemma AfterSweep(states: States, records: Records, confirmations: Confirmations, db: Workspaces,
                   ws: string, now: Instant)
    requires Represents(states, records, confirmations, db)
    ensures Represents(states, records, SweptTable(confirmations, ws, now), db[ws := Sweep(View(db, ws), now)])
  {
    var after := Sweep(View(db, ws), now);
    assert Sound(View(db, ws));
    StatesKept(states, db, ws, after);
    RecordsKept(records, db, ws, after);
    ConfirmationsSwept(confirmations, db, ws, now);
    StillSound(db, ws, after);
  }

  /** The rows the sweep matches are the confirmations it moves. */
  lemma SweptRows(confirmations: Confirmations, db: Workspaces, ws: string, now: Instant)
    requires ConfirmationsMatch(confirmations, db)
    ensures var w := View(db, ws);
            (set id | id in confirmations && confirmations[id].ws == ws
                      && Swept(confirmations[id].confirmation, now) != confirmations[id].confirmation)
            == (set id | id in w.confirmations && Swept(w.confirmations[id], now) != w.confirmations[id])
  {
    var w := View(db, ws);
    var rows := set id | id in confirmations && confirmations[id].ws == ws
                         && Swept(confirmations[id].confirmation, now) != confirmations[id].confirmation;
    var moved := set id | id in w.confirmations && Swept(w.confirmations[id], now) != w.confirmations[id];
    forall id ensures id in rows <==> id in moved {
      assert ConfirmationMatches(confirmations, ws, id, ConfirmationAt(w, id));
    }
  }

  lemma RowsDeleted(records: Records, confirmations: Confirmations, db: Workspaces, ws: string, w: Workspace)
    requires RecordsMatch(records, db) && ConfirmationsMatch(confirmations, db)
    requires |w.records| == 0 && |w.confirmations| == 0
    ensures RecordsMatch(OtherRecords(records, ws), db[ws := w])
    ensures ConfirmationsMatch(OtherConfirmations(confirmations, ws), db[ws := w])
  {
    var later := db[ws := w];
    var fewer, less := OtherRecords(records, ws), OtherConfirmations(confirmations, ws);
    forall other, key ensures RecordMatches(fewer, RecordId(other, key), FindRecord(View(later, other), key)) {
      assert RecordMatches(records, RecordId(other, key), FindRecord(View(db, other), key));
    }
    forall other, id ensures ConfirmationMatches(less, other, id, ConfirmationAt(View(later, other), id)) {
      assert ConfirmationMatches(confirmations, other, id, ConfirmationAt(View(db, other), id));
    }
  }
}
