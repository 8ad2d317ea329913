# Verified model of the Buggy Store and of tool identity

This project models two parts of the repository and proves properties of them with Dafny 4.11. Check everything with
`dafny verify dfyconfig.toml`.

- **The Buggy Store** (`examples/buggy_store`): a versioned cart, discount, order and preferences per workspace,
  idempotency records, confirmations with a status machine, and four deliberate fault profiles, all kept in one SQL
  database; and the runner that migrates that database.
- **Tool identity** (`apps/actionwitness_service/frontend/src/webmcp/identity.ts`): RFC 8785 canonical JSON, schema
  canonicalisation, and the hashes that identify a tool definition.

## How it is built

| modules | what they hold |
|---|---|
| `Money`, `Catalog`, `Models`, `Documents`, `Instants` | amounts in cents, the seeded catalog, the validated records, the stored documents, timestamps and their text |
| `Store` | one function per operation, from a workspace to a workspace and an outcome; `Step` and `Run` over logs |
| `Reachable`, `Retries`, `Consent`, `Simulations` | what every step keeps, and the properties of whole logs |
| `Answers` | what each operation answers and stores, told from the columns alone |
| `ScenarioLock`, `SingleUse`, `Database` | interleavings: transactions under the keyed lock, single statements with no transaction, many workspaces |
| `Tables`, `Repository`, `Service` | the program's own form: classes over mutable tables of JSON rows, whose methods are proved to do what `Store` says |
| `Migrations` | the runner, interrupted and restarted anywhere |
| `Ordering`, `CodeUnits` | byte order, stable sorting, permutations; UTF-16 and UTF-8 |
| `CanonicalJson`, `CanonicalReader`, `CanonicalShortest`, `CanonicalUtf8` | the printer, a reader that inverts it, why its text is the shortest, and the bytes |
| `SchemaIdentity`, `SchemaAcceptance`, `SchemaEquivalence` | schema canonicalisation, which schemas it accepts, and what it identifies |
| `ToolIdentity`, `HashedText` | the composite hash, what it decides, and how it is spelled |

The lemmas about logs speak of the functions in `Store`; `Service.StoreService.HandleAll` carries them to the classes,
because its tables and replies equal those of the functions over any log.

## Assumptions

- A hash that the store computes (`request_hash`, `state_binding_hash`) carries the document it hashes. The content
  hashes of `identity.ts` need no such assumption: the digest is any function, and results name the collision that
  would break them.
- Minted ids and clock readings are inputs of each operation. Freshness of ids is a hypothesis where it is needed. Each
  clock reading is its own input, so the instant checked, the instant stamped and the consumption instant may differ.
- A `BEGIN IMMEDIATE` block is one atomic step, rolled back as a whole, except in `SingleUse`, where every statement of
  a checkout or a decision is its own step, and in `ScenarioLock` and `Migrations`, which put crashes between and inside
  blocks.
- Amounts are whole cents. Instants are whole microseconds, and the fixed-width calendar fields of a timestamp are the
  number of whole seconds they spell.
- A finite double other than -0 is known by its `Number::toString` numeral over digits, `+`, `-`, `.` and `e`.

## Where the code and its documentation differ

- The docstring of `StoreService` (service.py:127-132) says correctness never depends on the keyed lock. Scenario purity
  does: `ScenarioLock.UnlockedSelectionMixes` puts one update between the two transactions of a selection.
- The sweep compares stored texts, and `isoformat` omits the fraction of a whole second, so an expiry with a fraction
  sorts before its own whole second and is swept early: `Reachable.SweepTransparency` gives the exact condition. The
  docstring of `expire_pending_confirmations` calls it housekeeping that `effective_status` makes redundant; outside that
  condition it is. Nothing in the repository calls that method yet, so the finding is about its contract.
- `canonicalSchema` fills an object by assignment, so a member named `__proto__` is lost
  (`SchemaEquivalence.ProtoIsForgotten`). Sameness of schemas is stated without that name, and is then exact.
- The comment at identity.ts:150-157 says a `Date`, a `Map` or a class instance is refused. `isRecord` accepts every
  object that is no array, so that branch is never taken and such a value is encoded by its own enumerable members. The
  model has the one kind of object the code has.

## Model

| member | source | states |
|---|---|---|
| `Money.QuantizeIsNearest` | examples/buggy_store/src/buggy_store/money.py:52 | Quantizing to cents is exactly rounding to the nearest cent with half-way cases away from zero: both directions, any precision and sign |
| `Money.PercentageBounds` | examples/buggy_store/src/buggy_store/money.py:64-72 | For a share of 0 to 100 percent: within half a cent of the exact share, at most the amount, and both the share and what is left are monotone in the amount |
| `Money.AmountRoundTrip` | examples/buggy_store/src/buggy_store/money.py:29-61 | Reading a formatted amount gives the amount back, for amounts of any size and sign |
| `Money.FormatAmountInjective` | examples/buggy_store/src/buggy_store/money.py:55-61 | Two amounts never share a spelling |
| `Money.AmountIsSpelled` | examples/buggy_store/src/buggy_store/money.py:55-61 | The spelling itself: whole units without a leading zero, a point, exactly two digits, a sign when negative, and nothing else |
| `Money.AmountIsRead` | examples/buggy_store/src/buggy_store/money.py:44-52 | Any plain numeral, signed or not, is read as the nearest cents, half up, of the number it spells |
| `Money.AmountIsPlain` | examples/buggy_store/src/buggy_store/money.py:44-52 | And no other text is read as an amount |
| `Catalog.LookupsAgree` | examples/buggy_store/src/buggy_store/catalog.py:83-89 | The lookup by product id and the lookup by line key find the same product |
| `Catalog.CatalogIsSeeded` | examples/buggy_store/src/buggy_store/catalog.py:65-99 | The three product ids with their line keys and prices, and the one code with its percentage |
| `Models.HonestCartBounds` | examples/buggy_store/src/buggy_store/models.py:121-154 | An honest cart satisfies the validator, 0 <= total <= subtotal <= 275.00, and its discount is a fifth of the subtotal to within half a cent |
| `Models.ValidatorIsExact` | examples/buggy_store/src/buggy_store/models.py:121-154 | The validator accepts exactly the carts whose keys and product ids are seeded pairs, whose quantities are 1 to 5, and whose subtotal and total are the sum and the difference |
| `Models.HonestSubtotal` | examples/buggy_store/src/buggy_store/models.py:170-190 | What the lines of an honest cart cost, in the seeded prices |
| `Models.BuildCartIsHonest` | examples/buggy_store/src/buggy_store/models.py:170-190 | `build_cart` on catalog lines never trips the validator, keeps lines and code, and yields an honest cart |
| `Models.HonestCartIsBuilt` | examples/buggy_store/src/buggy_store/models.py:170-190 | Conversely every honest cart is what `build_cart` makes of its own lines and code |
| `Models.SubtotalOfUpdate` | examples/buggy_store/src/buggy_store/models.py:170-177 | Replacing or removing a line moves the subtotal by exactly that line |
| `Documents.CartRoundTrip` | examples/buggy_store/src/buggy_store/models.py:161-167 | Decoding a cart's document gives the cart back |
| `Documents.StateRoundTrip` | examples/buggy_store/src/buggy_store/repository.py:493-517 | Decoding the stored document of any constructible state gives that state back, validation included |
| `Documents.StateIsValidated` | examples/buggy_store/src/buggy_store/repository.py:493-517 | Whatever document decodes, the state it gives passes every validator |
| `Documents.UnknownMembersAreRefused` | examples/buggy_store/src/buggy_store/models.py:66 | A line, discount, order or preferences with any other member is refused |
| `Documents.IntegerAmounts` | examples/buggy_store/src/buggy_store/money.py:43-52 | An integer amount counts whole units |
| `Documents.TargetPaths` | examples/buggy_store/src/buggy_store/models.py:234-239 | Where in the stored document each part of the state is found |
| `Documents.LinePaths` | examples/buggy_store/src/buggy_store/models.py:85-105 | Likewise for a line and a discount |
| `Documents.TargetDocumentsDecide` | examples/buggy_store/src/buggy_store/service.py:314 | Comparing target documents, the no-op test, compares exactly the states |
| `Documents.CartDocumentsDecide` | examples/buggy_store/src/buggy_store/service.py:757-767 | The document whose hash binds a confirmation determines the cart |
| `Instants.TextOrderIsTimeOrder` | examples/buggy_store/src/buggy_store/repository.py:483-486 | Stored-text order of two instants is their time order if and only if they do not share a second with exactly one of them whole |
| `Instants.TextOrderFails` | examples/buggy_store/src/buggy_store/repository.py:483-486 | A concrete pair whose text order is the wrong way round |
| `Instants.IsoIsSpelled` | examples/buggy_store/src/buggy_store/repository.py:483-486 | The spelling within a second: a point and six digits, or nothing, and the zone |
| `Reachable.StepKeepsGood` | examples/buggy_store/src/buggy_store/service.py:189-672 | Every operation keeps the database invariant under every fault profile: honest carts, version column equal to the state's version, confirmation dates matching the status, well-formed records |
| `Reachable.RunKeepsGood` | examples/buggy_store/src/buggy_store/service.py:189-672 | The same over every log of operations |
| `Reachable.ReachableCart` | examples/buggy_store/src/buggy_store/service.py:293-318 | In every reachable state lines are seeded keys at catalog price with quantity 1 to 5, the subtotal is their sum, the discount is the half-up 20 percent of it, and the total is their difference and not negative |
| `Reachable.ReachableConfirmation` | examples/buggy_store/src/buggy_store/repository.py:378-435 | In every reachable state a confirmation has a decision date unless pending, and a consumption date exactly when consumed |
| `Reachable.CrashExactly` | examples/buggy_store/src/buggy_store/repository.py:248-282 | No reachable step fails on a constraint, an assertion or a validator, so the plain INSERT of a record never meets an existing key; the one exception, exactly, is inserting a confirmation under a taken id or without a workspace |
| `Reachable.RefusalChangesNothing` | examples/buggy_store/src/buggy_store/repository.py:108-127 | A refused or failed operation leaves the workspace as it was, at most seeded |
| `Reachable.LostRacesUnreachable` | examples/buggy_store/src/buggy_store/service.py:581-647 | With atomic transactions the "already decided" and "already been used" branches are never taken |
| `Reachable.ScenarioIsKept` | examples/buggy_store/src/buggy_store/repository.py:305-319 | Only a scenario write moves the stored scenario; a reset does not |
| `Reachable.UpdateLeavesRows` | examples/buggy_store/src/buggy_store/service.py:204-244 | `update_cart` touches no confirmation and no record of another tool |
| `Reachable.VersionsAreExact` | examples/buggy_store/src/buggy_store/models.py:260-262 | Between resets a step moves the version by 0 or 1, and by 1 exactly when the canonical document changed |
| `Reachable.ResponsesReportStoredVersion` | examples/buggy_store/src/buggy_store/repository.py:173-196 | The version a fresh response reports is the one stored: the guard never drops a service write |
| `Answers.CheckoutIsGranted` | examples/buggy_store/src/buggy_store/service.py:618-693 | A new checkout request mints an order if and only if its confirmation is stored as approved, is unexpired, and binds the stored cart |
| `Answers.CheckoutIsStored` | examples/buggy_store/src/buggy_store/service.py:634-672 | Everything a granted checkout stores and answers: order, consumed row with its approval date kept, record, version, stored cart |
| `Answers.CheckoutIsRefused` | examples/buggy_store/src/buggy_store/service.py:621-708 | Which refusal or replay a checkout meets, condition by condition, with nothing changed |
| `Answers.DecisionIsStored` | examples/buggy_store/src/buggy_store/service.py:534-597 | An approval stores approved, a denial denied, a cancellation cancelled: that row, dated by the decision, and no other |
| `Answers.DecisionIsRefused` | examples/buggy_store/src/buggy_store/service.py:581-596 | Any other decision is refused by the first thing that is wrong, and changes nothing |
| `Answers.RequestIsStored` | examples/buggy_store/src/buggy_store/service.py:509-531 | A request binds the stored cart and shows its version, total and line count, pending, for the seconds asked |
| `Answers.InsertIsStored` | examples/buggy_store/src/buggy_store/service.py:514-531 | A late insert binds and shows the state read before it |
| `Answers.ApprovedRequestMints` | examples/buggy_store/src/buggy_store/service.py:499-672 | Request, approve, check out, in time and over an unchanged cart: the order is minted |
| `Answers.SweepIsStored` | examples/buggy_store/src/buggy_store/repository.py:412-435 | Which rows the sweep expires, and the date it gives them |
| `Answers.UpdateIsStored` | examples/buggy_store/src/buggy_store/service.py:204-346 | What an update that applies stores, line by line, under every scenario, the retry and side-effect faults included; it answers the cart and version it stored |
| `Answers.UpdateIsRefused` | examples/buggy_store/src/buggy_store/service.py:199-219 | Any other update is refused by the first thing that is wrong, or replayed, and changes nothing |
| `Answers.DiscountIsStored` | examples/buggy_store/src/buggy_store/service.py:400-416 | Without its fault a discount is stored once, half-up 20 percent; a repeat says so; the answer shows the stored cart |
| `Answers.DiscountIsForgotten` | examples/buggy_store/src/buggy_store/service.py:374-398 | Under the fault the answer shows the discounted cart and nothing is stored |
| `Answers.ResponsesShowStoredCart` | examples/buggy_store/src/buggy_store/service.py:770-781 | Every fresh response but the faulty discount's shows the cart and version it leaves stored, and says already applied exactly for a repeated code |
| `Answers.RecordsShowStoredCarts` | examples/buggy_store/src/buggy_store/service.py:227-237 | Over every log: a record is the answer of one step since the last reset, and shows the cart that step left stored |
| `Answers.SeedIsStored` | examples/buggy_store/src/buggy_store/repository.py:131-158 | First contact seeds an empty state at version 1 under the honest scenario |
| `Answers.ResetIsStored` | examples/buggy_store/src/buggy_store/repository.py:439-472 | A reset seeds the state again, empties records and confirmations, and keeps the scenario |
| `Answers.SelectionIsStored` | examples/buggy_store/src/buggy_store/service.py:456-461 | A selection leaves a seeded workspace under the scenario selected |
| `Answers.WriteIsGuarded` | examples/buggy_store/src/buggy_store/repository.py:173-196 | A state is written only over a smaller version, and keeps the scenario |
| `Answers.RecordIsInsertedOnce` | examples/buggy_store/src/buggy_store/repository.py:248-282 | A record is inserted only under a key that is not there |
| `Reachable.TerminalIsFinal` | examples/buggy_store/src/buggy_store/confirmations.py:51-59 | A terminal status and its dates are left only by a reset |
| `Reachable.TerminalIsFinalOverRuns` | examples/buggy_store/src/buggy_store/confirmations.py:51-59 | The same over every log without a reset |
| `Reachable.SweepTransparency` | examples/buggy_store/src/buggy_store/repository.py:412-435 | The expiry sweep is invisible to `effective_status` at every later instant if and only if the row is not pending, unexpired and of mixed precision with the sweep |
| `Reachable.SweepIsVisible` | examples/buggy_store/src/buggy_store/repository.py:412-435 | The failing family is reached: a 10 s request made at 1.5 s can be approved at 11 s, but not after a sweep at 11 s |
| `Retries.RecordsAreKeptOverRuns` | examples/buggy_store/src/buggy_store/repository.py:248-282 | Without a reset, no log ever alters or loses a record |
| `Retries.RepeatChangesNothing` | examples/buggy_store/src/buggy_store/repository.py:225-246 | A repeated key changes nothing; another payload is refused, the same payload replays or fails validation |
| `Retries.FreshSuccessIsRecorded` | examples/buggy_store/src/buggy_store/service.py:227-237 | A first success records the response it returned, under its key and payload |
| `Retries.ValidRepeatReplays` | examples/buggy_store/src/buggy_store/service.py:216-219 | A valid identical repeat returns the recorded response |
| `Retries.RepeatsReturnFirstResponse` | examples/buggy_store/src/buggy_store/service.py:206-244 | Across any log between them without a reset: the same call again gets the first response, a changed payload is refused, and neither changes the database |
| `Retries.RetryErasure` | examples/buggy_store/src/buggy_store/service.py:206-244 | Any log ends in the same database as the log with every repeat of a recorded key deleted |
| `Retries.DuplicatedRetry` | examples/buggy_store/src/buggy_store/service.py:246-306 | Under `duplicate_on_retry` a retry adds its quantity up to the bound, answers an ordinary success and leaves the records alone |
| `Retries.DuplicatedRetries` | examples/buggy_store/src/buggy_store/service.py:246-306 | After k identical retries, with any operations on other lines between them, the line holds the smaller of 5 and (k+1) times the quantity, and the record is still the first result |
| `Retries.FirstRetryObservable` | examples/buggy_store/src/buggy_store/service.py:279-284 | The first retry is visible in the cart if and only if the quantity is 1 to 4 |
| `Retries.SilentWithoutRepeats` | examples/buggy_store/src/buggy_store/service.py:206-244 | A log with no repeated key runs under the fault exactly as in the corrected store, outcome for outcome |
| `Consent.RequestBindsShownCart` | examples/buggy_store/src/buggy_store/service.py:513-531 | A request binds the cart it read, shows its total and line count, starts pending under a new id, and expires after the 10 to 300 seconds asked |
| `Consent.MintingSpends` | examples/buggy_store/src/buggy_store/service.py:618-672 | A fresh order spends one approved, unexpired confirmation of the very cart it orders, adds one record, and touches no other row |
| `Consent.RowHistory` | examples/buggy_store/src/buggy_store/service.py:499-597 | Every stored confirmation was requested in the log since the last reset, and approved in it if it is approved or consumed |
| `Consent.ConsentBehindEveryOrder` | examples/buggy_store/src/buggy_store/service.py:674-693 | Behind every order of every interleaving stand, since the last reset and in this sequence, a request and an approval of one confirmation; decision and spend fall before its expiry, the cart spent equals the cart bound at the request, and the total and line count shown to the human are that cart's |
| `Consent.OrderedCartWasHeld` | examples/buggy_store/src/buggy_store/service.py:757-767 | Even when the read and the insert of a request are separate steps, the cart ordered is one the store held before |
| `Consent.LedgerBalances` | examples/buggy_store/src/buggy_store/service.py:618-672 | In every reachable state consumed confirmations, checkout records and minted orders correspond one to one, and the order shown is the latest minted |
| `Consent.LedgerCounts` | examples/buggy_store/src/buggy_store/service.py:634-671 | The three counts are equal, and an order is shown exactly when the count is positive |
| `Consent.OrdersAreDistinct` | examples/buggy_store/src/buggy_store/service.py:649-652 | With fresh order ids different ledger entries are different orders |
| `Simulations.UndeclaredSideEffectSimulation` | examples/buggy_store/src/buggy_store/service.py:320-346 | The same requests under `pre_fix` and `post_fix`, in any interleaving, give equal carts, orders, records, confirmations and outcomes up to versions; only the note differs, set exactly once an update has run, and the version gap is 0 or 1. The read and the insert of a request may be apart, each store then binding what it held at the read |
| `Simulations.FirstUpdateDecidesGap` | examples/buggy_store/src/buggy_store/service.py:308-318 | The first update opens the gap exactly when it moved no line |
| `Simulations.GapIsConstant` | examples/buggy_store/src/buggy_store/service.py:308-318 | After that first update the gap stays what it is until a reset |
| `Simulations.DiscountFaultSimulation` | examples/buggy_store/src/buggy_store/service.py:363-416 | Over any run of the two cart operations: the faulty store holds no discount, has the honest lines and subtotal, answers each `apply_discount` with exactly the honest cart and an unmoved state; totals differ by the honest discount, and the honest version is ahead by 1 exactly when a discount is active |
| `Simulations.FreshSelectionsAreTwins` | examples/buggy_store/src/buggy_store/service.py:437-461 | From any reachable workspace, `select_scenario` under the two modes starts both simulations: every hypothesis they make holds, empty notes and equal versions included |
| `Simulations.SideEffectFromSelection` | examples/buggy_store/src/buggy_store/service.py:246-346 | End to end: any workspace, the two modes selected, the same requests; the relation holds at the end and every outcome along the way is the same up to versions |
| `Simulations.DiscountFaultFromSelection` | examples/buggy_store/src/buggy_store/service.py:350-416 | Likewise for the discount fault, with what each step claims against what the honest store then holds |
| `ScenarioLock.LockedStoreIsPure` | examples/buggy_store/src/buggy_store/service.py:456-461 | With the lock across both transactions of a selection, and crashes anywhere, everything in the workspace was produced under the scenario stored |
| `ScenarioLock.LockedSelectionSelects` | examples/buggy_store/src/buggy_store/service.py:456-461 | A selection that is not cut short ends with the lock free and its scenario over a fresh seed |
| `ScenarioLock.LockedOperationRuns` | examples/buggy_store/src/buggy_store/service.py:204-206 | Any other request runs its one transaction under the lock |
| `ScenarioLock.PureThroughoutExactly` | examples/buggy_store/src/buggy_store/service.py:437-461 | Without assuming the lock: purity holds at every point if and only if no scenario write meets a workspace that holds anything (a changed state, a record or a confirmation) under a different stored scenario |
| `ScenarioLock.TrackAccounts` | examples/buggy_store/src/buggy_store/repository.py:439-472 | Every step keeps: a workspace holds something exactly when a transaction since the last reset changed it |
| `ScenarioLock.UnlockedSelectionMixes` | examples/buggy_store/src/buggy_store/service.py:125-132 | Any fresh update between the two transactions breaks purity, so this does depend on the lock |
| `SingleUse.ScheduleKeepsSpentOnce` | examples/buggy_store/src/buggy_store/service.py:618-672 | With every statement of a checkout or decision its own step, and other operations writing between them, every schedule keeps: a row is consumed exactly when it was won once, and each order stored or owed is paid for by its own win |
| `SingleUse.AtMostOneWins` | examples/buggy_store/src/buggy_store/repository.py:388-394 | From a fresh start at most one compare-and-set to consumed succeeds per confirmation, and pays for at most one order |
| `SingleUse.SecondSpenderIsTurned` | examples/buggy_store/src/buggy_store/service.py:642-647 | Of two checkouts that both read the approval, the first to write wins and the other is turned away |
| `SingleUse.SpentWithoutAnOrder` | examples/buggy_store/src/buggy_store/service.py:606-610 | What one transaction is for: a checkout that has won stores its order if and only if no other write moved the version past the one it read; otherwise the approval is spent without an order |
| `SingleUse.CheckoutAlone` | examples/buggy_store/src/buggy_store/service.py:618-672 | Undisturbed, the six statements of a checkout do what its transaction does, and end as it answers |
| `SingleUse.DecisionAlone` | examples/buggy_store/src/buggy_store/service.py:573-597 | Likewise the three statements of a decision |
| `Database.Isolation` | examples/buggy_store/src/buggy_store/repository.py:131-472 | With fresh ids, over any run on many workspaces, the rows and replies of one are those of the run restricted to its own operations |
| `Repository.StoreRepository.ReadState` | examples/buggy_store/src/buggy_store/repository.py:160-171 | Decodes the stored document to the state the workspace holds |
| `Repository.StoreRepository.EnsureWorkspace` | examples/buggy_store/src/buggy_store/repository.py:131-158 | Seeds an untouched workspace and leaves any other |
| `Repository.StoreRepository.WriteState` | examples/buggy_store/src/buggy_store/repository.py:173-196 | For any validated state and any workspace id: the guarded update of the model, and no change where there is no row |
| `Repository.StoreRepository.ReplayOrClaim` | examples/buggy_store/src/buggy_store/repository.py:225-246 | Proceed, replay or conflict, decided by the record of this workspace alone |
| `Repository.StoreRepository.RecordResult` | examples/buggy_store/src/buggy_store/repository.py:248-282 | For any record: inserted, or refused by the primary or the foreign key with nothing changed |
| `Repository.StoreRepository.ReadScenario` | examples/buggy_store/src/buggy_store/repository.py:286-303 | The scenario columns of the workspace's row |
| `Repository.StoreRepository.WriteScenario` | examples/buggy_store/src/buggy_store/repository.py:305-319 | Writes the scenario columns of one existing row |
| `Repository.StoreRepository.InsertConfirmation` | examples/buggy_store/src/buggy_store/repository.py:323-343 | Inserts exactly when the workspace exists and the id is taken in no workspace |
| `Repository.StoreRepository.FindConfirmation` | examples/buggy_store/src/buggy_store/repository.py:345-376 | Finds a confirmation only under its own workspace |
| `Repository.StoreRepository.SetConfirmationStatus` | examples/buggy_store/src/buggy_store/repository.py:378-410 | The compare-and-set: moves the one row that has the expected status, or nothing |
| `Repository.StoreRepository.ExpirePendingConfirmations` | examples/buggy_store/src/buggy_store/repository.py:412-435 | Sweeps the workspace's pending rows by text comparison and returns how many it matched |
| `Repository.StoreRepository.ResetWorkspace` | examples/buggy_store/src/buggy_store/repository.py:439-472 | Empties records and confirmations of one workspace, reseeds its state and keeps its scenario |
| `Repository.StoreRepository.Rollback` | examples/buggy_store/src/buggy_store/repository.py:122-126 | Restores every workspace as the transaction found it |
| `Service.AssignQuantity` | examples/buggy_store/src/buggy_store/service.py:246-318 | Editing the lines in a copy computes the assignment of the model, unchanged state included, and keeps the state honest |
| `Service.RequireAuthorization` | examples/buggy_store/src/buggy_store/service.py:674-693 | Grants exactly an approved, unexpired confirmation of this cart, and says which of the three is wrong otherwise; the carts are compared by their documents |
| `Service.StoreService.UpdateCart` | examples/buggy_store/src/buggy_store/service.py:189-244 | Statement by statement, leaves every workspace and replies as the step function says |
| `Service.StoreService.ApplyDiscount` | examples/buggy_store/src/buggy_store/service.py:350-416 | Likewise |
| `Service.StoreService.SelectScenario` | examples/buggy_store/src/buggy_store/service.py:437-495 | Tells an unknown mode, an unknown profile and the one unshipped profile apart, changing nothing; otherwise seeds, resets and writes the scenario, in this workspace only |
| `Service.SelectionIsByName` | examples/buggy_store/src/buggy_store/service.py:463-495 | The names a selection accepts, and what each of them selects or refuses |
| `Service.StoreService.RequestConfirmation` | examples/buggy_store/src/buggy_store/service.py:499-532 | Likewise for a request, with the collision of ids across workspaces |
| `Service.StoreService.Insert` | examples/buggy_store/src/buggy_store/service.py:514-531 | Likewise for its insert alone, binding the state read before, which may since have moved |
| `Service.StoreService.Transition` | examples/buggy_store/src/buggy_store/service.py:565-597 | Likewise for decisions and cancellations |
| `Service.StoreService.Checkout` | examples/buggy_store/src/buggy_store/service.py:601-672 | Likewise for checkout, every refusal rolled back |
| `Service.StoreService.HandleAll` | examples/buggy_store/src/buggy_store/service.py:189-672 | Over a whole log from any number of workspaces, requests split into read and insert included, the tables and all replies are those of the step functions |
| `Migrations.RestartResumes` | examples/buggy_store/src/buggy_store/migrations.py:152-160 | Restarting from any version of the plan leaves exactly the rest of the plan, and meets the same gap |
| `Migrations.PlanIsContiguous` | examples/buggy_store/src/buggy_store/migrations.py:156-160 | The migrations a run applies carry consecutive versions |
| `Migrations.PlanIsFromList` | examples/buggy_store/src/buggy_store/migrations.py:153-172 | What a run applies comes from the list, each the first one beyond the version reached |
| `Migrations.GapIsBeyond` | examples/buggy_store/src/buggy_store/migrations.py:156-160 | A run meets a gap if and only if the list names a version beyond the one it can reach |
| `Migrations.ContiguousListIsApplied` | examples/buggy_store/src/buggy_store/migrations.py:43-129 | A list numbered consecutively from the current version, as the shipped one is, is applied whole |
| `Migrations.AttemptsKeepIntact` | examples/buggy_store/src/buggy_store/migrations.py:148-150 | Whatever an attempt leaves, the recorded version names a schema equal to that prefix of the plan, once each and in sequence; an attempt that ends leaves the whole plan |
| `Migrations.Connection.ApplyOne` | examples/buggy_store/src/buggy_store/migrations.py:161-171 | One migration and its new version are stored together or not at all, `BEGIN IMMEDIATE` and the commit counted among the calls that may fail |
| `Migrations.Connection.ApplyMigrations` | examples/buggy_store/src/buggy_store/migrations.py:143-173 | The loop, cut short after any number of calls: how far it got and what it left; it is interrupted exactly when too few calls succeed |
| `Migrations.Connection.Recover` | examples/buggy_store/src/buggy_store/migrations.py:143-173 | After any number of interrupted attempts, a completed run leaves the schema of one clean run, or stops at the same gap |
| `CodeUnits.HasLoneSurrogate` | apps/actionwitness_service/frontend/src/webmcp/identity.ts:207-222 | The scan finds a lone surrogate exactly when the string is not the UTF-16 spelling of scalar values |
| `CodeUnits.ScalarsDecide` | apps/actionwitness_service/frontend/src/webmcp/identity.ts:198-205 | A decoding exists exactly for the strings that spell scalar values |
| `CodeUnits.ScalarsOfUnits` | apps/actionwitness_service/frontend/src/webmcp/identity.ts:207-222 | Decoding what scalar values spell gives them back |
| `CodeUnits.PairOf` | apps/actionwitness_service/frontend/src/webmcp/identity.ts:207-222 | The surrogate pair of a scalar value, by its arithmetic |
| `CodeUnits.BytesOrderScalars` | apps/actionwitness_service/frontend/src/webmcp/identity.ts:316-324 | UTF-8 byte order is scalar-value order |
| `CodeUnits.CodeUnitOrderDiffers` | apps/actionwitness_service/frontend/src/webmcp/identity.ts:319-323 | Every astral character sorts before every high one of the basic plane by code unit, and behind it by bytes |
| `CodeUnits.Utf8IsInjective` | apps/actionwitness_service/frontend/src/webmcp/identity.ts:113-115 | Different well-formed strings have different bytes |
| `CodeUnits.Utf8ReadsBack` | apps/actionwitness_service/frontend/src/webmcp/identity.ts:113-115 | A UTF-8 reader gets back from the bytes of a string the scalar values it spells (RFC 3629 section 3) |
| `Ordering.CompareBytes` | apps/actionwitness_service/frontend/src/webmcp/identity.ts:329-338 | The sign of the result is the lexicographic sequence order, and zero means equal |
| `Ordering.LessIsTotal` | apps/actionwitness_service/frontend/src/webmcp/identity.ts:329-338 | That order is total: of two different sequences exactly one comes first |
| `Ordering.LessIsTransitive` | apps/actionwitness_service/frontend/src/webmcp/identity.ts:329-338 | That order is transitive |
| `Ordering.SortBySorts` | apps/actionwitness_service/frontend/src/webmcp/identity.ts:304-308 | Sorting orders, and keeps every element as often as it occurs |
| `Ordering.SortByIsCanonical` | apps/actionwitness_service/frontend/src/webmcp/identity.ts:302-308 | With a key that tells elements apart, two arrays sort to one if and only if they are permutations |
| `CanonicalJson.EncodeIsExact` | apps/actionwitness_service/frontend/src/webmcp/identity.ts:117-169 | `encode` accepts exactly the printable values that fit the depth bound, and prints their normal form |
| `CanonicalJson.TextExists` | apps/actionwitness_service/frontend/src/webmcp/identity.ts:117-169 | There is a text if and only if everything in the value has a JSON form and it nests at most 100 levels |
| `CanonicalJson.DoublesHaveNumerals` | apps/actionwitness_service/frontend/src/webmcp/identity.ts:171-187 | Every spelling `Number::toString` gives a finite double is a numeral of the model |
| `CanonicalJson.MemberOrderIsIrrelevant` | apps/actionwitness_service/frontend/src/webmcp/identity.ts:162-168 | Member order affects neither the text nor acceptance |
| `CanonicalReader.TextReadsBack` | apps/actionwitness_service/frontend/src/webmcp/identity.ts:103-205 | A reader gets every accepted value back from its text, up to member order and -0 (RFC 8785 sections 3.2.2.2, 3.2.2.3 and 3.2.3) |
| `CanonicalReader.BodyReads` | apps/actionwitness_service/frontend/src/webmcp/identity.ts:198-205 | String escaping is inverted for every string, whatever follows it |
| `CanonicalShortest.EscapeIsMinimal` | apps/actionwitness_service/frontend/src/webmcp/identity.ts:189-205 | Of all spellings of one code unit its escape is the shortest, and the only one so short (RFC 8785 section 3.2.2.2) |
| `CanonicalShortest.EscapeIsPlain` | apps/actionwitness_service/frontend/src/webmcp/identity.ts:189-205 | A unit that may stand raw does; hexadecimal is for control characters, in lower case |
| `CanonicalShortest.EscapedIsShortest` | apps/actionwitness_service/frontend/src/webmcp/identity.ts:198-205 | The same for whole strings |
| `CanonicalShortest.CanonicalTextIsShortest` | apps/actionwitness_service/frontend/src/webmcp/identity.ts:103-169 | And for whole values: of all texts that read as the normal form, the canonical one is the shortest, and the only one of its length |
| `CanonicalReader.KeysAscend` | apps/actionwitness_service/frontend/src/webmcp/identity.ts:159-163 | In what the text reads as, keys increase strictly by code unit in every object |
| `CanonicalReader.NormDecidesSame` | apps/actionwitness_service/frontend/src/webmcp/identity.ts:162-168 | Normal forms are equal if and only if the values are the same up to member order and -0 |
| `CanonicalReader.TextDecidesSame` | apps/actionwitness_service/frontend/src/webmcp/identity.ts:103-169 | Two accepted values have one text if and only if they are the same up to member order and -0 |
| `CanonicalUtf8.PrintIsWellFormed` | apps/actionwitness_service/frontend/src/webmcp/identity.ts:113-115 | Canonical text always has a UTF-8 encoding |
| `CanonicalUtf8.KeyIsCanonicalBytes` | apps/actionwitness_service/frontend/src/webmcp/identity.ts:325-327 | The total key the sorts are stated with is the canonical bytes, wherever there are any |
| `CanonicalUtf8.BytesDecideSame` | apps/actionwitness_service/frontend/src/webmcp/identity.ts:113-115 | The same equivalence for canonical bytes |
| `SchemaIdentity.RefWalker.Walk` | apps/actionwitness_service/frontend/src/webmcp/identity.ts:351-375 | The walk gathers exactly the pointers standing under a `$ref` anywhere in the value |
| `SchemaIdentity.RefWalker.HasRefCycle` | apps/actionwitness_service/frontend/src/webmcp/identity.ts:347-382 | Reports a cycle exactly when one of those pointers names the document root |
| `SchemaIdentity.CanonicalizeSchemaValue` | apps/actionwitness_service/frontend/src/webmcp/identity.ts:272-314 | The loop that fills a fresh object computes the canonical form, refusals included |
| `SchemaAcceptance.KeywordsAreNamed` | apps/actionwitness_service/frontend/src/webmcp/identity.ts:89-96 | The keywords whose arrays are sets, the pointers that name the root, and the name that is lost, character by character |
| `SchemaAcceptance.CyclicIsRootRef` | apps/actionwitness_service/frontend/src/webmcp/identity.ts:347-382 | The walk over pointers reports exactly a `$ref` to the root somewhere beneath |
| `SchemaAcceptance.SchemaExists` | apps/actionwitness_service/frontend/src/webmcp/identity.ts:268-314 | A schema is canonicalised if and only if it has no such `$ref`, no schema in it stands deeper than 32 levels, and no sort meets a member without canonical text |
| `SchemaEquivalence.CanonicalDecides` | apps/actionwitness_service/frontend/src/webmcp/identity.ts:272-338 | At any depths, the canonical forms of two schemas have one normal form if and only if the schemas are the same |
| `SchemaEquivalence.SchemaTextDecides` | apps/actionwitness_service/frontend/src/webmcp/identity.ts:268-338 | Two accepted schemas have one canonical text if and only if they are equal up to member order, -0, and a permutation of the arrays under `required` and `enum` (members as they stand) or `anyOf`, `oneOf` and `allOf` (members as schemas) |
| `SchemaEquivalence.SortIsByCanonicalBytes` | apps/actionwitness_service/frontend/src/webmcp/identity.ts:301-327 | The sort refuses exactly when it compares a member without canonical bytes; otherwise it rearranges the members so that no bytes stand in front of smaller ones |
| `SchemaEquivalence.SortedArraysDecide` | apps/actionwitness_service/frontend/src/webmcp/identity.ts:301-308 | Arrays sorted by canonical bytes have one normal form if and only if a permutation matches their members |
| `SchemaEquivalence.CanonicalIsFixed` | apps/actionwitness_service/frontend/src/webmcp/identity.ts:268-314 | Idempotence: a canonical form is its own canonical form, in the same order, and is accepted again |
| `SchemaEquivalence.CanonicalIsSameSchema` | apps/actionwitness_service/frontend/src/webmcp/identity.ts:268-314 | A canonical form is the same schema as the one it was made from |
| `SchemaEquivalence.ProtoIsForgotten` | apps/actionwitness_service/frontend/src/webmcp/identity.ts:298-313 | A member named `__proto__` is lost by the assignment, so two objects that differ have one canonical form |
| `ToolIdentity.HashDecides` | apps/actionwitness_service/frontend/src/webmcp/identity.ts:238-251 | Two accepted values have one content hash if and only if they are the same or the digest collides on them |
| `ToolIdentity.IdentityExists` | apps/actionwitness_service/frontend/src/webmcp/identity.ts:411-426 | There is an identity if and only if name and description have no lone surrogate and the schema has a canonical text: the hashed documents the code builds itself are never refused |
| `ToolIdentity.PartsDecide` | apps/actionwitness_service/frontend/src/webmcp/identity.ts:386-418 | Each of the four sub-hashes moves exactly when its part of the definition does, short of a collision on that part |
| `ToolIdentity.IdentityDecides` | apps/actionwitness_service/frontend/src/webmcp/identity.ts:411-426 | The composite is equal if and only if every part is the same or collides, or the digest collides on the two documents of sub-hashes; so it is equal for the same tool, and for another only through a named collision |
| `HashedText.HashIsSpelled` | apps/actionwitness_service/frontend/src/webmcp/identity.ts:238-251 | A content hash is `sha256:` and the lower-case hexadecimal, high digit first, that reads as the digest of the canonical text's bytes |
| `HashedText.HintsAreSpelled` | apps/actionwitness_service/frontend/src/webmcp/identity.ts:414-417 | The text of the hints document, member by member |
| `HashedText.IdentityIsSpelled` | apps/actionwitness_service/frontend/src/webmcp/identity.ts:419-424 | The text of the composite's document, its four names in ascending sequence |
| `HashedText.IdentityIsHashed` | apps/actionwitness_service/frontend/src/webmcp/identity.ts:411-426 | Each of the five hashes from the tool alone, character by character |

## Left out

- The HTTP routes, request models and error envelopes of the store, `search_catalog`, `read_confirmation`, and reads that
  only project a row.
- `release_idle_locks`: an asyncio lock can read as unlocked while a woken waiter has not resumed, so the sweep of the
  lock map stays out of the purity model.
- Type checks on arguments (`bool` or `float` where an `int` is asked): arguments have their types.
- Decimal's context precision, exponent and underscore spellings, and the spelling `-0.00`: an amount is an integer
  number of cents and a parsed numeral is plain digits with an optional sign and point.
- The `state` field of `MutationOutcome`, and the JSON encoding of responses, payloads and consequences: these are
  values, and only the canonical state is stored as a document.
- Member order inside stored documents: a document object is a map, as comparison after `sort_keys=True` makes it.
- `updated_at` and `created_at` of state rows and records: no operation reads them.
- SQLite itself: busy timeouts, WAL, and a failing commit. A transaction that does not commit has not happened.
- Cyclic JavaScript graphs, shared subobjects (the `seen` set of `hasRefCycle`), holes and `undefined` members in arrays,
  getters and proxies: values are trees of own data members. Which error message a refusal carries, and its location.
- `Array.prototype.sort` and `JSON.stringify` are modelled by their standard meaning: a stable sort, and minimal escaping.
- SHA-256 itself, the absence of `SubtleCrypto`, and `observedToolIdentityHash`, which reads the browser's registry.
- The browser bridge, the React interface, the API clients, and the run, evaluation and guidance engines of the service.
- Repository.StoreRepository.WriteState: takes a state that passes its validators, as every `StoreState` of the program does.
- Service.StoreService.HandleAll: takes an insert whose state was read from a reachable workspace.
- Simulations.UndeclaredSideEffectSimulation: compares logs that select no other scenario on the way, since the two runs
  differ by their selection.
- SingleUse.ScheduleKeepsSpentOnce: a single statement is atomic, and the other operations are seen through their writes
  of state, their inserts of confirmations and the sweep.
