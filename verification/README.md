# Order lifecycle, migration and billing models

This project models the parts of the client portal whose correctness rests on more than one function
body, and proves what those parts promise. `dafny verify dfyconfig.toml` checks all of it.

- **SQL that means what a resolver means.** `Sql` is a small expression language with NULL, three-valued
  logic, `CASE`, `EXISTS` and ordered scalar subqueries over tables of orders and shipments. The texts of
  the order CASE, the bucket, the tab predicates, the customer status (`OrderLifecycle`), the shipment
  status and the latest-tracked-shipment projection (`ShipmentStatus`) are expressions of it, and each is
  proved equal to the resolver, or to a meaning stated over rows, for every table and every row.
- **Protocols.** `WirePeer` is the PostgreSQL peer: a streaming decoder over a byte buffer with
  outstanding queries, reply timers and transaction state, as a class proved against a step function;
  `WireCommands` says what it makes of a query text and what it answers, and `WireRuns` runs a client
  against it over a network that cuts the bytes as it likes.
  `HealthPool` is the probe pool whose wedged connections persist until the pool is replaced.
  `GuardedMigration` is the locked schema migration with any number of runners and other writers.
- **Data migration.** `TablePages` and `TableCopy` are the paged table copy with `TRUNCATE ... CASCADE`;
  `InsertBatches` is the batched insert-if-absent copy with its generated placeholders.
- **Billing.** `Calendar` and `CalendarDays` justify comparing dates as strings; `WindowMoney` and
  `BillingKeys` clamp, key, group and assign; `BatchChunks`, `BatchUrl`, `BatchJson`,
  `TotalsBatch` and `InvoiceTotals` cut and write the requests, read the replies and compare with the route
  that asks period by period; `BillingSummary` joins them from the rows to the footer; `Sorting`, `NumericCollation` and `EventOrder` are the line-item order and its pages.
- **Smaller engines.** `Csv` and `AuditCsv` (reader, export, formula escape), `LineEnds` and
  `MutationHarness` (mutate, judge, restore), `RenamePropagation` (two conditional updates and a count).

Code that changes state step by step is a class or a loop proved against a function on values; the lemmas
are about that function. Timers are steps, hashes are equality of contents, the network is a parameter
that may answer anything.

## Where the code and its promise part

Each of these is a lemma below. Where a promise fails, the condition under which it holds is given as
an if-and-only-if, except where this list says that a condition is sufficient.

- `TABLE_ORDER` is commented "parents first" but lists `return_labels` before `shipments`, which it
  references (`src/db/schema/return-labels.ts:19-21`), and before `orders`, whose cascade reaches
  `return_labels` through `shipments`. A full run carries everything exactly when there are no return
  labels to copy, or neither orders nor shipments (`ShippedRunCarriesAllIff`); otherwise its count check
  fails or it aborts (`ShippedOrderNeverVerifies`). For any order, any foreign keys and any selection of
  tables `CarriesAllIff` says when everything arrives, and moving that one entry repairs the order
  (`MovedOrderIsTopological`, `MigrationCarriesEverything`).
- A page query orders by the first column only. It reads each row once, whatever the source does with
  ties, exactly when no page boundary falls inside a tie of different rows (`PagingSoundIff`).
- A shipment joined by `order_id` follows that order even when it belongs to another client. Its status
  depends on nothing but its own client's orders exactly when it is voided, or not linked, or linked to
  an order of its own client (`IsolatedIff`); `ForeignJoinDecides` gives the two databases.
- The frame decoder slices with a length it does not check: with a negative one the result depends on the
  chunks (`NegativeLengthDependsOnChunks`). That no length is negative is sufficient for independence, not
  necessary: a frame of unknown type ends the peer before its length could matter.
- `Date.UTC` moves the years 0 to 99 to 1900 to 1999, so `isCalendarDay` accepts exactly the real days
  from the year 100 on (`CalendarDayIff`), and `addUtcDays` writes the year unpadded, so the day after is
  right exactly from 0999-12-31 up to 9999-12-30 (`NextDayIff`).
- The line-item comparison orders two numbers as numbers and any other pair as text. The cells of a column
  are consistently ordered exactly when no text separates two numbers the wrong way round
  (`ColumnHasOrderIff`), the rows exactly when no row with a text does, ids counted (`RowsHaveOrderIff`),
  and rows with distinct ids have an ordered arrangement at all exactly then (`EventsHaveOrderIff`). With
  the quantities "-5", "-3" and "-4x" there is none (`MixedQuantitiesHaveNoOrder`).
- The batched totals call refuses client ids above 2147483647, which the keying admits
  (`KeyedPeriodsAreAdmittedIff`).
- One call of the batched table copy reads 5000 rows without an order: it copies a larger table only in
  part (`OneCallSufficesIff`). With 100 rows and more than 655 shared columns some statement exceeds the
  bind limit (`FitsBindLimitIff`).
- The formula escape is not injective: a dangerous cell and the same cell with its apostrophe export alike
  (`EscapedAlikeIff`).
- The first mutation harness lets `replace` expand `$` patterns and refuses a replacement that changes
  nothing; the second takes the replacement literally and writes it, and on a file with mixed line ends
  that file then differs from the original although the mutation is empty (`NoOpLeavesFileIff`).
- If the second rename update fails, the first one's changes stay but the reported count is 0
  (`Overrides.Propagate`).

## Model

| member | source | states |
|---|---|---|
| Sql.BestShipmentIsNewestHit | src/lib/client-portal/read-models/orders.ts:88-89 | `order by id desc limit 1`: a row is returned exactly when some row meets the condition, and then the matching one with the largest id |
| Sql.BestOrderIsFirstHit | src/lib/client-portal/shipment-status.ts:71-72 | an ordered subquery returns a matching order that no matching order precedes by rank, then by larger id |
| OrderLifecycle.EffectiveSqlIsResolver | src/lib/client-portal/order-lifecycle.ts:47-100 | for every row, nulls included, the CASE through the table and through an alias is never NULL and equals the TypeScript twin |
| OrderLifecycle.BucketSqlIsResolver | src/lib/client-portal/order-lifecycle.ts:119-141 | the bucket CASE equals the bucket resolver for both forms |
| OrderLifecycle.BucketMeans | src/lib/client-portal/order-lifecycle.ts:92-141 | a row is cancelled if either status spells so in any case of letters, else shipped if the order status spells so or the external flag is true, else pending |
| OrderLifecycle.TabsPartitionOrders | src/lib/client-portal/order-lifecycle.ts:156-168 | each tab predicate is true or false, never NULL, and true exactly on the rows with that badge: every order is in exactly one tab |
| OrderLifecycle.EvalMatch | src/lib/client-portal/order-lifecycle.ts:245-254 | the shipment match is true exactly for outbound rows linked by id, or unlinked with the order's number and client; NULL on either side never matches |
| OrderLifecycle.SignalsMeanShipments | src/lib/client-portal/order-lifecycle.ts:257-272 | the two EXISTS signals are never NULL and say whether a matching unvoided, or voided, shipment is in the table |
| OrderLifecycle.VoidedExactlyWhen | src/lib/client-portal/order-lifecycle.ts:199-205 | the precedence as one condition: voided exactly for a locally shipped order, not cancelled nor in a confirmation state, with a voided and no active shipment and no true external flag; cancelled and pending exactly by the bucket |
| OrderLifecycle.DisplayStates | src/lib/client-portal/order-lifecycle.ts:199-205 | each of the four label states by a condition of its own, in the precedence of the comment above it |
| OrderLifecycle.StatusSqlIsResolver | src/lib/client-portal/order-status.ts:75-130 | the customer status in SQL equals the resolver fed with what the tables hold |
| OrderLifecycle.VoidedMeans | src/lib/client-portal/order-status.ts:75-130 | the status SQL says voided exactly when the order spells shipped, no cancellation or confirmation state stands, all its outbound shipments are voided and there is one, and the external flag is not true |
| OrderLifecycle.BareFlagAgreesIff | src/lib/client-portal/order-status.ts:113-118 | without the coalesce the SQL agrees exactly when no voided order lacks the JSON key |
| ShipmentStatus.FallbackPickIsFirst | src/lib/client-portal/shipment-status.ts:67-73 | the fallback takes a same-client, same-number order, a shipped one if there is any, then the newest |
| ShipmentStatus.ShipmentStatusReads | src/lib/client-portal/shipment-status.ts:63-83 | for all tables the status is one of five words and the one its meaning over rows prescribes; by number it says shipped exactly when some same-client, same-number order is shipped |
| ShipmentStatus.ReadsIsFunctional | src/lib/client-portal/shipment-status.ts:56-61 | with unique order ids that meaning admits one word only, so the status does not depend on how rows are stored |
| ShipmentStatus.OtherClientsDoNotMatter | src/lib/client-portal/shipment-status.ts:66-71 | two databases with the same orders of the shipment's client give the same status when the join stays within the client |
| ShipmentStatus.ForeignJoinDecides | src/lib/client-portal/shipment-status.ts:65-81 | for an unvoided shipment linked to an id that no order of its client has: two databases with the same own orders in which it reads unavailable and label_created |
| ShipmentStatus.IsolatedIff | src/lib/client-portal/shipment-status.ts:63-83 | the status is the same in all databases with the same orders of the shipment's client if and only if it is voided, not linked, or linked to an order of its own client |
| ShipmentStatus.LatestTrackedIsNewest | src/lib/client-portal/read-models/orders.ts:85-89 | the lookup finds the newest matching unvoided shipment with a tracking number, or none when there is none |
| ShipmentStatus.FusedIsPair | src/lib/client-portal/read-models/orders.ts:79-90 | for any two projected expressions and any condition, one fused lookup is the pair of the two scalar lookups |
| ShipmentStatus.FusedProjectionIsOldPair | scripts/client-portal-shipment-projection-test.ts:18-28 | the fused identity and the two old subqueries give the same tracking number and carrier; NULL stands for both NULL, exactly when no tracked shipment exists |
| ShipmentStatus.IdentityShows | src/lib/client-portal/read-models/orders.ts:79-90 | the identity shows of the latest tracked shipment the label's number, or the shipment's own where the label has none, without outer blanks; the same for the carrier, with NULL when both are blank |
| ShipmentStatus.OnlyTrackedRowsMatter | src/lib/client-portal/read-models/orders.ts:84-89 | adding or removing voided, return, untracked or unmatched rows does not change the identity |
| WirePeer.ChunkingDoesNotMatter | scripts/database-pipeline-behavior.ts:51-61 | any split of a well-formed stream into data events leaves the peer in the same state, remainder and writes included, as the whole stream at once |
| WirePeer.NegativeLengthDependsOnChunks | scripts/database-pipeline-behavior.ts:54-56 | a concrete stream with a negative length ends differently when it arrives in two chunks |
| WirePeer.DecoderInvertsEncoder | scripts/database-pipeline-behavior.ts:51-85 | the decoder dispatches exactly the encoded messages, in order, and keeps an incomplete tail in the buffer |
| WirePeer.PoisonedIffOverlapped | scripts/database-pipeline-behavior.ts:34-38 | in every run of chunks, timers and closes the socket is poisoned exactly when two queries were once outstanding |
| WirePeer.PoisonIsForever | scripts/database-pipeline-behavior.ts:43-48 | a poisoned socket stays poisoned and writes nothing more, whatever happens |
| WirePeer.ClosedIsSilent | scripts/database-pipeline-behavior.ts:43-48 | after Terminate or a close nothing more is written, owed or not |
| WirePeer.TimerMeans | scripts/database-pipeline-behavior.ts:43-48 | a timer that fires writes its reply and counts its query as no longer outstanding, unless the socket is poisoned or destroyed |
| WirePeer.WaitingClientMay | scripts/database-pipeline-behavior.ts:34-50 | what waiting for each answer means: Parse, any of Describe, Bind and Execute, and Sync, or one Query, and then the answer before the next |
| WirePeer.WaitingClientIsServed | scripts/database-pipeline-behavior.ts:34-50 | at message grain: a client that waits for each answer is never poisoned, has at most one query outstanding, and gets one answer per query, in order, with the right replies and status byte |
| WireRuns.WaitingClientIsServedOverWire | scripts/database-pipeline-behavior.ts:27-85 | the same from the startup packet on and over bytes: for every cutting into data events and every timing of the replies the client has received the greeting and just the answers to its first queries, in order, none unasked, and when all bytes have arrived the awaited answer is armed |
| WirePeer.TransactionMeans | scripts/database-pipeline-behavior.ts:39-42 | the status is T exactly when some BEGIN has no COMMIT or ROLLBACK after it |
| WireCommands.EveryTextIsText | scripts/database-pipeline-behavior.ts:65 | every query text is white space, a first word and what follows it |
| WireCommands.ParseNamesCommand | scripts/database-pipeline-behavior.ts:63-66 | the command of a Parse message is SELECT, BEGIN, COMMIT or ROLLBACK exactly when the first word of its text, behind the statement name, spells it in any case; any other command is that word in capitals |
| WireCommands.ParseWithoutText | scripts/database-pipeline-behavior.ts:65 | a Parse message without the NUL behind the statement name is read from its own type byte: its command is the word P |
| WireCommands.QueryNamesCommand | scripts/database-pipeline-behavior.ts:75-78 | the same for a simple Query message |
| WireCommands.ExtendedQueryIsAnswered | scripts/database-pipeline-behavior.ts:62-74 | the bytes of Parse, Describe, Bind, Execute, Sync arm one answer: for a SELECT parse, parameter and row description, bind, one data row and its tag; for any other command no data and the tag; and T or I by the command |
| WireCommands.SimpleQueryIsAnswered | scripts/database-pipeline-behavior.ts:75-80 | the bytes of a simple query arm one answer with the tag alone |
| WireCommands.OtherMessages | scripts/database-pipeline-behavior.ts:81-83 | Terminate ends the socket and changes nothing else; a message of any other type ends the peer |
| WirePeer.Socket.constructor | scripts/database-pipeline-behavior.ts:31-33 | a new socket is in the fresh state |
| WirePeer.Socket.StartQuery | scripts/database-pipeline-behavior.ts:34-38 | counts the query, keeps this socket's maximum, poisons on overlap |
| WirePeer.Socket.FinishQuery | scripts/database-pipeline-behavior.ts:39-50 | settles the transaction state, queues the collected replies on a timer |
| WirePeer.Socket.Write | scripts/database-pipeline-behavior.ts:59 | appends to what the client receives unless the socket has ended |
| WirePeer.Socket.Receive | scripts/database-pipeline-behavior.ts:62-83 | handles one frame by its type, an unexpected type kills the peer |
| WirePeer.Socket.Data | scripts/database-pipeline-behavior.ts:51-85 | the loop over the buffer ends and reaches the state the step function gives, with the early return for partial frames |
| WirePeer.Socket.Fire | scripts/database-pipeline-behavior.ts:43-48 | a timer writes its response unless the socket is poisoned or destroyed |
| HealthPool.RoundRotates | scripts/health-wedged-pool-runtime.ts:11-17 | a round of ordered probes rotates the line of connections, idle ones first and busy ones reused first in, first out |
| HealthPool.RoundOutcome | scripts/health-wedged-pool-runtime.ts:11-23 | on a rested n-slot pool with w wedged slots probe i succeeds exactly when i < n - w and it does not stall itself |
| HealthPool.RoundRests | scripts/health-wedged-pool-runtime.ts:11-23 | after the round the pool rests again with one healthy slot less for each stall that hit one |
| HealthPool.RetentionNeverHeals | scripts/health-wedged-pool-runtime.ts:11-23 | without eviction, after any number of stall-free rounds the same w slots are wedged and the same last probes fail |
| HealthPool.EvictionHeals | src/routes/health.ts:164-228 | with the reset a probe fails only if it stalls in this very round, and all connections silenced so far are closed when the round returns |
| HealthPool.EveryHistoryHeals | src/routes/health.ts:216-222 | after any history of rounds the connections closed are as many as the stalls of that history, and the next stall-free round is green |
| HealthPool.Readiness.TakeConnection | scripts/health-wedged-pool-runtime.ts:11-17 | the next query gets an idle connection, else a new one, else the longest busy one |
| HealthPool.Readiness.RunProbe | scripts/health-wedged-pool-runtime.ts:25-28 | one probe: its connection becomes busy, and silent if the backend stalls on it |
| HealthPool.Readiness.RunProbes | scripts/health-wedged-pool-runtime.ts:25-28 | the loop over the probes reaches the pool and the outcomes of the whole round |
| HealthPool.Readiness.CheckDeepReadiness | src/routes/health.ts:164-228 | one readiness call: outcomes, new pool, and a reset exactly after a timed-out probe |
| HealthPool.Readiness.ResetHealthPool | src/routes/health.ts:36-43 | the new pool is unconnected and every silent connection of the old one is closed |
| TablePages.PrefixesAgree | scripts/migrate-supabase.ts:133-135 | two sortings hold the same rows before a place that splits no tie |
| TablePages.SplitTieLosesRow | scripts/migrate-supabase.ts:133-135 | a boundary inside a tie of different rows: some legal source reads one row twice and another never |
| TablePages.PagingSoundIff | scripts/migrate-supabase.ts:130-139 | the page loop reads every row exactly once for every legal source if and only if no page boundary splits a tie |
| TableCopy.ClosureIsLeast | scripts/migrate-supabase.ts:128 | CASCADE empties the least set of tables closed under references to it |
| TableCopy.InsertIff | scripts/migrate-supabase.ts:137 | an INSERT is refused exactly when some new row has a value in a referencing column that no parent row, stored or new, has as its key; it stores all its rows or none |
| TableCopy.PagesStored | scripts/migrate-supabase.ts:130-144 | the page loop stores the first n rows and stops: at all of them, or at a whole number of pages where the next page is refused |
| TableCopy.CopyTableEffect | scripts/migrate-supabase.ts:125-145 | a copy that succeeds loads its table, empties what the cascade reaches, and leaves every other table as it was |
| TableCopy.RunKeepsIntegrity | scripts/migrate-supabase.ts:203-207 | for any order and wherever the run stops, no dangling reference |
| TableCopy.SurvivesIff | scripts/migrate-supabase.ts:125-143 | after a completed run a table holds its rows exactly when no later loaded table's cascade reaches it, else nothing |
| TableCopy.UnloadedTables | scripts/migrate-supabase.ts:97-118 | a table with nothing to load is left alone or emptied by a cascade |
| TableCopy.LoadedIff | scripts/migrate-supabase.ts:97-123 | a table is copied exactly when this is no dry run, --only allows it, it is on both sides, has a row and has a shared column |
| TableCopy.DryRunChangesNothing | scripts/migrate-supabase.ts:120-123 | a dry run loads nothing, and a run that loads nothing changes nothing |
| TableCopy.UntouchedTables | scripts/migrate-supabase.ts:128-145 | a table that is neither copied nor in the cascade of one that is stays as it was |
| TableCopy.CascadeSparesEarlier | scripts/migrate-supabase.ts:33-35 | in a topological order no cascade reaches an earlier table |
| TableCopy.TopologicalRunCopiesAll | scripts/migrate-supabase.ts:200-207 | in a topological order every insert succeeds and every loaded table ends with its rows |
| TableCopy.CarriesAllIff | scripts/migrate-supabase.ts:92-145 | for every order, every foreign-key graph without self-references and every selection of named tables with consistent rows: the run completes with every load in place if and only if no cascade reaches a table copied before, nor one that is not copied but referred to |
| TableCopy.ChildBeforeParentIsLost | scripts/migrate-supabase.ts:128 | in a completed run a table copied before one it references ends empty |
| TableCopy.ReturnLabelsNeverSurvive | scripts/migrate-supabase.ts:35-64 | with the shipped order and orders or shipments among the tables, a completed run leaves return_labels empty |
| TableCopy.ShippedOrderCarriesAllIff | scripts/migrate-supabase.ts:35-64 | with the shipped order everything selected arrives exactly when return labels are not copied along with orders or shipments and no table referred to is erased |
| TableCopy.MovedOrderIsTopological | scripts/migrate-supabase.ts:35-64 | with return_labels moved behind shipments the order is topological for all declared references |
| TableCopy.LoadIsProjection | scripts/migrate-supabase.ts:106-139 | what is loaded for a table is its source rows projected to the shared columns, each once |
| TableCopy.LoadIsSelfContained | scripts/migrate-supabase.ts:106-139 | references that resolve in the source resolve among the loaded rows |
| TableCopy.MigrationCarriesEverything | scripts/migrate-supabase.ts:190-207 | from source integrity and a topological order: the run completes, integrity holds, and every copyable table equals its source projection |
| TableCopy.ShippedRunCarriesAllIff | scripts/migrate-supabase.ts:190-207 | from a consistent source a full run in the shipped order carries everything if and only if there are no return labels to copy, or neither orders nor shipments |
| TableCopy.CountsAfterMigration | scripts/migrate-supabase.ts:172-188 | after such a run the count check passes exactly when the tables with nothing to copy have equal counts |
| TableCopy.ShippedOrderNeverVerifies | scripts/migrate-supabase.ts:172-214 | otherwise the run aborts or its count check fails |
| TableCopy.Target.ReadyToCopy | scripts/migrate-supabase.ts:97-123 | a table is copied exactly when it exists on both sides, shares a column, has rows and the run is not dry |
| TableCopy.Target.InsertBatch | scripts/migrate-supabase.ts:137 | one INSERT: it succeeds exactly when every reference of the new rows would resolve, appends all of them or nothing, touches no other table, and keeps referential integrity |
| TableCopy.Target.CopyPages | scripts/migrate-supabase.ts:130-144 | the offset loop stores the pages in turn and counts all rows |
| TableCopy.Target.CopyTable | scripts/migrate-supabase.ts:92-145 | skips change nothing; otherwise truncate with cascade, then the pages |
| TableCopy.Target.CopyTables | scripts/migrate-supabase.ts:203-207 | the table loop, with the --only filter, is the run the lemmas are about |
| TableCopy.Target.VerifyCounts | scripts/migrate-supabase.ts:172-188 | true exactly when the counts agree for every table present on both sides |
| InsertBatches.ArgumentCount | api/migrate-from.ts:163-168 | m rows of n columns push m times n arguments |
| InsertBatches.StatementCarriesBatch | api/migrate-from.ts:158-173 | the generated placeholders and pushed arguments together propose exactly the batch's rows, or are refused exactly above the bind limit |
| InsertBatches.CountIsGrowth | api/migrate-from.ts:169-174 | the reported count is the number of rows the destination grew by |
| InsertBatches.NothingIsAltered | api/migrate-from.ts:169-173 | after any history of partial copies, in any row order, old rows are unaltered and only source rows were added |
| InsertBatches.EveryHistoryConverges | api/migrate-from.ts:155-175 | any history of aborted copies ended by a complete one leaves the same destination as one clean copy |
| InsertBatches.FurtherCopyAddsNothing | api/migrate-from.ts:169-174 | after a complete copy a further one, in any row order, changes nothing and counts 0 |
| InsertBatches.OneCallSufficesIff | api/migrate-from.ts:137-141 | one call copies a table of new rows for certain exactly when it has at most 5000 rows |
| InsertBatches.CapacityIff | api/migrate-from.ts:153-168 | how many rows of n columns one statement can carry |
| InsertBatches.FitsBindLimitIff | api/migrate-from.ts:153-168 | for 100 rows or more every batch fits the bind limit exactly when there are at most 655 columns |
| InsertBatches.Destination.PushArguments | api/migrate-from.ts:163-168 | the two loops push row by row, column by column |
| InsertBatches.Destination.Execute | api/migrate-from.ts:169-174 | one statement stores absent rows and counts them, or fails and stores nothing |
| InsertBatches.Destination.SendBatch | api/migrate-from.ts:156-174 | succeeds exactly without a fault and within capacity, inserting the batch's absent rows |
| InsertBatches.Destination.CopyBatches | api/migrate-from.ts:152-175 | batches of 100 partition the rows; a failure leaves the batches before it stored, success counts the rows added |
| InsertBatches.Destination.CopyTable | api/migrate-from.ts:129-194 | one table: the reported result, the destination, and the next id above every id after a completed serial copy |
| InsertBatches.Destination.BumpSequence | api/migrate-from.ts:177-188 | the next generated id exceeds every id in the table |
| GuardedMigration.StepKeepsSafe | scripts/apply-cp-057-return-label-voided-migration.ts:203-222 | every step of any runner or other session keeps: one lock holder, an unchanged table under the lock, and rows as the other sessions last left them |
| GuardedMigration.InitialIsSafe | scripts/apply-cp-057-return-label-voided-migration.ts:153-154 | what every step keeps holds before any runner has begun |
| GuardedMigration.EveryRunIsSafe | scripts/apply-cp-057-return-label-voided-migration.ts:203-222 | so does every interleaving of any length |
| GuardedMigration.CommitMigrates | scripts/apply-cp-057-return-label-voided-migration.ts:218-221 | a commit takes an unmigrated table with all prerequisites to a migrated one with the same rows and prerequisites, by a runner with every flag that named the database it inspected |
| GuardedMigration.CommitsAtMostOnce | scripts/apply-cp-057-return-label-voided-migration.ts:198-217 | in every interleaving there is at most one commit per unmigrated state: once, plus once for each time another session undoes it |
| GuardedMigration.OneCommitAtMost | scripts/apply-cp-057-return-label-voided-migration.ts:198-217 | from the start, with writers who do not undo it, the migration commits once at most, and never where it is in place |
| GuardedMigration.OnlyCommitsChange | scripts/apply-cp-057-return-label-voided-migration.ts:204-222 | a runner's step changes the committed table only by a commit after all checks, and never its rows |
| GuardedMigration.UnauthorisedRunnersChangeNothing | scripts/apply-cp-057-return-label-voided-migration.ts:181-197 | if every runner lacks --apply, the confirmation, the matching host or a --database that is a name of this database at some time of the run, the table goes through the states the other sessions give it, as without runners |
| GuardedMigration.TransactionEnds | scripts/apply-cp-057-return-label-voided-migration.ts:204-222 | the locked transaction by cases: any failed check restores the table, an applied one is left alone, else the effect is kept |
| GuardedMigration.SoloRunAppliesIff | scripts/apply-cp-057-return-label-voided-migration.ts:153-222 | one runner with others writing before its lock applies exactly when every check passes, and leaves just the migration's effect |
| GuardedMigration.SoloRunEnds | scripts/apply-cp-057-return-label-voided-migration.ts:153-222 | each outcome of a run by its exact condition on tables and flags (dry run, refused, already applied, applied, failed), and the table it leaves |
| GuardedMigration.Session.Apply | scripts/apply-cp-057-return-label-voided-migration.ts:153-222 | the procedure ends in the state and with the outcome of the protocol run |
| GuardedMigration.Session.Transact | scripts/apply-cp-057-return-label-voided-migration.ts:204-222 | so does its transaction, with rollback |
| Calendar.YearsAsFormula | src/lib/client-portal/billing-summary-canonical-keys.ts:60-66 | counting days year by year is the Gregorian formula with its 4, 100 and 400 year rules |
| Calendar.BeforeIffFewerDays | src/lib/client-portal/billing-summary-canonical-keys.ts:55-58 | on real dates the order by year, month and day is the order of day numbers, and the numbering is injective |
| Calendar.DateUtcMeans | src/lib/client-portal/billing-summary-canonical-keys.ts:63 | Date.UTC counts days from the first of the month, carries months over years in both directions, and moves two-digit years to the twentieth century |
| Calendar.DateUtcAgreesIff | src/lib/client-portal/billing-summary-canonical-keys.ts:60-66 | reading back what Date.UTC made gives the same fields exactly for real dates from the year 100 on |
| CalendarDays.CalendarDayIff | src/lib/client-portal/billing-summary-canonical-keys.ts:59-66 | isCalendarDay accepts exactly the well-shaped real days from the year 100 on |
| CalendarDays.LessIsBefore | src/lib/client-portal/billing-summary-canonical-keys.ts:55-56 | on well-shaped strings the string comparison is the comparison of dates |
| CalendarDays.LessIsNumber | src/lib/client-portal/billing-summary-canonical-keys.ts:67-68 | on accepted days the string comparison is the comparison of day numbers |
| CalendarDays.TextOfParse | src/lib/client-portal/billing-day.ts:14-17 | writing a parsed day gives the string back |
| CalendarDays.NextDayIff | src/lib/client-portal/billing-day.ts:19-24 | adding one day gives the text of the next real day, across months and leap years, exactly from 0999-12-31 to 9999-12-30 |
| CalendarDays.BillingDayOfIff | src/lib/client-portal/billing-day.ts:14-17 | a text is read as a day exactly when it begins with one, whatever follows |
| CalendarDays.HalfOpenIsClosed | src/lib/client-portal/billing-day.ts:31-45 | a day lies in the half-open UTC range exactly when it is not before the day the first text begins with nor after the one the second begins with |
| WindowMoney.ConservedIff | src/lib/client-portal/billing-summary-canonical-keys.ts:13-18 | money summed over a client's windows equals the range's money for every charge per day exactly when the windows cover each day once |
| BillingKeys.WindowIsIntersection | src/lib/client-portal/billing-summary-canonical-keys.ts:110-112 | the clamped window holds exactly the days both labelled and selected, and it is not empty |
| BillingKeys.KeyedIff | src/lib/client-portal/billing-summary-canonical-keys.ts:93-112 | a row is keyed exactly when it is well formed and its label meets the range |
| BillingKeys.KeyAllIff | src/lib/client-portal/billing-summary-canonical-keys.ts:93-126 | the list is keyed exactly when every row is and no client gets one window twice |
| BillingKeys.VisibleRowIsWindow | src/lib/client-portal/billing-summary-canonical-keys.ts:122-125 | the visible row of a grouped row is labelled with exactly the days of its window; its client and payload are those of the row, and an ungrouped row is unchanged |
| BillingKeys.RowReasons | src/lib/client-portal/billing-summary-canonical-keys.ts:93-112 | what each breach of a single row says about the row |
| BillingKeys.FirstBreach | src/lib/client-portal/billing-summary-canonical-keys.ts:93-126 | a list is refused for the reason of its first bad row, or as a duplicate of an earlier client and window |
| BillingKeys.BillingRowsAreKeyedIff | src/lib/client-portal/billing-summary-canonical-keys.ts:78-135 | the call succeeds exactly for a range of real days, well-formed rows that meet it and no client twice on a window; an unreal range is the first thing reported |
| BillingKeys.IdentitiesAreDistinct | src/lib/client-portal/billing-summary-canonical-keys.ts:115-120 | no two keyed rows share client and window |
| BillingKeys.ClampConservesMoneyIff | src/lib/client-portal/billing-summary-canonical-keys.ts:13-18 | whatever the charges, the rows add up to the selected range exactly when the client's labels tile it |
| BillingKeys.GroupIsByWindow | src/lib/client-portal/billing-summary-canonical-keys.ts:128-133 | one period per distinct window, with its own dates and exactly the clients keyed to it, in row order |
| BillingKeys.KeyEachRow | src/lib/client-portal/billing-summary-canonical-keys.ts:93-126 | the loop with its set of seen identities is the keying the lemmas are about |
| BillingKeys.GroupPeriods | src/lib/client-portal/billing-summary-canonical-keys.ts:128-133 | the loop over the map of periods is the grouping |
| BillingKeys.KeyBillingSummaryRows | src/lib/client-portal/billing-summary-canonical-keys.ts:78-135 | the whole call, invalid range first |
| BillingKeys.AssignCanonicalTotals | src/lib/client-portal/billing-summary-canonical-keys.ts:141-152 | succeeds exactly when every row finds its own window's totals for its client, and pairs each row with those |
| BillingKeys.FooterIsRangeMoney | src/lib/client-portal/billing-summary-canonical-keys.ts:141-152 | from raw rows to the footer: tiling labels and an honest upstream give the client's charges over exactly the selected range |
| BatchChunks.ChunksCarryEveryPair | src/lib/client-portal/prepship-invoice-totals-batch-proxy.ts:33-55 | the requests together carry every pair exactly once and in order, each with at most 8 periods, 200 clients a period and 7500 characters |
| BatchChunks.ChunksAreFilled | src/lib/client-portal/prepship-invoice-totals-batch-proxy.ts:43-52 | a new request is begun only when the one before would exceed 8 periods, 200 clients in a period or 7500 characters with the next pair |
| BatchChunks.OneRequestIff | src/lib/client-portal/prepship-invoice-totals-batch-proxy.ts:41-55 | there is exactly one request if and only if no pair overfills the request of those before it |
| BatchChunks.CutIff | src/lib/client-portal/prepship-invoice-totals-batch-proxy.ts:47-51 | for URLs that grow with the request, cutting succeeds exactly when every single pair fits into a request of its own |
| BatchChunks.RefusedIff | src/lib/client-portal/prepship-invoice-totals-batch-proxy.ts:38-50 | the input is refused exactly for an invalid period, one without clients, a repeated client, a client id outside 1 to 2147483647, or a pair whose request alone exceeds 7500 characters |
| BatchChunks.CutPeriod | src/lib/client-portal/prepship-invoice-totals-batch-proxy.ts:41-53 | the inner loop adds one period's pairs, stopping at the first bad id or oversized pair |
| BatchChunks.CutAll | src/lib/client-portal/prepship-invoice-totals-batch-proxy.ts:37-54 | the outer loop admits and adds every period or refuses the input |
| BatchChunks.CutRequests | src/lib/client-portal/prepship-invoice-totals-batch-proxy.ts:33-55 | the requests of an admitted input, the last one flushed |
| BatchUrl.UrlsGrow | src/lib/client-portal/prepship-invoice-totals-batch-proxy.ts:32 | the length of the JSON, percent-encoded into the query, never shrinks when a pair is added |
| BatchUrl.DecodedIsText | src/lib/client-portal/prepship-invoice-totals-batch-proxy.ts:32 | percent-decoding the parameter gives the text back |
| BatchUrl.EncodedIsSafe | src/lib/client-portal/prepship-invoice-totals-batch-proxy.ts:32 | the parameter holds letters, digits and six marks only |
| BatchUrl.RequestsAreCutIff | src/lib/client-portal/prepship-invoice-totals-batch-proxy.ts:32-51 | so with the URLs the code builds, cutting succeeds exactly when every single pair fits |
| BatchJson.RequestIsRead | src/lib/client-portal/prepship-invoice-totals-batch-proxy.ts:32 | a reader of the URL parameter finds the periods of the request, with their days and just their clients, in order |
| TotalsBatch.ReadLinesIff | src/lib/client-portal/prepship-invoice-totals-batch-proxy.ts:78-93 | any lines whatever are read exactly when each is readable, asked for and not repeated, and then give just their totals |
| TotalsBatch.ReplyIff | src/lib/client-portal/prepship-invoice-totals-batch-proxy.ts:65-100 | any reply whatever, contradicting itself or not, is accepted exactly when it is complete for its request, in any order of entries and lines, and adds totals for exactly the pairs asked |
| TotalsBatch.ReplyFailures | src/lib/client-portal/prepship-invoice-totals-batch-proxy.ts:58-66 | 401 and 403 are passed on, any other refusal or no answer is 502, and an answer that is not complete is a mismatch |
| TotalsBatch.ReplyIsTruthful | src/lib/client-portal/prepship-invoice-totals-batch-proxy.ts:77-99 | what an accepted reply adds is what it says |
| TotalsBatch.AnswerIsUnique | src/lib/client-portal/prepship-invoice-totals-batch-proxy.ts:94-99 | there is one merged map per set of pairs and upstream truth |
| TotalsBatch.CutsAreSeparate | src/lib/client-portal/prepship-invoice-totals-batch-proxy.ts:37-55 | distinct pairs cut into bounded requests never meet again in the merge |
| TotalsBatch.RunInTurn | src/lib/client-portal/prepship-invoice-totals-batch-proxy.ts:57-102 | one call at a time: the first failure is the result and no later call is made |
| TotalsBatch.PeriodIsReadIff | src/lib/client-portal/prepship-invoice-totals-proxy.ts:88-159 | one period's answer is read exactly when its lines are readable, asked for and not repeated; the failures are those of the batch |
| TotalsBatch.RouteIff | src/lib/client-portal/prepship-invoice-totals-proxy.ts:117-159 | for all answers: the period-by-period route succeeds exactly when every one is readable |
| TotalsBatch.FetchIff | src/lib/client-portal/prepship-invoice-totals-batch-proxy.ts:57-102 | for all replies: the batch gives a result exactly when every reply is complete, and then totals for exactly the pairs asked |
| TotalsBatch.GatheredTotalsAreTruthful | src/lib/client-portal/prepship-invoice-totals-batch-proxy.ts:57-102 | and these are the totals the service meant |
| TotalsBatch.FetchAll | src/lib/client-portal/prepship-invoice-totals-batch-proxy.ts:57-102 | the loop computes that and says how many calls were made |
| TotalsBatch.FetchBatch | src/lib/client-portal/prepship-invoice-totals-batch-proxy.ts:23-103 | nothing to ask, nothing configured, input refused, or the fetch: result and number of calls in each case |
| TotalsBatch.RouteAnswers | src/lib/client-portal/prepship-invoice-totals-proxy.ts:117-159 | complete answers period by period give the totals of exactly the pairs asked |
| TotalsBatch.RunInPairs | src/routes/client-portal/invoices.ts:169-182 | two in flight: the result is that of running one by one, and on failure just the pair in flight is finished |
| TotalsBatch.PairsAreFinished | src/routes/client-portal/invoices.ts:169-182 | with two calls in flight the calls made are whole pairs, as few as reach the failing one |
| TotalsBatch.FetchInPairs | src/routes/client-portal/invoices.ts:157-182 | so it is for the period calls of the route |
| TotalsBatch.BatchedRouteEqualsRoute | src/lib/client-portal/prepship-invoice-totals-batch-proxy.ts:17-22 | with the same upstream truth the batched fetch returns the same totals as the per-period route, whatever the reply order |
| InvoiceTotals.IsDayIff | src/lib/client-portal/prepship-invoice-totals-batch-proxy.ts:13-15 | the batch accepts exactly the written days of the years 1 to 9999 |
| InvoiceTotals.SlotOkIff | src/lib/client-portal/prepship-invoice-totals-batch-proxy.ts:38-39 | a period is accepted exactly when it is two such days, not in reverse, under the key of the two |
| InvoiceTotals.KeyedPeriodsAreAdmittedIff | src/lib/client-portal/prepship-invoice-totals-batch-proxy.ts:37-42 | what the keying produces is admitted by the batch exactly when the client ids fit 32 bits |
| BillingSummary.AsksAreNeeds | src/lib/client-portal/billing-summary-canonical-keys.ts:128-134 | grouped by window, the requests ask for exactly the client and window pairs that the keyed rows need |
| BillingSummary.BatchAnswers | src/routes/client-portal/invoices.ts:154-188 | complete and truthful replies to the cut requests answer exactly those pairs |
| BillingSummary.SummaryShowsRangeMoney | src/lib/client-portal/billing-summary-canonical-keys.ts:13-26 | from the rows through the cut requests and their replies: every row finds its totals, and the footer of a client whose labels tile the range is the sum of its charges over exactly that range |
| Sorting.SortPermutes | src/lib/client-portal/read-models/canonical-invoice-events.ts:139-146 | the sort returns exactly the given rows for any comparison |
| Sorting.SortOrders | src/lib/client-portal/read-models/canonical-invoice-events.ts:142-145 | it returns them in order when the comparison is transitive on them |
| Sorting.OrderIsUnique | src/lib/client-portal/read-models/canonical-invoice-events.ts:106-117 | with a comparison that never ties distinct rows there is one ordered arrangement, so any correct sort finds it |
| Sorting.OrderableIff | src/lib/client-portal/read-models/canonical-invoice-events.ts:142-145 | an ordered arrangement exists exactly when the comparison is transitive on the rows |
| Sorting.SortForgetsInputOrder | src/lib/client-portal/read-models/canonical-invoice-events.ts:106-117 | every arrangement of the same rows sorts to the same list |
| EventOrder.ColumnHasOrderIff | src/lib/client-portal/read-models/canonical-invoice-events.ts:91-104 | the comparison of a column is transitive exactly when its numbers and texts keep step, in both directions |
| EventOrder.RowsHaveOrderIff | src/lib/client-portal/read-models/canonical-invoice-events.ts:142-145 | the comparison of whole rows, with the id as tiebreak, is transitive exactly when no row with a text stands the wrong way round between two numbers |
| EventOrder.EventsHaveOrderIff | src/lib/client-portal/read-models/canonical-invoice-events.ts:134-147 | rows with distinct ids have an ordered arrangement if and only if they keep step so |
| EventOrder.ColumnInStepSuffices | src/lib/client-portal/read-models/canonical-invoice-events.ts:91-104 | a column whose cells are consistently ordered keeps the rows in step, whatever their ids |
| EventOrder.MixedQuantitiesHaveNoOrder | src/lib/client-portal/read-models/canonical-invoice-events.ts:89-104 | with a numeric collation of strings the quantities "-5", "-3" and "-4x" have no ordered arrangement |
| EventOrder.OrderingPermutes | src/lib/client-portal/read-models/canonical-invoice-events.ts:134-147 | no row is lost or invented |
| EventOrder.OrderingIsUnique | src/lib/client-portal/read-models/canonical-invoice-events.ts:106-147 | with distinct ids the result depends on the set of rows only and is the only ordered arrangement |
| EventOrder.ResultGoesByCells | src/lib/client-portal/read-models/canonical-invoice-events.ts:91-147 | any two rows of the result by what they hold: nothing stored comes last in both directions, numbers go by value, texts by the collation, a number beside a text as written, reversed when descending, and level rows by their ids |
| EventOrder.ResultGoesByIds | src/lib/client-portal/read-models/canonical-invoice-events.ts:131-145 | without a column, or with an unlisted one, the rows go by their ids |
| EventOrder.EveryCellIsKnown | src/lib/client-portal/read-models/canonical-invoice-events.ts:90-104 | every cell is absent, a number (a text quantity included where it parses as one) or a text, so that the rules of `ResultGoesByCells` leave no pair of cells out |
| EventOrder.AbsentComesLast | src/lib/client-portal/read-models/canonical-invoice-events.ts:98-101 | in both directions, a row with a stored value is preceded by rows with stored values only |
| EventOrder.UnlistedMeansIds | src/lib/client-portal/read-models/canonical-invoice-events.ts:131-145 | a name outside the whitelist orders by id alone, in either direction |
| EventOrder.PagesMakeWhole | src/lib/client-portal/read-models/canonical-invoice-events.ts:106-116 | pages cut from separate refetches concatenate to the ordered whole |
| Csv.CsvRecords | scripts/client-portal-audit-activity-runtime.ts:5-18 | the index loop computes the reading the lemmas are about, for every text |
| Csv.ReadInvertsPrintIff | scripts/client-portal-audit-activity-runtime.ts:5-18 | the reader inverts every printer that follows section 2 of RFC 4180 with one leading BOM, and those that leave a lone CR or LF unquoted, exactly on lists of non-empty records |
| AuditCsv.EscapingIsIdempotent | src/lib/client-portal/audit-csv.ts:7-12 | an escaped cell needs no further escape |
| AuditCsv.EscapedAlikeIff | src/lib/client-portal/audit-csv.ts:7-12 | two cells export alike exactly when they are equal or one is the dangerous other with an apostrophe |
| AuditCsv.EscapedLeaves | src/lib/client-portal/audit-csv.ts:7-12 | a cell leaves with one apostrophe in front exactly when it is white space and a sign of a formula, or begins with tab, CR or LF; otherwise as it is |
| AuditCsv.AuditExport | src/lib/client-portal/audit-csv.ts:15-34 | the loop with its running byte count gives the export or nothing |
| AuditCsv.LineQuotesCells | src/lib/client-portal/audit-csv.ts:11-28 | every cell of a line is quoted, its quotes doubled |
| AuditCsv.ExportReadsBack | src/lib/client-portal/audit-csv.ts:14-34 | an export read back is the header and the rows with every cell escaped, none lost |
| AuditCsv.ExportCells | src/lib/client-portal/audit-csv.ts:14-34 | the export read back, cell by cell: every recorded row and cell in order, with the apostrophe exactly where it is needed |
| AuditCsv.ExportFailsIff | src/lib/client-portal/audit-csv.ts:15-31 | nothing is exported exactly above 50000 rows or when some prefix exceeds 16 MiB |
| AuditCsv.ExportFailsIffFileTooLong | src/lib/client-portal/audit-csv.ts:15-33 | for a byte count that adds up, nothing is exported exactly above 50000 rows or when a file with rows is longer than 16 MiB; otherwise the file begins with a BOM |
| LineEnds.RoundTripIff | scripts/cp-059-mutation-harness.ts:391-408 | normalise and denormalise is the identity exactly when every LF follows a CR |
| LineEnds.HasCrlfIff | scripts/cp-059-mutation-harness.ts:391-392 | a file has a CRLF exactly when normalising changes it |
| LineEnds.ReplacesFirst | scripts/cp-059-mutation-harness.ts:401 | what is replaced is the first occurrence of the anchor, and only it |
| LineEnds.IncludesIff | scripts/cp-059-mutation-harness.ts:395 | a text includes its anchor exactly when it can be split around it |
| LineEnds.ReplaceDiffersIff | scripts/cp-059-mutation-harness.ts:401-402 | replacing an included part changes the text exactly when what comes in, `$` patterns expanded where the harness expands them, differs from the part |
| LineEnds.PlainTextIsLiteral | scripts/cp-068-mutation-harness.ts:254 | without a `$` the expanding and the literal replacement are the same |
| LineEnds.PatternsExpand | scripts/cp-059-mutation-harness.ts:401 | what each `$` pattern of a replacement string stands for, and that any other `$` stands for itself |
| MutationHarness.BaselineCoversCommands | scripts/cp-059-mutation-harness.ts:362-380 | with one command per guard a green baseline means every mutation's command passes on the originals |
| MutationHarness.NoFailureIff | scripts/cp-059-mutation-harness.ts:388-433 | no failures exactly when every anchor applied and every guard went red |
| MutationHarness.MissesAreSurvivors | scripts/cp-059-mutation-harness.ts:388-422 | the failures of the loop are as many as the mutations not killed |
| MutationHarness.KilledIff | scripts/cp-059-mutation-harness.ts:389-423 | a mutation is killed exactly when its anchor is in the file, its replacement passes the check and the guard fails on the tree with only that file so changed |
| MutationHarness.KilledMeansNoticed | scripts/cp-059-mutation-harness.ts:408-424 | a kill after a green baseline: the guard passes on the originals and fails on a tree that differs in that one file |
| MutationHarness.MutantDiffersInAnchor | scripts/cp-059-mutation-harness.ts:391-408 | with one kind of line end the mutant is the original with only the anchor replaced, by the expanded or the literal text |
| MutationHarness.NoOpLeavesFileIff | scripts/cp-068-mutation-harness.ts:246-255 | an empty mutation writes the original back exactly when its line ends are of one kind |
| MutationHarness.NoOpsAreRefused | scripts/cp-059-mutation-harness.ts:402-406 | the harness with the check never counts an empty mutation as killed |
| MutationHarness.Harness.Restore | scripts/cp-059-mutation-harness.ts:386 | every saved file has its saved text, other files are untouched |
| MutationHarness.Harness.Baseline | scripts/cp-059-mutation-harness.ts:362-380 | green exactly when the last command of every guard passes |
| MutationHarness.Harness.Judge | scripts/cp-059-mutation-harness.ts:389-423 | one turn of the loop leaves the tree as it was and says whether the mutation was killed |
| MutationHarness.Harness.Run | scripts/cp-059-mutation-harness.ts:382-434 | the tree is as before, a red baseline aborts, and otherwise the failures are counted |
| RenamePropagation.BothUpdatesRename | api/carrier-accounts.ts:309-332 | each nickname field of an awaiting order becomes the new label exactly if it held the old one, independently of the other; nothing else changes |
| RenamePropagation.OnlyFieldsIff | api/carrier-accounts.ts:309-320 | "this field of the matching awaiting orders becomes the new label, everything else stays" describes one statement completely |
| RenamePropagation.RenameIsCarriedIff | api/carrier-accounts.ts:300-307 | a rename is carried exactly when a new label is given and not null, there was a non-empty old one, and the two differ |
| RenamePropagation.SecondMatchesUnchanged | api/carrier-accounts.ts:321-332 | the first update does not change which orders the second matches |
| RenamePropagation.ChangedAreMatches | api/carrier-accounts.ts:309-332 | the orders changed are exactly those that matched in either field |
| RenamePropagation.CountBounds | api/carrier-accounts.ts:333-336 | the reported count lies between half and all of the orders changed, and equals their number exactly when one match set contains the other |
| RenamePropagation.Overrides.UpdateField | api/carrier-accounts.ts:309-320 | one UPDATE: in matching awaiting orders this field becomes the new label, the other field, the rest and all other orders stay, and the count is the number of orders changed |
| RenamePropagation.Overrides.Propagate | api/carrier-accounts.ts:299-347 | the guard, both updates and the count, and what stays when either update fails |

## Left out

- Letters and blanks beyond ASCII: `lower`, `trim` and the peer's upper-casing are modelled on ASCII text.
- The health fixture's own decoder; its effect, a connection that goes silent on a chosen probe, is an
  input of the pool model. Probes that do not use the health pool are not part of the model.
- Writers on the source or target while a table copy runs, and primary key or unique errors of its inserts.
- `resetSequences` of the table copy, the same rule as `InsertBatches.Destination.BumpSequence`, and tables
  that have to be created first.
- Batched copies of a table whose conflict key is not a shared column, NULL keys, and the upper end of a
  sequence's integer type.
- Migration text with its own transaction statements; the digest and the forbidden-statement patterns are one
  boolean. Lock and statement timeouts are an abort that may happen at any step.
- `billingDayBefore` and the trimming in `billingDayOf`.
- FooterIsRangeMoney: money is whole cents and the upstream totals are taken as honest; floating-point sums
  and display are not modelled.
- FetchBatch: the parsing of a reply is a parameter (readable or not), and client ids that are not integers do not arise.
- ColumnHasOrderIff: the collations are parameters with the laws of a comparison; NaN and infinite numbers do
  not arise.
- ExportFailsIff: the byte length of a text is a parameter; building the activity columns of an export row
  is not modelled.
- MutationHarness.Harness.Judge: guards that write files or answer differently on the same tree, and files
  that are not valid UTF-8.
- WirePeer.Socket.StartQuery: the maximum is kept per socket; the source keeps one for all sockets, the
  largest of these.
- HalfOpenIsClosed: stated for end days that exist and whose next day is written right. For the other real
  days `NextDayIff` shows that the upper bound is malformed; `billingDayRange` also takes days that do not
  exist, such as 2026-02-30, and then runs into the next month.
- CarriesAllIff: a table that refers to itself, whose rows could refer to a later page; the schema declares none.
- ReadsIsFunctional: holds by the definition of the meaning and serves the two lemmas after it.
- The natural reference ordering of the Orders table, token checks, request scoping, HTTP plumbing,
  carrier integrations, pages and rendering: they would add only easy members or have no source to model.
