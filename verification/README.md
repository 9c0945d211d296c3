# Verified model of the data platform's stateful core

The repository is a batch platform: sources are copied into append-only bronze tables, Spark jobs
deduplicate and version them into silver, a gate decides whether dbt rebuilds gold. This project
models the parts of it whose correctness depends on whole runs, and proves what those parts are
for. Each `.dfy` file holds one module.

| modules | what they model |
|---|---|
| `Tables` | nullable values, `row_number` with arbitrary ties, keyed lookup, joins as sequences of rows |
| `Scd2`, `Scd2Merge`, `Scd2History` | the versioned products table: one run, one MERGE, and the history any number of runs leaves |
| `PointInTime` | `fct_order_items` over every table those runs can leave |
| `Orders`, `OrdersPipeline`, `OrdersPlatform` | incremental order extraction as a transition system, the MERGE into silver, and the Python loops over the stored tables |
| `RateLimiter`, `RestClient`, `RestExchange`, `RestSweep` | the mock API's limiter, the client's retry loop, the two together, and the page sweep with its flushing |
| `KafkaEvents` | poll, write, commit and crash over any number of partitions, and the deduplicated silver table |
| `Identity` | customer resolution, the identity map, the remap of orders |
| `Gold`, `Payments`, `QualityGate` | rollups, seeded payment rounding, the six checks and promotion |
| `CampaignFact` | dbt's incremental delete+insert against a full refresh |
| `PosText` | the POS text formats and their extractor |
| `FlatFiles`, `FlatFileOrder`, `DropzoneCopy`, `PosInventory` | the drop zone and its month watermark as a transition system, the Python loops that copy it, and the silver table they end in |

How to read it:

- A window function's `row_number` is the relation `RowNumbers`: any numbering the engine may
  choose among ties qualifies, and it is passed in as `rn`. Results hold for every numbering;
  `PointInTime.FallbackTieMatters` is the one place where the choice shows.
- A MERGE is a function whose outcome can be a refusal (two source rows for one target row), and
  it is proved never to be refused.
- Money is in cents, days and instants are integers, percentages and shares are reals. Times a
  machine would read from its clock, results a server or a broker would give, and the moment a run
  dies are parameters.
- The jobs that update tables in place are classes (`Scd2History.ProductHistory`,
  `OrdersPlatform.Platform`, `RestSweep.Sync`, `RateLimiter.Limiter`, `KafkaEvents.Consumer`,
  `DropzoneCopy.Copy`, `CampaignFact.FactTable`, `QualityGate.Warehouse`); each method is tied to a
  function or a transition system about which the theorems are stated.

Assumptions, all of them explicit preconditions:

- Products: tracked columns are compared with SQL's `!=`, so a change from or to null is not
  detected. This is not assumed away: the open version shows the last snapshot exactly when no
  change is hidden behind a null (`Scd2History.OpenVersionIsLastSnapshot`); null-free snapshots
  hide nothing. `Forward` (as-of dates never go back) is proved of append-only bronze;
  `Backdated` says of the product in
  question that, if the first load holds it, it was created by that load's date.
- Orders: a database write carries an `updated_at` above the horizon, which is the watermark, or
  while an extraction is under way the value that extraction is about to store; and every
  `write_bronze` call gets a later stamp. The first is the exact condition: a write at or below the
  horizon is lost when the extraction advances (`OrdersPipeline.LostExactlyIfWithinHorizon`), stays
  lost (`LostForever`) until the watermark is set back below it (`ResetRecoversLost`), and is spared
  if the extraction dies and it lies above the stored watermark (`CrashSparesLaterWrites`).
- REST: a sweep's pages come from one selection; `EarlyWatermarkSelectsAll` shows when that is
  automatic.
- Kafka: an event id stands for one payload.
- Flat files: files are immutable, arrive whole, and repeat a natural key only in exact duplicates.
  They may arrive between any two calls of a run. An arrival is too late if the watermark had passed
  its folder, or if the run in progress had and that run finishes; if it dies, the next run copies
  the file. Exactly the late ones are missed (`FlatFiles.MissedExactlyIfPassed`), and no late
  arrival is exactly what makes bronze look as if each file had been copied once
  (`FlatFileOrder.CopiedOnceExactlyIfNoneTooLate`).

Where the code differs from what it says about itself:

- The retry loop returns a page, raises, or asks again. A status outside 200 and 400-599 matches
  no branch, so the loop asks again without counting; `RestClient.GetPage` states that such
  replies alone never settle a page.
- The fixed-window limiter admits up to twice its limit in a 60-second span, and that many are
  reached.
- Payment splitting is said to preserve the total; it loses or gains a cent exactly when the first
  part is a half-cent tie of an odd total. The dbt test's tolerance therefore holds for every order
  of n lines if and only if n is at most nine.
- When the version valid on the order date has a null cost, the point-in-time join charges the
  earliest version's cost without setting `used_earliest_version_fallback`
  (`PointInTime.SilentFallbackExactlyIfNull`).
- The months of a flat-file run are listed once and each folder once, but the watermark moves over
  all of them at the end: a file that arrives in between, in a folder already listed or in an
  unlisted month before the last, is never copied if the run finishes
  (`FlatFiles.ArrivalDuringCopyIsMissed` is such a run).
- The quality gate is said to pass or fail. On an empty POS bronze table it does neither: the share
  it prints divides by the number of rows and raises (`QualityGate.RunGate`).
- The extractor drops signs, and values beyond the cast's range become null without being counted
  by the gate.
- The mock store stamps the current day's rows with the following midnight, so a restatement of an
  earlier row stamped with the time of the request is below the fact's maximum and an incremental
  build passes over it (`CampaignFact.RestatementBehindTheMaximum`).

## Model

| member | source | states |
|---|---|---|
| Tables.TopIsLatest | spark_jobs/bronze_to_silver/order_items_payments.py:37-44 | keeping the rows numbered 1 leaves one row per key, none later, whatever numbering of ties the engine chose |
| Tables.LatestIsDetermined | spark_jobs/bronze_to_silver/order_items_payments.py:37-44 | if key and stamp determine the row, every numbering keeps the same rows |
| Scd2.DiffCondition | spark_jobs/bronze_to_silver/products_scd2.py:115-117 | the folded disjunction is true exactly when some tracked column holds two different values and null in neither, and false exactly for equal rows without nulls |
| Scd2Merge.OneSourcePerTarget | spark_jobs/bronze_to_silver/products_scd2.py:141-155 | no two staged rows match one current version |
| Scd2Merge.MergeNeverFails | spark_jobs/bronze_to_silver/products_scd2.py:153-169 | the MERGE is never ambiguous and no close-tagged row is left to be inserted half-empty |
| Scd2Merge.MergeIsStep | spark_jobs/bronze_to_silver/products_scd2.py:115-169 | seen from any product, diff, staging and MERGE together close the open version and open a new one if a tracked column changed, open a first version if the product is new, and otherwise change nothing |
| Scd2Merge.MergeKeepsChains | spark_jobs/bronze_to_silver/products_scd2.py:112-169 | every run keeps each product's versions a gap-free chain with one open, current end |
| Scd2Merge.InitialLoadIsChained | spark_jobs/bronze_to_silver/products_scd2.py:83-110 | the first load establishes the chains |
| Scd2Merge.CurrentCount | spark_jobs/bronze_to_silver/products_scd2.py:171-173 | current rows count the distinct products |
| Scd2Merge.MergeCounts | spark_jobs/bronze_to_silver/products_scd2.py:138-175 | a run adds one row per changed and per new product, and one current row per new product |
| Scd2Merge.RerunChangesNothing | spark_jobs/bronze_to_silver/products_scd2.py:112-169 | the same snapshot and numbering merged again on any later date leave the table as it is |
| Scd2History.ReplayIsChain | spark_jobs/bronze_to_silver/products_scd2.py:36-38 | after any runs the versions chain, and the open one carries the row that last opened one |
| Scd2History.ReplayIsSorted | spark_jobs/bronze_to_silver/products_scd2.py:141-157 | versions opened by later runs start in order; with a backdated first load so does the first |
| Scd2History.IntervalsAreDisjoint | spark_jobs/bronze_to_silver/products_scd2.py:36-38 | no day lies in two versions, several runs on one day included |
| Scd2History.NoGaps | spark_jobs/bronze_to_silver/products_scd2.py:36-38 | every day from the first version's start lies in some version |
| Scd2History.CoveringVersionIsValid | spark_jobs/bronze_to_silver/products_scd2.py:56-169 | a version covering a day carries the row the log of snapshots prescribes for it |
| Scd2History.CoveredExactlyIfValid | spark_jobs/bronze_to_silver/products_scd2.py:56-169 | and a day is covered exactly when the log prescribes a row |
| Scd2History.OpenVersionIsLastSnapshot | spark_jobs/bronze_to_silver/products_scd2.py:115-122 | after every run the open version shows the last snapshot's tracked columns if and only if no change went unseen behind a null |
| Scd2History.GoverningRun | spark_jobs/bronze_to_silver/products_scd2.py:56-169 | what the log prescribes for a day is the row of the last run dated up to it that contained the product |
| Scd2History.VersionShowsGoverningSnapshot | spark_jobs/bronze_to_silver/products_scd2.py:56-169 | the version containing day d has the tracked columns of the last run with as-of date at most d that held the product (the first load on its backdated days), and exists exactly when there is such a run |
| Scd2History.NullFreeHidesNothing | spark_jobs/bronze_to_silver/products_scd2.py:115-117 | snapshots without nulls satisfy that condition |
| Scd2History.NullHidesAChange | spark_jobs/bronze_to_silver/products_scd2.py:115-117 | a cost that becomes null opens no version |
| Scd2History.OpensExactlyIfSeen | spark_jobs/bronze_to_silver/products_scd2.py:115-157 | a run opens a version exactly if its row is the product's first or differs from the open version in a column that is null on neither side; otherwise it leaves the history alone |
| Scd2History.IncomingIsNewest | spark_jobs/bronze_to_silver/products_scd2.py:56-70 | the incoming rows are those of the newest snapshot, one for each product it holds, the latest ingested |
| Scd2History.AsOfNeverGoesBack | spark_jobs/bronze_to_silver/products_scd2.py:56-58 | the maximum snapshot date of append-only bronze never decreases |
| Scd2History.StampsIdentifyVersions | dbt/models/marts/dim_products.sql:10-22 | runs stamped strictly later give a product's versions distinct stamps |
| Scd2History.ProductHistory.LoadFirst | spark_jobs/bronze_to_silver/products_scd2.py:83-110 | the first load reflects a log of one run |
| Scd2History.ProductHistory.MergeLater | spark_jobs/bronze_to_silver/products_scd2.py:112-169 | the MERGE makes the table reflect the log extended by this run, with the reported counts |
| Scd2History.ProductHistory.Run | spark_jobs/bronze_to_silver/products_scd2.py:73-175 | every run keeps the table what the log of snapshots makes of it, for every product, as bronze grows |
| Scd2History.RerunOfJobChangesNothing | spark_jobs/bronze_to_silver/products_scd2.py:56-169 | a rerun on unchanged bronze leaves the table as it is, after a MERGE or a first load, whatever numbering of ties either run used, if key and ingest stamp determine the row |
| PointInTime.AtMostOneVersion | dbt/models/marts/fct_order_items.sql:73-77 | the range join finds at most one version |
| PointInTime.EarliestVersion | dbt/models/marts/fct_order_items.sql:47-51 | the fallback table has one row per known product, with its smallest valid_from |
| PointInTime.VersionOn | dbt/models/marts/fct_order_items.sql:73-77 | it finds one exactly when the product is known and the date is not before its first version |
| PointInTime.OneFactPerItem | dbt/models/marts/fct_order_items.sql:53-79 | a line with an order gives exactly one row; the fallback flag is true exactly when the order precedes the product's earliest version, the one the fallback table's numbering keeps; known products always get a key |
| PointInTime.FactReferencesCoveringVersion | dbt/models/marts/fct_order_items.sql:53-79 | the row's key and cost are those of the version covering the order date; before the first version the key is one with the smallest start, flagged; a product never seen has neither key nor cost |
| PointInTime.FactKeyIsOneVersion | dbt/models/marts/fct_order_items.sql:59 | if run stamps strictly increase, no other row of the dimension has the key the fact references |
| PointInTime.NeverFansOut | dbt/models/marts/fct_order_items.sql:53-79 | exactly one row even without the backdating assumption |
| PointInTime.NoFactForOrphan | dbt/models/marts/fct_order_items.sql:71-72 | a line without an order gives none |
| PointInTime.CostAtSaleIsGoverningCost | dbt/models/marts/fct_order_items.sql:67-78 | unless it is null there, the cost at sale is the cost in the last snapshot up to the order date, through SCD2 and join together, unflagged, and cost total and margin follow from it |
| PointInTime.SilentFallbackExactlyIfNull | dbt/models/marts/fct_order_items.sql:67-70 | the charged cost differs from that snapshot's if and only if that one is null and the cost of the version the fallback table keeps is not; it is then that cost, and the flag is false |
| PointInTime.NullCostIsChargedSilently | dbt/models/marts/fct_order_items.sql:67-70 | a cost that becomes null together with a price change is such a case |
| PointInTime.FallbackCostIsAnEarliestCost | dbt/models/marts/fct_order_items.sql:67-78 | before that it is the cost of a version with the smallest start |
| PointInTime.FallbackTieMatters | dbt/models/marts/fct_order_items.sql:47-51 | with two versions starting on one day, two permitted numberings give two costs |
| PointInTime.SurrogateKeyIsUnique | dbt/models/marts/dim_products.sql:10-24 | (product_id, _silver_processed_at) identifies a version if run stamps strictly increase |
| Orders.DedupedUnique | spark_jobs/bronze_to_silver/orders.py:80-85 | however many duplicates bronze has, the MERGE source has one row per order |
| Orders.MergeSucceeds | spark_jobs/bronze_to_silver/orders.py:102-108 | so the MERGE is never ambiguous |
| Orders.MergeKeepsIdsUnique | spark_jobs/bronze_to_silver/orders.py:102-108 | order_id stays unique |
| Orders.MergeContents | spark_jobs/bronze_to_silver/orders.py:102-108 | the result is every source row and the target rows whose order the source lacks |
| Orders.MergeIsIdempotent | spark_jobs/bronze_to_silver/orders.py:28-33 | merging the same bronze again changes nothing |
| Orders.DeleteThenMerge | ops/incident_03_backfill.py:82-104 | deleting rows and merging equals merging alone if and only if bronze still has every deleted order |
| OrdersPipeline.StepKeepsInv | ingestion/pipelines/postgres_oltp.py:87-120 | writes, chunks, crashes, re-sweeps, backward resets, deletes and merges all keep the invariant |
| OrdersPipeline.NothingBelowWatermarkIsMissed | ingestion/pipelines/postgres_oltp.py:87-118 | in every state of every run, each row up to the watermark is in bronze in its current version |
| OrdersPipeline.NoMergeIsRefused | spark_jobs/bronze_to_silver/orders.py:80-108 | in every reachable state the merge succeeds with unique ids |
| OrdersPipeline.DedupeIsLastLanded | spark_jobs/bronze_to_silver/orders.py:80-85 | deduplication keeps what bronze received last, under any numbering |
| OrdersPipeline.MergeShowsLastLanded | spark_jobs/bronze_to_silver/orders.py:71-108 | after the job silver is exactly what bronze received last, per order |
| OrdersPipeline.SilverCatchesUp | spark_jobs/bronze_to_silver/orders.py:71-108 | after a finished extraction and a merge with no write since, silver equals the database, whatever happened before or in between |
| OrdersPipeline.BackfillRestores | ops/incident_03_backfill.py:82-104 | deleting a month removes that month's rows and no others, and the merge that follows leaves what merging alone would have, in every state satisfying the invariant |
| OrdersPipeline.ChunkKeepsHorizon | ingestion/pipelines/postgres_oltp.py:93-101 | landing a chunk does not move the value the extraction will store |
| OrdersPipeline.LostExactlyIfWithinHorizon | ingestion/pipelines/postgres_oltp.py:87-118 | in any state, a write is safe through the next advance if and only if its updated_at is above the watermark and above what the extraction in progress will store; otherwise the advance leaves it lost |
| OrdersPipeline.WriteAboveWatermarkIsLost | ingestion/pipelines/postgres_oltp.py:103-118 | a run of the system in which a write above the watermark, after the extraction finished and before set_watermark, is lost |
| OrdersPipeline.CrashSparesLaterWrites | ingestion/pipelines/postgres_oltp.py:114-118 | if the extraction dies before set_watermark, only writes at or below the stored watermark are lost |
| OrdersPipeline.LostForever | ingestion/pipelines/postgres_oltp.py:88-89 | a lost write stays lost through any later steps but another write of the order or a reset below it |
| OrdersPipeline.ResetRecoversLost | ingestion/pipelines/postgres_oltp.py:87-118 | a watermark set back below a lost write makes the next extraction to finish bring it to bronze |
| OrdersPlatform.Platform.WriteBronze | ingestion/delta_writer.py:22-47 | an append under a later stamp is one step of the system |
| OrdersPlatform.Platform.LandChunk | ingestion/pipelines/postgres_oltp.py:93-101 | one iteration lands the next rows and keeps the running maximum |
| OrdersPlatform.Platform.CopyOrdersIncremental | ingestion/pipelines/postgres_oltp.py:87-103 | every selected row lands once, in order, for any chunk size; the returned value is the maximum of the old watermark and the rows |
| OrdersPlatform.Platform.Run | ingestion/pipelines/postgres_oltp.py:106-120 | the stored watermark becomes that maximum only after every chunk is in bronze |
| OrdersPlatform.Platform.MergeIntoSilver | spark_jobs/bronze_to_silver/orders.py:71-116 | the job on the stored tables is never refused and leaves what bronze received last |
| RateLimiter.Limiter.Check | docker/mock-api/app.py:178-188 | one request updates the window and is refused exactly when it is over the limit |
| RateLimiter.RetryAfterIsLeast | docker/mock-api/app.py:187 | the answered wait is the least whole number of seconds that reaches beyond the window's end |
| RateLimiter.AtMostLimitPerWindow | docker/mock-api/app.py:178-188 | over any run, no window admits more than the limit |
| RateLimiter.WindowsAreApart | docker/mock-api/app.py:182-184 | any two windows of a run are the same or start at least 60 s apart |
| RateLimiter.TwiceTheLimitPerMinute | docker/mock-api/app.py:178-188 | hence at most twice the limit in any 60 s, from any state |
| RateLimiter.TwiceTheLimitIsReached | docker/mock-api/app.py:178-188 | and that bound is attained |
| RestClient.GetPage | ingestion/pipelines/rest_api_campaigns.py:91-118 | the two budgets never mix, at most 107 requests, the backoff is 1, 2, 4, ... seconds and the random parts for exactly the 5xx slept for and at most 66 s, the 429 sleeps are those the server asked for, success exactly on a 200, and the page stays unsettled exactly if no reply succeeds or is refused and neither budget is overdrawn, for every stream of replies |
| RestExchange.HeardWaitOpensWindow | docker/mock-api/app.py:182-187 | sleeping the value the limiter answers always reaches a fresh window |
| RestExchange.ExchangeIsLimited | ingestion/pipelines/rest_api_campaigns.py:91-118 | an exchange is a run of the limiter: requests as far apart as the delays and waits make them, each answered by the limiter at its time, leaving the window and the time after the last |
| RestExchange.WaitsWhenHeard | ingestion/pipelines/rest_api_campaigns.py:100-107 | a client that hears it is refused at most 7 times a page |
| RestExchange.WaitsWhenDeaf | ingestion/pipelines/rest_api_campaigns.py:100-107 | one that sleeps its default 5 s is refused at most 12 times per window opened |
| RestExchange.WaitsWithRoom | ingestion/pipelines/rest_api_campaigns.py:100-107 | with a limit of at least 7, at most 12 times a page |
| RestExchange.CapIsUnreachable | ingestion/pipelines/rest_api_campaigns.py:55-107 | the cap of 100 waits is out of reach if and only if the server admits anything |
| RestExchange.PageExactlyIfArrives | ingestion/pipelines/rest_api_campaigns.py:91-118 | what decides a page is the number of 5xx and the refusals among its replies: the 429s never do |
| RestExchange.FetchPage | ingestion/pipelines/rest_api_campaigns.py:91-118 | the client loop against the limiter leaves the window and the time after its last request, never ends in the rate-limit error if the limit is positive, and as long as the server answers gets the page if and only if the admitted requests draw at most six 5xx and no refusal |
| RestSweep.EarlyWatermarkSelectsAll | docker/mock-api/app.py:129-137 | with updated_since before every original stamp, every request selects the whole store in one order, whatever is being restated |
| RestSweep.RestatedRowsAreSent | docker/mock-api/app.py:113-134 | a sync from any watermark up to now is sent every row being restated, however old, and of the others exactly those whose own stamp has reached it |
| RestSweep.PageCount | docker/mock-api/app.py:139-140 | max(1, ceil(n / size)) pages |
| RestSweep.PagesAreTheSelection | docker/mock-api/app.py:139-143 | following next_page reads the selection once, in order |
| RestSweep.Sync.TakePage | ingestion/pipelines/rest_api_campaigns.py:133-142 | what is written plus what is buffered is what was read |
| RestSweep.Sync.FollowPages | ingestion/pipelines/rest_api_campaigns.py:91-155 | with every page fetched through the retry loop and the limiter: a finished run wrote every page once, in order, in batches within the threshold, and only then moved the watermark; an aborted one wrote a prefix and did not, and stopped at a page that does not arrive |
| RestSweep.Sync.Run | ingestion/pipelines/rest_api_campaigns.py:91-156 | the sync finishes if and only if the server admits anything and no page draws more than six 5xx or a refusal; its batches then concatenate to the sorted selection, for any threshold, and otherwise to a prefix with the watermark unmoved |
| KafkaEvents.StepKeepsInv | ingestion/pipelines/kafka_events.py:61-96 | produce, poll, write, commit and crash keep the invariant |
| KafkaEvents.CommittedIsInBronze | ingestion/pipelines/kafka_events.py:64-92 | in every state of every run all records below a committed offset are in bronze, and at most one poll beyond the cap is held |
| KafkaEvents.SilverIsExactlyOnce | spark_jobs/bronze_to_silver/clickstream_events.py:31-37 | silver has each landed event once, with the payload it was produced with |
| KafkaEvents.CaughtUpSilverIsTopic | spark_jobs/bronze_to_silver/clickstream_events.py:31-37 | once the group has caught up, silver is the set of produced events |
| KafkaEvents.PolledReads | ingestion/pipelines/kafka_events.py:64-70 | polling goes on until an empty batch, the polls' end or the cap; it then holds every record of the batches taken, once and in order, and each position has moved past exactly those |
| KafkaEvents.Consumer.PollAll | ingestion/pipelines/kafka_events.py:65-70 | the poll loop moves only positions and buffer, to where polling until an empty batch, the polls' end or the cap leads, and stays below cap plus one poll |
| KafkaEvents.Consumer.Run | ingestion/pipelines/kafka_events.py:49-96 | a run writes exactly the records its polls returned, in order, and, if there are any, commits the positions they reached; it commits only records it has just written |
| Identity.IdentityOf | spark_jobs/bronze_to_silver/customers.py:62-85 | every customer is taken in by an identity whose id is the least with its normalised email |
| Identity.NormalExactlyIfSameEmail | spark_jobs/bronze_to_silver/customers.py:58 | two emails normalise alike if and only if they differ in outer spaces and in the case of letters only |
| Identity.NormalHasNoSpaceOrCapital | spark_jobs/bronze_to_silver/customers.py:58 | a normalised email has no outer space and no capital |
| Identity.ResolvedRow | spark_jobs/bronze_to_silver/customers.py:65-85 | a resolved row's list is ascending, starts with its own id, and holds exactly the ids with its email; the row's attributes are the canonical customer's |
| Identity.ListsPartitionIds | spark_jobs/bronze_to_silver/customers.py:62-85 | every id is in exactly one list; ids share a list if and only if their normalised emails are equal |
| Identity.SharedExactlyIfSameEmail | spark_jobs/bronze_to_silver/customers.py:58-85 | two customers share one resolved row if and only if their emails differ in outer spaces and case only, or both are null |
| Identity.CapitalsAreSameEmail | seeders/seed_postgres_oltp.py:268-273 | so a duplicate planted in capitals is merged |
| Identity.PaddedIsSameEmail | seeders/seed_postgres_oltp.py:268-273 | and so is one padded with spaces |
| Identity.EmailsAreUnique | spark_jobs/bronze_to_silver/customers.py:73-85 | no two resolved rows share an email |
| Identity.MapUnique | dbt/models/staging/stg_customer_identity_map.sql:15-18 | disjoint lists unnest to one row per original id |
| Identity.RemapIsSound | dbt/models/staging/stg_orders.sql:14-27 | the remap never fans out, is idempotent, keeps unknown ids and sends known ones to an existing customer |
| Identity.LatestCustomersUnique | spark_jobs/bronze_to_silver/customers.py:52-59 | stage one keeps one row for every id bronze ever saw |
| Identity.EveryBronzeIdHasOneCustomer | spark_jobs/bronze_to_silver/customers.py:52-85 | every such id remaps to exactly one silver customer |
| Gold.StgOrdersKeepsRows | dbt/models/staging/stg_orders.sql:14-27 | staging keeps every order once, in order, with its id and day |
| Gold.StgOrdersRemaps | dbt/models/staging/stg_orders.sql:14-27 | a known customer becomes the one whose id list has taken it in, which has a row in silver; an unknown one stays; nothing else of the order changes |
| Gold.GoldCustomersAreResolved | dbt/models/staging/stg_orders.sql:1-27 | both facts carry the resolved customer of their own order |
| Gold.GroupByIsSum | dbt/models/marts/fct_orders.sql:8-25 | each group-by has one row per key with the count and sums of that key's rows |
| Gold.OneRowPerOrder | dbt/models/marts/fct_orders.sql:27-43 | one rollup row per staged order with how many lines and payments it has and what they add up to: neither join fans out |
| Gold.RollupLosesOrphans | dbt/models/marts/fct_orders.sql:27-43 | with unique ids a rollup loses exactly the rows whose order is missing |
| Gold.RollupSums | dbt/models/marts/fct_orders.sql:27-43 | gold's sums are the order-by-order sums of the child tables |
| Gold.LineFactsLoseOrphans | dbt/models/marts/fct_order_items.sql:53-79 | so does the line grain, in rows and in money |
| Gold.DuplicateCheckIsExact | spark_jobs/quality_gate.py:69-75 | count equals distinct count if and only if order_id is unique |
| Gold.OrphanCountIsExact | spark_jobs/quality_gate.py:83 | the anti-join counts the orphans |
| Gold.IdentityCheckAlwaysPasses | spark_jobs/quality_gate.py:132-138 | the identity check holds of every table the customers job writes |
| Gold.PassingGateConserves | spark_jobs/quality_gate.py:69-87 | if the uniqueness and orphan checks pass, staged line totals, both grains of gold and the payments agree to the cent, with one gold row per order and per line |
| Gold.GoldLine | dbt/models/marts/fct_order_items.sql:53-79 | if the uniqueness and orphan checks pass, line k of the fact is line k of silver on its order's day, for the resolved customer, with the key of the product version covering that day |
| Payments.BothRoundToNearest | seeders/seed_postgres_oltp.py:471 | half-even and half-away rounding both give a nearest cent |
| Payments.PartsAreShares | seeders/seed_postgres_oltp.py:510-527 | the first part is the drawn share of the total and the second the rest, each to the nearest cent, a tie to the even one |
| Payments.TiesGoAway | dbt/models/staging/stg_order_items.sql:8 | DuckDB's rounding takes a tie away from zero |
| Payments.SplitIsExact | seeders/seed_postgres_oltp.py:510-531 | the two parts sum to the total if and only if not (half-cent tie and odd total), and never miss it by more than a cent |
| Payments.PaidIsNearItemTotal | seeders/seed_postgres_oltp.py:465-531 | payments are within 1.5 cents of the unrounded items, for any number of lines |
| Payments.GateReconciles | spark_jobs/quality_gate.py:51-59 | so within the gate's tolerance |
| Payments.DbtReconcilesUpToNineLines | dbt/tests/assert_payments_reconcile_to_order_items.sql:11-34 | and within the dbt test's over per-line rounding, for up to nine lines |
| Payments.DbtReconcilesExactlyUpToNineLines | dbt/tests/assert_payments_reconcile_to_order_items.sql:34 | all orders of n lines are within the tolerance if and only if n is at most nine |
| Payments.DbtCanFailFromTenLines | dbt/tests/assert_payments_reconcile_to_order_items.sql:34 | for every n from ten on, an order of one-euro lines with drawable discounts, paid half and half, is beyond it |
| Payments.PaymentIdsAreSequential | seeders/seed_postgres_oltp.py:479-508 | payment_id runs 1, 2, 3, ... through the three frames |
| Payments.FrameOfOrder | seeders/seed_postgres_oltp.py:490-529 | each of the three frames holds an order once, with its total, first or second part, exactly if the order's mask selects it |
| Payments.PaymentRowsOfOrder | seeders/seed_postgres_oltp.py:490-531 | an order has one row of its total, or its first part and, under a later id, its second |
| Payments.PaymentsOfOrder | seeders/seed_postgres_oltp.py:490-531 | the generated rows of an order sum to its total or its two parts |
| QualityGate.ReconcilesIsExact | spark_jobs/quality_gate.py:47-66 | no mismatch is counted if and only if no order with lines is a mismatch |
| QualityGate.ReconcilesWithinFiveCents | spark_jobs/quality_gate.py:47-66 | which is so if and only if, for every order with a line and a payment, lines and payments differ by at most five cents either way |
| QualityGate.StagedTotals | dbt/models/staging/stg_order_items.sql:8 | the per-order sum of staged lines is the sum of the lines rounded one by one |
| QualityGate.SeededDataReconciles | seeders/seed_postgres_oltp.py:465-531 | whole tables generated by the seeder pass the gate's check, and the dbt test with up to nine lines an order |
| QualityGate.SeededGoldReconciles | dbt/tests/assert_payments_reconcile_to_order_items.sql:11-34 | in fct_orders built from seeded tables, what was sold and what was paid differ by at most five cents for an order of up to nine lines |
| QualityGate.CheckNoOrphanedChildRows | spark_jobs/quality_gate.py:78-87 | the loop passes exactly when no child table has an orphan |
| QualityGate.AllPassed | spark_jobs/quality_gate.py:170-176 | the fold is the conjunction of the results |
| QualityGate.CleanExactlyIfReady | spark_jobs/quality_gate.py:47-147 | the six checks together hold exactly of a lakehouse whose orders, emails and campaign keys do not repeat, whose lines and payments have their orders and agree within five cents, and whose present POS texts have a digit |
| QualityGate.RunGate | spark_jobs/quality_gate.py:92-184 | the gate passes exactly of such a lakehouse with rows in POS bronze; on an empty one it raises |
| QualityGate.KeyChecksAlwaysPass | spark_jobs/quality_gate.py:132-147 | the identity and campaign key checks hold of whatever the silver jobs write |
| QualityGate.Warehouse.Promote | spark_jobs/quality_gate.py:160-184 | gold is rebuilt if and only if the gate passes, and then conserves money at every grain and carries resolved customers; blocked or raised, it is untouched |
| CampaignFact.SilverIsLatest | spark_jobs/bronze_to_silver/campaign_performance.py:32-40 | silver keeps, per natural key, a row with the latest updated_at |
| CampaignFact.BuildKeepsKeysUnique | dbt/models/marts/fct_campaign_performance.sql:13-19 | unique_key holds after every build |
| CampaignFact.BuildMembers | dbt/models/marts/fct_campaign_performance.sql:13-39 | a build leaves the staged rows above the maximum and the old rows no such row replaces |
| CampaignFact.IncrementalIsFullRefresh | dbt/models/marts/fct_campaign_performance.sql:13-39 | an incremental build equals a full refresh if and only if no key vanished and every staged row not above the maximum was already there |
| CampaignFact.OnlyOldRowsGoStale | dbt/models/marts/fct_campaign_performance.sql:37-39 | otherwise only keys whose staged stamp is not above the maximum keep their old value |
| CampaignFact.CurrentExactlyIfFresh | dbt/models/marts/fct_campaign_performance.sql:13-39 | over any sequence of builds, every build is a full refresh if and only if each staged table was fresh against the one before |
| CampaignFact.LaterStampsAreFresh | spark_jobs/bronze_to_silver/campaign_performance.py:32-40 | if newly landed rows are stamped above everything landed before, silver stays fresh |
| CampaignFact.RestatementBehindTheMaximum | docker/mock-api/app.py:106-127 | a restatement stamped with the request time can be below the maximum and is then missed |
| CampaignFact.FactTable.Refresh | dbt/models/marts/fct_campaign_performance.sql:13-39 | the in-place delete and insert is that build |
| PosText.ExtractIsFirstMatch | spark_jobs/bronze_to_silver/pos_inventory.py:40-45 | the extractor returns the leftmost, longest match of digits-point-digits, and nothing exactly when there is no digit |
| PosText.HalfUpIsNearest | spark_jobs/bronze_to_silver/pos_inventory.py:66 | the decimal cast rounds to the nearest cent, ties up |
| PosText.ExtractWhole | spark_jobs/bronze_to_silver/pos_inventory.py:64-67 | a whole number is extracted whatever digit-free text precedes it and whatever follows that does not continue it |
| PosText.ExtractDecimal | spark_jobs/bronze_to_silver/pos_inventory.py:64-66 | so is a number with decimals |
| PosText.AnyDecimalIsRead | spark_jobs/bronze_to_silver/pos_inventory.py:64-67 | a number with any decimals is read as the nearest cent, ties up, and as a quantity without its fraction |
| PosText.WholeCostIsRead | spark_jobs/bronze_to_silver/pos_inventory.py:64-67 | a number without a point is read as that many euros, or as that quantity |
| PosText.EveryStageComesBack | seeders/seed_flatfiles.py:108-145 | for every stage, form, quantity and cost, the text reads back to the magnitude, or to null when the type cannot hold it |
| PosText.OldColumnWins | spark_jobs/bronze_to_silver/pos_inventory.py:55-57 | a row with both cost columns is read from unit_cost_eur, one with only unit_cost from that |
| PosText.RoundTripExactlyInRange | spark_jobs/bronze_to_silver/pos_inventory.py:56-67 | the round trip holds if and only if the value is non-negative and in range |
| PosText.LostIsUnparseableOrOverflow | spark_jobs/bronze_to_silver/pos_inventory.py:70-71 | silver's null-from-non-null count is the gate's failure count plus the overflows |
| PosText.ParseCheckIsExact | spark_jobs/quality_gate.py:111-123 | the gate's check passes if and only if every text present has a digit |
| FlatFiles.MonthOrder | ingestion/pipelines/flat_files.py:107-110 | on zero-padded YYYY-MM strings the comparison is calendar order, the default watermark before every month |
| FlatFiles.SoundStep | ingestion/pipelines/flat_files.py:107-138 | arrivals, listings, appends, the advance and deaths keep a run's months past the watermark and up to its last, and bronze within the bucket |
| FlatFiles.MissedExactlyIfPassed | ingestion/pipelines/flat_files.py:107-138 | when no run is under way, a file is missed if and only if the watermark had passed its folder when it arrived, or the run then in progress had and that run finished |
| FlatFiles.NoneMissedExactlyIfNoneTooLate | ingestion/pipelines/flat_files.py:107-138 | so no file of the bucket is missed if and only if no arrival was too late |
| FlatFiles.MissedForever | ingestion/pipelines/flat_files.py:109-110 | a missed file is never copied by any later run |
| FlatFiles.ArrivalDuringCopyIsMissed | ingestion/pipelines/flat_files.py:107-138 | a run of the system that opens a folder before a second file arrives in it, finishes, and misses that file |
| FlatFileOrder.InStepNext | ingestion/pipelines/flat_files.py:117-133 | at every call, unless the run skips a file, what it has appended and is about to append is the files of the months it has reached, in listing order |
| FlatFileOrder.AlwaysSettled | ingestion/pipelines/flat_files.py:117-138 | in every state the run in progress is in that step if and only if it skips no file, and the files up to the watermark are in bronze, their last copies in listing order, if and only if none is missed |
| FlatFileOrder.CopiedOnceExactlyIfNoneTooLate | ingestion/pipelines/flat_files.py:117-138 | once the watermark has reached every month, bronze is as if each file had been copied once, in listing order, whatever runs died, if and only if no arrival was too late; an arrival in a folder already opened by a run that then dies is not |
| FlatFileOrder.AsIfCopiedOnce | ingestion/pipelines/flat_files.py:117-138 | in particular, it is if every file arrives in a folder that neither the watermark nor the run in progress has passed |
| DropzoneCopy.ListMonthFolders | ingestion/pipelines/flat_files.py:78-88 | the months that have a file, sorted |
| DropzoneCopy.SinceIsNewMonths | ingestion/pipelines/flat_files.py:110 | comparing strings keeps exactly the months past the watermark, in order |
| DropzoneCopy.LegalIsRun | ingestion/pipelines/flat_files.py:107-140 | what the methods record is a run of the transition system |
| DropzoneCopy.Copy.BeginRun | ingestion/pipelines/flat_files.py:109-114 | the listing is one event, and decides the run's last month |
| DropzoneCopy.Copy.Open | ingestion/pipelines/flat_files.py:118-124 | each folder is listed when its turn comes |
| DropzoneCopy.Copy.CopyFolder | ingestion/pipelines/flat_files.py:126-133 | one append per file, until the folder ends or the run dies |
| DropzoneCopy.Copy.CopyMonths | ingestion/pipelines/flat_files.py:116-135 | every new month's folder in turn, with files arriving in between, until the run dies |
| DropzoneCopy.Copy.Run | ingestion/pipelines/flat_files.py:107-140 | one run of the system: the watermark moves last and only if the run finishes, the reported rows are those appended, and with nothing arriving after the first listing the whole bucket is covered |
| PosInventory.SilverShowsLastFile | spark_jobs/bronze_to_silver/pos_inventory.py:73-87 | silver holds, per natural key, the cleaned row of the last file having the key: a function of the drop zone alone |
| PosInventory.WrittenRowIsShown | spark_jobs/bronze_to_silver/pos_inventory.py:64-87 | the silver row of a natural key has the month of the last file having the key, and exactly the quantity and the cost written there, each if present, not negative and in range |
| PosInventory.ShownRowWasWritten | spark_jobs/bronze_to_silver/pos_inventory.py:64-87 | every silver row comes from such a file |
| PosInventory.FileReachesSilver | spark_jobs/bronze_to_silver/pos_inventory.py:46-96 | end to end, after any complete history without a late arrival, what a till wrote for a key last is what silver shows for it |
| PosInventory.RetriesAreInvisible | spark_jobs/bronze_to_silver/pos_inventory.py:73-87 | two histories that end complete with the same bucket and had no arrival too late end with the same silver rows, however many runs died in either |

## Left out

- Spark, Delta, DuckDB, Postgres, Kafka and pandas themselves: tables are sequences of rows and statements have relational meaning; the Delta log, OPTIMIZE and the crash demonstration are not modelled.
- Binary floating point: sums and products are exact, rounding is as documented; texts of floats are exact decimals, which repr guarantees below about 10^13 euros.
- OLTP deletes: extraction never sees them and silver keeps the rows.
- NULL `updated_at` and string comparison of timestamps in the watermark: instants are integers; month strings are modelled as strings because their order is part of the property.
- Two extractions at once: the scheduler allows one run at a time.
- The other columns of orders, products, customers and order items: one field stands for those no branch looks at.
- Full snapshot tables and their `snapshot_date` partitions beyond products: deduplicated like every other table.
- The surrogate key's hash: dim_products keys are pairs.
- Whether the API framework keeps the Retry-After header of a raised error: both cases are proved.
- Sweeps during which the restated slice rotates: pages can shift, so one selection per sweep is a precondition except where the watermark precedes every original stamp.
- HTTP, S3, JDBC, credentials, the Airflow DAGs; object keys are given as months and places in the listing, and a listing is one call.
- Email normalisation beyond ASCII letters and spaces; null emails form one identity, as the window does.
- Random generation other than payment rounding and text formats: arbitrary inputs stand for the draws.
- Float quantities: only columns without units arrive as floats, and the model lets any row do so.
- ctr, cvr and cost per conversion of the campaign fact, store, date and payment dimensions, the check reports' texts: functions of one row that no property here depends on.
- Kafka retention: a partition without a committed offset starts at its first record, and no record expires.
