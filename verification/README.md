# Forecast upsert and aggregation engine — a Dafny model

This project models the core of the volue-forecast-service: the engine that
validates a batch of hourly power-generation forecasts for one plant, merges
the batch into the per-plant, per-hour forecast store, and aggregates stored
forecasts into hourly company positions over a bounded window. It also proves
properties of that model.

The model is functional. The database is a value (`Storage.Db`). The
write call (`ForecastService.CreateOrUpdateForecast`) takes the database
and returns the reply, the database it leaves and the change event it
hands to the publisher; the reads (`ForecastService.GetForecast`,
`PositionService.GetCompanyPosition`) take the database and return a
result. The clock (`DateTime.UtcNow`) is a parameter `now`.

Modules, following the source's layering:

- `Time`: `DateTime` as a kind plus a tick count, with `Minute`, `Second` and
  `Millisecond` derived from ticks as .NET derives them.
- `Errors`: `DomainErrors` (by code) and the controllers' rule for mapping an
  error to a status code.
- `Results`: `Result` / `Result<T>` with the constructor's invariant.
- `Models`: `ForecastPoint`, `ForecastData`, `UpsertResult`,
  `HourlyPosition`, `CompanyPosition` and `PositionChangedEvent`.
- `Storage`: companies, plants and the `forecasts` table. The table is a map
  keyed by (plant, hour), so the unique index holds by construction.
- `FiniteSets`: ascending listing (ORDER BY) and summation (SUM) over finite
  sets.
- `Validation`: `ValidateForecastPoint` and the shared `ValidateTimeRange`.
  The forecast and position services each carry their own copy of the range
  check, differing only in their error family.
- `ForecastWrite`: the single `INSERT ... ON CONFLICT (plant_id, hour_utc)
  DO UPDATE ... WHERE mwh IS DISTINCT FROM EXCLUDED.mwh` statement and its
  `RETURNING` counts.
- `ForecastRead`, `PositionRead`: the two read repositories.
- `ForecastService`, `PositionService`: the services.

Amounts are exact integers in units of 0.0001 MWh, because the `mwh` column
is `numeric(18,4)`. Amounts are compared exactly, with no tolerance.

Duplicate hours in one batch. The whole batch goes out as one `INSERT ...
ON CONFLICT DO UPDATE` statement, and PostgreSQL aborts such a statement when
one of its proposed rows meets a row the statement has already inserted or
updated. The model follows that rule:

- a batch runs exactly when every point followed by another point for the
  same hour leaves its stored row alone (the row exists and already holds
  that amount), where the model compares hours by tick and the database by
  microsecond; the last point for each hour then decides its row;
- otherwise the statement fails and nothing is written;
- the failure escapes the service as an exception (`Reply.Raised`): neither
  the repository, the service nor the controller catches it.

A consequence: a batch that repeats a stored hour, first with its stored
amount and then with another, is applied once, and the same batch sent again
fails.

## Model

| member | source | states |
|---|---|---|
| Time.HourAlignedIffWithinMillisecond | src/Volue.ForecastService.Services/ForecastService.cs:167-171 | The minute/second/millisecond test passes exactly when the instant lies less than one millisecond after a whole hour |
| Time.SubMillisecondTicksPass | src/Volue.ForecastService.Services/ForecastService.cs:168 | The test does not look below the millisecond: 10:00:00.0009999 passes and 10:00:00.001 fails |
| Errors.HttpStatus | src/Volue.ForecastService.Api/Controllers/ForecastsController.cs:51 | A failure is reported as 404 exactly when its code has "NotFound" as a substring at some position, and as 400 otherwise |
| Errors.NotFoundErrorsMapTo404 | src/Volue.ForecastService.Api/Controllers/ForecastsController.cs:51 | PlantNotFound, CompanyNotFound and PowerPlant.NotFound all map to 404 |
| Errors.ForecastRangeErrorsMapTo400 | src/Volue.ForecastService.Api/Controllers/ForecastsController.cs:82 | Forecast InvalidTimeRange and TimeRangeTooLarge map to 400 |
| Errors.ForecastTimestampErrorsMapTo400 | src/Volue.ForecastService.Api/Controllers/ForecastsController.cs:51 | Forecast InvalidHourAlignment and InvalidTimezone map to 400 |
| Errors.ForecastBatchErrorsMapTo400 | src/Volue.ForecastService.Api/Controllers/ForecastsController.cs:51 | Forecast NegativeMwh and NoDataPoints map to 400 |
| Errors.PositionRangeErrorsMapTo400 | src/Volue.ForecastService.Api/Controllers/PositionsController.cs:51 | Position InvalidTimeRange and TimeRangeTooLarge map to 400 |
| Errors.PositionTimestampErrorsMapTo400 | src/Volue.ForecastService.Api/Controllers/PositionsController.cs:51 | Position InvalidHourAlignment and InvalidTimezone map to 400 |
| Errors.DomainErrorsAreNotNone | src/Volue.ForecastService.Contracts/Common/DomainErrors.cs:8-53 | No domain error is Error.None, so each may be carried by a failure |
| Errors.ForecastErrorsArePrefixed | src/Volue.ForecastService.Contracts/Common/DomainErrors.cs:8-30 | Every forecast error code starts with "Forecast." |
| Errors.PositionErrorsArePrefixed | src/Volue.ForecastService.Contracts/Common/DomainErrors.cs:32-48 | Every position error code starts with "Position.", so the two families share no code |
| Results.Create | src/Volue.ForecastService.Contracts/Common/Result.cs:12-21 | The constructor accepts exactly when success and Error.None coincide, and what it builds is valid with the given fields |
| Results.SuccessOf | src/Volue.ForecastService.Contracts/Common/Result.cs:26 | Result.Success builds a valid success carrying the value, the same result the constructor builds |
| Results.FailureOf | src/Volue.ForecastService.Contracts/Common/Result.cs:27 | Result.Failure with a real error builds a valid failure carrying it |
| Results.FailureOfMatchesConstructor | src/Volue.ForecastService.Contracts/Common/Result.cs:24-27 | Result.Failure agrees with the constructor, whatever default value the constructor is handed |
| Results.DomainFailuresAreValid | src/Volue.ForecastService.Contracts/Common/Result.cs:16-17 | A failure built from any domain error never takes the constructor's throwing branch |
| Models.HasChangesIffInsertedOrUpdated | src/Volue.ForecastService.Contracts/Models/UpsertResult.cs:26-36 | With non-negative counts, HasChanges is false exactly when nothing was inserted or updated, and TotalProcessed = TotalChanged + unchanged |
| Models.UpsertResultExamples | tests/Volue.ForecastService.UnitTests/Models/UpsertResultTests.cs:79-83 | The table of HasChanges cases, plus TotalChanged 8 and TotalProcessed 10 for (5,3,2) |
| Models.SumTotalsAppend | src/Volue.ForecastService.Contracts/Models/CompanyPosition.cs:26 | The company total is additive over any split of the hourly positions |
| Models.SumTotalsSplitAt | src/Volue.ForecastService.Contracts/Models/CompanyPosition.cs:26 | Each hour contributes exactly its own total to the company total |
| Models.EmptyPositionTotalsZero | src/Volue.ForecastService.Contracts/Models/CompanyPosition.cs:16-26 | A position without hours, including the default one, totals zero |
| Models.TotalMwhIsExact | tests/Volue.ForecastService.UnitTests/Models/CompanyPositionTests.cs:13-32 | 100.5 + 150.3 + 200.2 totals exactly 451.0 |
| Validation.ValidateForecastPoint | src/Volue.ForecastService.Services/ForecastService.cs:159-180 | A point passes exactly when it is UTC, on the hour and non-negative. Otherwise the error is timezone, then alignment, then sign, in that order |
| Validation.ValidateTimeRange | src/Volue.ForecastService.Services/ForecastService.cs:182-210 | A range passes exactly when both ends are UTC and on the hour, from < to, and the span is at most 7 days. Each failure reports the first check that fails |
| Validation.SevenDayCeilingIsInclusive | src/Volue.ForecastService.Services/ForecastService.cs:203-207 | A span of exactly 7 days passes; one an hour longer fails with TimeRangeTooLarge |
| Validation.RangeValidatorsAgree | src/Volue.ForecastService.Services/PositionService.cs:64-92 | The two services' copies differ only in their error family, so the model keeps one ValidateTimeRange parameterised by the family; the lemma states what that design gives: the two instances accept the same ranges, fail at the same step, and each reports only its own family's codes |
| Validation.RangeResultsAreValid | src/Volue.ForecastService.Services/ForecastService.cs:135-139 | Range-check results of both services are valid results |
| ForecastWrite.TallyPartition | src/Volue.ForecastService.Repositories/ForecastWriteRepository.cs:67-70 | Every point is classified exactly once: inserted + updated + unchanged = batch size |
| ForecastWrite.ExecuteSucceedsIff | src/Volue.ForecastService.Repositories/ForecastWriteRepository.cs:49-62 | The statement runs to completion exactly when no proposal meets a key it already inserted or updated, which is exactly when every repeated proposal is a no-op against the table |
| ForecastWrite.ExecuteReturnsChangedRows | src/Volue.ForecastService.Repositories/ForecastWriteRepository.cs:58-70 | The RETURNING rows are exactly the inserted and updated proposals, counted against the statement's snapshot |
| ForecastWrite.ExecuteKeepsOthers | src/Volue.ForecastService.Repositories/ForecastWriteRepository.cs:49-62 | The table afterwards holds the old keys plus the batch's, and every key outside the batch keeps its row |
| ForecastWrite.ExecuteWritesBatch | src/Volue.ForecastService.Repositories/ForecastWriteRepository.cs:49-62 | The last proposal for each hour decides its row as it would against the snapshot: a new key gets both timestamps now, a changed amount keeps created_at and sets updated_at now, an equal amount leaves the row alone |
| ForecastWrite.Upsert | src/Volue.ForecastService.Repositories/ForecastWriteRepository.cs:21-122 | An empty batch returns (0,0,0) without a statement. The statement fails exactly when an amount is too large for the column or a point followed by another for its hour would change its row (hours compared by tick; the plant's foreign key is the caller's concern; transaction ids are not modelled). Otherwise the counts are the snapshot classification and sum to the batch size, other keys are kept, and the last point for each hour decides its row |
| ForecastWrite.UpsertStoresLastAmount | src/Volue.ForecastService.Repositories/ForecastWriteRepository.cs:58-62 | After a successful statement every submitted hour is stored with the amount of the last point for that hour |
| ForecastWrite.UpsertLeavesOtherPlants | src/Volue.ForecastService.Repositories/ForecastWriteRepository.cs:42-58 | Rows of other plants are never touched |
| ForecastWrite.UpsertIsIdempotent | src/Volue.ForecastService.Repositories/ForecastWriteRepository.cs:58-62 | Resubmitting an applied batch that gives each hour one amount, at any later time, gives (0,0,n) and leaves the table, timestamps included, unchanged |
| ForecastWrite.FreshBatchInsertsAll | src/Volue.ForecastService.Repositories/ForecastWriteRepository.cs:49-57 | A batch of hours not yet stored runs exactly when its hours are distinct, and then inserts every point: (n,0,0) |
| ForecastWrite.ChangedAmountUpdates | src/Volue.ForecastService.Repositories/ForecastWriteRepository.cs:58-62 | A stored hour resent with a different amount is updated, (0,1,0), with created_at kept and updated_at now |
| ForecastWrite.RepeatedHourFails | src/Volue.ForecastService.Repositories/ForecastWriteRepository.cs:49-62 | Two points for one hour fail the whole statement when the first inserts or updates the row (the hour is not stored, or is stored with another amount), whatever the second amount |
| ForecastWrite.RepeatAfterNoOpApplies | src/Volue.ForecastService.Repositories/ForecastWriteRepository.cs:58-70 | Two points for one hour whose first matches the stored amount go through: (0,0,2) with the table unchanged when the amounts agree, else (0,1,1) with the second amount stored, created_at kept and updated_at now |
| ForecastWrite.ConflictingRepeatFailsOnResubmission | src/Volue.ForecastService.Repositories/ForecastWriteRepository.cs:58-62 | Such a pair with two different amounts is applied once, and the same pair sent again fails the statement |
| ForecastRead.PlantExists | src/Volue.ForecastService.Repositories/ForecastReadRepository.cs:45-52 | True exactly when some stored plant has that id and is active; an inactive or unknown plant is not found |
| ForecastRead.GetForecasts | src/Volue.ForecastService.Repositories/ForecastReadRepository.cs:19-43 | Returns exactly the plant's rows with from <= hour < to, in strictly ascending hour order, with every stored field copied |
| ForecastRead.WindowIsHalfOpen | src/Volue.ForecastService.Repositories/ForecastReadRepository.cs:27-29 | A row at exactly `to` is never returned; a row at exactly `from` is returned when the window is non-empty |
| ForecastRead.ReadIgnoresOtherPlants | src/Volue.ForecastService.Repositories/ForecastReadRepository.cs:27 | Writing another plant's row does not change the answer |
| PositionRead.CompanyExists | src/Volue.ForecastService.Repositories/PositionReadRepository.cs:62-69 | True exactly when some stored company has that id and is active; an inactive or unknown company is not found |
| PositionRead.GetCompanyPosition | src/Volue.ForecastService.Repositories/PositionReadRepository.cs:19-60 | Null exactly for a missing or inactive company. Otherwise: the company's id and name; one position per hour holding a forecast of an active plant of the company in [from, to); hours strictly ascending; each hour's total is the sum over its plants and its plant count is their number, between 1 and the company's active plant count |
| PositionRead.PlantCountBounds | src/Volue.ForecastService.Repositories/PositionReadRepository.cs:49 | Every hour that is reported counts at least one plant and no more than the company's active plants |
| PositionRead.NoDataGivesEmptyPosition | src/Volue.ForecastService.Repositories/PositionReadRepository.cs:38-58 | A window with no contributing forecasts yields an empty Positions list and a zero total |
| PositionRead.NewForecastAddsToItsHour | src/Volue.ForecastService.Repositories/PositionReadRepository.cs:44-50 | Storing a new contributing forecast adds its amount to its hour's total and one to its plant count |
| PositionRead.OtherForecastsDoNotCount | src/Volue.ForecastService.Repositories/PositionReadRepository.cs:40-43 | Writing a forecast of another company's plant, of an inactive plant, or outside the window leaves the position unchanged |
| ForecastService.ValidatePoints | src/Volue.ForecastService.Services/ForecastService.cs:58-66 | Succeeds exactly when every point is valid; otherwise reports the error of a point all of whose predecessors are valid, that is, the first invalid point |
| ForecastService.Earliest | src/Volue.ForecastService.Services/ForecastService.cs:212-216 | The event's FromHourUtc is a submitted hour no later than any other |
| ForecastService.Latest | src/Volue.ForecastService.Services/ForecastService.cs:212-216 | The event's ToHourUtc is a submitted hour no earlier than any other |
| ForecastService.CreateOrUpdateForecast | src/Volue.ForecastService.Services/ForecastService.cs:38-118 | The checks run in order: inactive or missing plant, then empty batch, then the first invalid point; none of these writes. A failed statement raises and writes nothing. On success the response carries the snapshot counts and TotalProcessed = batch size. An event is published exactly when something changed, carrying the plant's company, the earliest and latest hours, and the correlation id (or "") |
| ForecastService.GetForecast | src/Volue.ForecastService.Services/ForecastService.cs:120-157 | PlantNotFound first, then the range check's error; succeeds exactly for an active plant and an acceptable range, echoing the window and returning the repository's rows |
| ForecastService.ResubmissionIsSilent | src/Volue.ForecastService.Services/ForecastService.cs:79-105 | Resubmitting an accepted batch that gives each hour one amount reports every point unchanged, hasChanges false, changes nothing and publishes no event |
| ForecastService.ReadAfterWrite | src/Volue.ForecastService.Services/ForecastService.cs:38-157 | After an accepted submission, a read over any acceptable window containing a submitted hour succeeds and returns that hour with the amount of the last point sent for it |
| ForecastService.SubmissionKeepsRowsValid | src/Volue.ForecastService.Services/ForecastService.cs:58-72 | If every stored forecast is on the hour and non-negative before a submission, that still holds after it, whatever was sent |
| PositionService.GetCompanyPosition | src/Volue.ForecastService.Services/PositionService.cs:27-62 | CompanyNotFound first, then the range check's error, then CompanyNotFound again if the aggregation query finds no company; success carries the repository's position |
| PositionService.SameSnapshotAlwaysFindsCompany | src/Volue.ForecastService.Services/PositionService.cs:49-55 | When both queries see one database, an existing company with a valid range always gets its position |
| PositionService.WeekPositionIsInWindow | src/Volue.ForecastService.Services/PositionService.cs:17 | A 7-day window starting on the hour is accepted, and every reported hour lies inside it |

## Left out

- Error messages: errors are modelled by code, and the controllers branch on the code only.
- Row ids, event ids and the event's occurrence time are not modelled. They are fresh random or clock values that no property depends on.
- Logging, the fire-and-forget publication task, the RabbitMQ and null publishers: the model returns the event handed to the publisher.
- HTTP controllers, middleware and correlation-id plumbing, except the status-code rule, which is modelled. The exception-handling middleware that answers a failed statement is not modelled; the model stops at `Reply.Raised`.
- Concurrency: the model runs calls one at a time. A position request runs three queries: the service's `CompanyExistsAsync`, then the repository's company lookup and its aggregate. The model gives the service's check its own snapshot (`checked`) and reads both repository queries from one later snapshot (`read`), so a change between the check and the lookup is modelled, while a change between the lookup and the aggregate is not.
- `timestamptz` microsecond precision and kind: the model keys rows and compares window bounds by the exact tick count, while the database keeps whole microseconds. Validated hours are whole hours plus less than one millisecond, and two of them closer than one microsecond (10:00 plus 1 tick and 10:00 plus 2 ticks, say) are one key in the database but two keys in the model; likewise a window bound a few ticks past an hour includes that hour's row in the database but not in the model. `created_at` and `updated_at` are stored as the `now` parameter itself, with its full tick count and its own kind; the database keeps them to the microsecond and reads them back with kind Utc.
- Rounding of amounts with more than four decimals into `numeric(18,4)`: amounts are already whole 0.0001 MWh units in the model.
- `DateTime.MaxValue` and the upper tick bound: ticks are unbounded naturals.
- ForecastWrite.Upsert: its "fails exactly when" holds for hours compared by tick. In the database, two validated hours less than one microsecond apart are one key, so such a batch can abort there while the model applies it (see the `timestamptz` line).
- ForecastWrite.Upsert: the foreign key from `forecasts.plant_id` to `power_plants` is not modelled, because the upsert sees only the forecasts table and its only caller checks that the plant exists and is active first. A batch for a missing plant would fail in the database but is applied by the model.
- ForecastWrite.Upsert: transaction ids are not modelled, so neither is the failure of the `xmax::text::int` cast in the statement's RETURNING clause (ForecastWriteRepository.cs:64-65). An updated row's `xmax` is the current transaction id, an unsigned 32-bit number; once the database's transaction ids pass 2^31 - 1, every statement that updates at least one row fails there with an integer-out-of-range error, while the model applies it. Batches that only insert or leave rows unchanged are unaffected.
- ForecastWrite.Upsert: the `reader.ReadAsync` fallback that returns (0, 0, total) is not modelled, because an aggregate query always returns one row.
- Counts are unbounded integers; the source's `int` counts cannot overflow for any batch that fits in a request.
- Plant and company listing endpoints (`PowerPlantService`, `PowerPlantRepository` beyond `GetPlantByIdAsync`) are not part of the engine.
- The event publisher's serialization and routing are not part of this model.
