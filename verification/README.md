# ReportForge core, modelled in Dafny

ReportForge is an asynchronous report pipeline. A FastAPI backend stores
`Report` rows and serves `/reports`: create, list newest first, get, and
delete. Creating a report puts a job on a Celery queue. The worker task
`generate_report` does four things:

- it marks the report `processing`;
- it "generates" the report, which is simulated by a sleep and a random failure;
- on success it marks the report `completed`, with a result URL and a completion time;
- on failure it increments `retry_count`. Celery then re-delivers the job up to three times. The last failure marks the report `failed`.

A React dashboard polls the list. It shows a processing report that has failed before as "retrying". It gives every status a colour and an icon. On delete it removes the row from its cache optimistically and rolls the cache back if the request fails.

The model has one module per part of the system:

| module | file | models |
|---|---|---|
| `Reports` | `reports.dfy` | the `Report` row, its four statuses, and the table as a map from id to row |
| `Api` | `api.dfy` | the four endpoints over the table and the job queue |
| `Worker` | `worker.dfy` | one delivery of a job as two phases, `Begin` and `Settle`; a job's whole chain of deliveries (`RunJob`) |
| `Pipeline` | `pipeline.dfy` | the backend as a state machine: requests and deliveries in any interleaving, with the invariant every reachable state keeps |
| `Service` | `service.dfy` | the CORS origin list parsed from its setting; the health endpoint |
| `Dashboard` | `dashboard.dfy` | the status display, colours and icons; the optimistic delete and its rollback |
| `Text` | `text.dfy` | Python's `str.split` with a one-character separator and `str.strip()`, the two string methods the service applies to its setting; `Join` is not in the service, it is the inverse of `Split` that the round-trip lemmas use |
| `Decimal` | `decimal.dfy` | Python's `str(int)`, which the worker uses to build result URLs |
| `SortedKeys` | `sorted_keys.dfy` | the descending enumeration of a set of ids |
| `Wrappers` | `wrappers.dfy` | `Option` |

## Model

| member | source | states |
|---|---|---|
| Api.NextId | backend/app/models.py:12 | a new primary key is larger than every key already in the table; an empty table hands out 1 |
| Api.Create | backend/app/routers/reports.py:23-36 | the new report gets a key not yet in the table and exactly one row is added. The row has the title as given, status pending, retry count 0, no result URL and no completion time. The returned report is the stored row. Exactly one job for the new id joins the queue, with zero retries |
| Api.GetAfterCreate | backend/app/routers/reports.py:23-36 | fetching a just-created report returns the report the create call returned |
| Api.List | backend/app/routers/reports.py:41-42 | the listing has one entry per stored row, each entry is the row stored under its id, and ids strictly decrease along the listing |
| Api.ListComplete | backend/app/routers/reports.py:41-42 | every stored row appears in the listing |
| Api.Get | backend/app/routers/reports.py:47-57 | the call succeeds exactly when the id is stored and then returns that row; otherwise it fails with not-found |
| Api.Delete | backend/app/routers/reports.py:60-72 | a missing id gives not-found and changes nothing. Otherwise exactly that row is removed, whatever its status, the other rows are untouched and the queue is left as it was |
| Api.GetAfterDelete | backend/app/routers/reports.py:60-72 | after a delete, fetching that id gives not-found |
| SortedKeys.KeysDesc | backend/app/routers/reports.py:42 | the enumeration of ids is strictly descending and holds exactly the given ids |
| Worker.Begin | backend/app/tasks/report_tasks.py:21-31 | the attempt gives up exactly when the row is missing. Otherwise the row's status becomes processing whatever it was, no other column of the row and no other row changes, and no row appears or disappears |
| Worker.Settle | backend/app/tasks/report_tasks.py:40-61 | no row appears or disappears and only the job's own row changes. A success on a row still there completes it with its URL and the success time and leaves its retry count. A failure on a row still there adds one to its retry count, keeps its result fields, and marks it failed when the job has no retries left, else leaves its status. A follow-up job is queued exactly when the attempt failed (or its row is gone) and the job still has retries left; the follow-up carries one more retry |
| Worker.Attempt | backend/app/tasks/report_tasks.py:18-61 | a job whose report is gone changes nothing. A success completes the row with the URL `/reports/<id>.txt` and the given time, and queues nothing. A failure increments the retry count and keeps the result fields. A failure marks the row failed on the fourth attempt and queues nothing; on earlier attempts it leaves the row processing and queues the follow-up |
| Worker.ResultUrlInjective | backend/app/tasks/report_tasks.py:42 | distinct ids get distinct result URLs; a re-used id gets the deleted report's URL again |
| Worker.RunJob | backend/app/tasks/report_tasks.py:12-17 | re-delivering a job until none is queued uses at most one outcome per attempt, never adds or removes a row, and changes no row but its own |
| Worker.RunJobBounded | backend/app/tasks/report_tasks.py:12-17 | a job is attempted at most `max_retries + 1` = 4 times, and no follow-up job exceeds the retry budget |
| Worker.FailuresThenSuccess | backend/app/tasks/report_tasks.py:40-53 | k failures within the budget followed by a success complete the report after k + 1 attempts, with k more recorded retries, its URL and the success time |
| Worker.FailuresExhaust | backend/app/tasks/report_tasks.py:46-61 | failing every remaining attempt marks the report failed, adds one to its retry count per attempt, and leaves its result fields alone |
| Worker.AttemptConsistent | backend/app/tasks/report_tasks.py:18-61 | an attempt keeps every row coherent: a pending row has never been attempted, a completed row has its own URL and a completion time, and a failed row has recorded a failure |
| Worker.RunFromCount | backend/app/tasks/report_tasks.py:46-61 | when a job starts from the row's own retry count, the run ends in one of three states: completed within the budget; failed with a retry count of exactly 4; or still processing with a follow-up job whose retries equal the row's count |
| Worker.RedeliveryReopensCompleted | backend/app/tasks/report_tasks.py:29-31 | a second delivery for a completed report puts it back to processing, and a failing attempt leaves it there with the old URL still set |
| Pipeline.Deliver | backend/app/tasks/report_tasks.py:12-17 | a delivery applies one attempt to the table. As a multiset, the queue afterwards is the queue before, minus the delivered message, plus the attempt's follow-up job if it queued one |
| Pipeline.ApplyInvariant | backend/app/tasks/report_tasks.py:18-61 | every request and every delivery keeps two facts: the table coherent, and every queued job within its retry budget |
| Pipeline.ReplayInvariant | backend/app/tasks/report_tasks.py:18-61 | every state reachable from a state with the invariant, by any interleaving of creates, deletes and deliveries, has the invariant |
| Pipeline.ListAfterCreate | backend/app/routers/reports.py:41-42 | a newly created report heads the listing, pending, above the unchanged earlier listing |
| Pipeline.ListInsertTop | backend/app/routers/reports.py:41-42 | inserting a row whose id exceeds every other puts it first in the listing and leaves the rest of the listing as it was |
| Pipeline.CreatedJobCompletes | backend/app/tasks/report_tasks.py:40-44 | a new report whose job fails k ≤ 3 times and then succeeds ends completed, with retry count k, URL `/reports/<id>.txt` and the success time |
| Pipeline.CreatedJobFails | backend/app/tasks/report_tasks.py:46-61 | a new report whose job fails every attempt ends failed after 4 attempts, with retry count 4 and no result |
| Pipeline.CreatedJobBounded | backend/app/tasks/report_tasks.py:12-17 | whatever the outcomes, a new report's job makes at most 4 attempts, and its retry count never passes 4 |
| Pipeline.StaleJobFailsReusedId | backend/app/tasks/report_tasks.py:55-59 | in a reachable history, a stale job for a deleted report that has used up its retries is delivered to a new report that received the same id. The new report is then failed with a retry count of 1, and the invariant still holds |
| Pipeline.DeleteDuringGeneration | backend/app/tasks/report_tasks.py:46-53 | a report deleted while its generation runs stays deleted: the late write creates no row, and fetching the id gives not-found |
| Service.ParseOrigins | backend/app/main.py:14 | there is one origin per comma-separated piece of the setting, empty pieces included. Each origin is its piece with surrounding whitespace stripped, so it has no surrounding whitespace and no comma |
| Service.ParseJoinedOrigins | backend/app/main.py:14 | trimmed, comma-free origins joined with commas parse back to themselves |
| Service.EmptyPieceKept | backend/app/main.py:14 | `"a,,b"` gives three origins, the middle one empty |
| Service.DefaultOrigins | backend/app/core/config.py:11 | the default setting allows exactly `http://localhost:5173` |
| Service.Health | backend/app/main.py:28-33 | the health reply is status `ok` for service `smart-report-generator` |
| Text.Split | backend/app/main.py:14 | Python's `split` with a separator: one more piece than separators, and no piece contains the separator |
| Text.SplitJoin | backend/app/main.py:14 | splitting the join of separator-free pieces gives the pieces back |
| Text.JoinSplit | backend/app/main.py:14 | joining the pieces of a split gives the string back |
| Text.Strip | backend/app/main.py:14 | Python's `strip`: the result neither starts nor ends with whitespace |
| Text.StripSlice | backend/app/main.py:14 | the stripped string is a contiguous slice of the input with only whitespace before and after it |
| Text.StripIdempotent | backend/app/main.py:14 | stripping twice is stripping once |
| Decimal.IntToStringInjective | backend/app/tasks/report_tasks.py:42 | different ids print differently, which `ResultUrlInjective` rests on |
| Decimal.ParseNatToString | backend/app/tasks/report_tasks.py:42 | reading back a printed natural number gives the number |
| Dashboard.Serialize | backend/app/schemas.py:9-16 | the response body has one JSON object per row, in order, carrying the row's fields and its status name |
| Dashboard.DisplayStatus | frontend/src/App.tsx:5-10 | a report is shown with its own status, except that a processing report with at least one recorded failure is shown as "retrying" instead |
| Dashboard.StoredReportDisplay | frontend/src/App.tsx:5-10 | every status the backend stores displays as a known status, so it gets a colour and an icon of its own. A report reads "retrying" exactly when it is processing after at least one failure |
| Dashboard.StatusColor | frontend/src/App.tsx:12-27 | a status gets the grey fallback colour exactly when it is none of the five known statuses |
| Dashboard.ColorsDistinct | frontend/src/App.tsx:12-27 | the five known statuses have five different colours |
| Dashboard.StatusIcon | frontend/src/App.tsx:29-44 | a status gets the bullet fallback icon exactly when it is none of the five known statuses |
| Dashboard.IconsDistinct | frontend/src/App.tsx:29-44 | the five known statuses have five different icons |
| Dashboard.WithoutId | frontend/src/App.tsx:84-86 | the filtered cache holds exactly the cached rows whose id differs from the deleted one |
| Dashboard.WithoutIdAppend | frontend/src/App.tsx:84-86 | filtering keeps the relative order of the rows it keeps |
| Dashboard.OptimisticRemove | frontend/src/App.tsx:77-89 | after the optimistic update the cache holds exactly the cached rows with another id; with nothing cached it holds an empty list |
| Dashboard.OptimisticMatchesServer | frontend/src/App.tsx:84-86 | removing a report from the cached listing gives exactly the listing the server serves after deleting it |
| Dashboard.Rollback | frontend/src/App.tsx:91-95 | on a failed delete, any snapshot, an empty list included, replaces the cache; without a snapshot the cache is left as it is |
| Dashboard.RollbackRestores | frontend/src/App.tsx:91-95 | a failed delete restores the snapshot taken before the optimistic update. With no snapshot the cache stays the empty list |

## Behaviour a reader might not expect

The model follows the code in each case.

- Retry count after an all-failure run: with `max_retries=3` (`report_tasks.py:16`) one would expect `retry_count` to stop at 3. The code increments `retry_count` on every failed attempt, including the last one (`report_tasks.py:52` runs before the check at line 56). So the count reaches 4 after four attempts (`Pipeline.CreatedJobFails`).
- Failed reports: one would expect a report marked `failed` (`report_tasks.py:56-59`) to have used up its own attempts. Ids are re-used once the top id is deleted, and a job still queued for the deleted report is then delivered to the new report with that id. The check at line 56 reads the job's retry counter, not the row's. `Pipeline.StaleJobFailsReusedId` shows a reachable history in which the new report fails with a retry count of 1 after a single failure. So `Worker.Coherent` promises only a positive retry count for a failed report.
- Result URLs: the URL is built from the id alone (`report_tasks.py:42`). Distinct ids get distinct URLs (`Worker.ResultUrlInjective`), but a report that re-uses a deleted report's id gets that report's URL again.
- Titles: `Report.title` is only declared non-null (`models.py:13`). `ReportCreate` asks only for a string (`schemas.py:6`), and `create_report` checks nothing. So `Api.Create` accepts any title, the empty one included.

## Left out

- Celery: the broker, the worker process and `retry_backoff` delays are left out. A failed attempt that has retries left appends its follow-up job to the queue. `Pipeline.Deliver` may take any waiting message, because the queue promises no order.
- The generation step: `time.sleep` and `random.random()` are replaced by an `Outcome` (success with a clock reading, or failure) that the caller supplies.
- Clocks: `created_at` (the database's `now()`) and `completed_at` (`datetime.utcnow()`) are `Time` parameters. Time zones are not modelled.
- SQLAlchemy sessions and transactions: each phase is one atomic update of the map. `app/database.py` is not part of this model. Keys follow SQLite's rule for an integer primary key (one above the largest, 1 when empty), so a deleted top key can be handed out again.
- Success on a report deleted mid-generation: the ORM's write of the completed row matches no row and raises. In the `except` path, the re-query at `report_tasks.py:47` then runs on a session that waits for a rollback, and that raises too. Either way nothing is written, and Celery retries the job while it has retries left. `Worker.Settle` models exactly that outcome: no write, and a follow-up job while retries remain. That the library raises here is an assumption about SQLAlchemy, not part of the repository's code.
- Concurrency beyond two phases: `Pipeline.Deliver` runs `Begin` and `Settle` as one step. An interleaving between them is covered by `Pipeline.DeleteDuringGeneration` only.
- Worker.RunJob: follows one job's chain of re-deliveries with no other event in between. Arbitrary interleavings are covered only by the invariant in `Pipeline.ReplayInvariant`.
- HTTP: status codes, response validation and the CORS middleware's handling of requests are left out. Only the origin list it is given is modelled. `Base.metadata.create_all` and reading the settings from the environment are also left out; the setting is a parameter of `Service.ParseOrigins`.
- The dashboard's rendering, its 3-second polling, the pause of polling while a delete runs, the create button and the query invalidation after a mutation are left out. The cache is an `Option` of the list of reports; undefined is `None`.
- Dashboard.RollbackRestores: JavaScript truthiness is modelled only for the one value that occurs. The snapshot is an array or undefined, and every array, the empty one included, is truthy.
