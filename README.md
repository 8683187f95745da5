# Star Wars server: request statistics and catalog lookups

A Dafny model of the server side of the Star Wars catalog application: the
pipeline that records API requests and turns them into statistics, and the
catalog layer that stores and looks up movies and people.

The parts of the pipeline:

- The **request-event store** (`RequestEvents`) is the `request_events`
  table. The table is a class whose `rows: seq<Event>` field is reassigned by
  the insert, update and delete methods. Each `SELECT` statement is a function
  of the rows. These are the pending read, the status and recent reads, the
  `GROUP BY status` counts, the top-5 paths, the top-3 popular characters and
  movies, the content-popularity pair and the unique paths. The grouped
  rankings share one model of `GROUP BY key ORDER BY count DESC LIMIT n`
  (`Ranking`). Its contracts state distinct keys, exact counts,
  non-increasing order, and that a key is left out only when it counts no
  more than the entries kept. They never pin down one order for ties.
- The **request recorder** (`RequestInterceptor`) is the middleware. It runs
  the handler and then inserts a pending event, but only when the handler
  answered 200 and the path does not contain `/statistics`. A handler error is
  rethrown, and an insert failure is swallowed.
- The **statistics worker** (`StatisticsWorker`) is a class with the fields
  `isRunning` and `intervalId` and the set of live timers. `Start` and `Stop`
  are idempotent. `Tick` is one firing of a live timer. Each cycle drains the
  pending events to processed, then appends one snapshot.
- The **snapshot store** (`StatisticsTable`) is the `statistics` table. It is
  shared by `StatisticsDatabase` and by the duplicate front
  `StatisticsTableService`, and `StatisticsService` holds the decoding read.
- The **read side** is made of three parts:
  - `StatisticsRoutes` is the GET handler. It answers with the populated
    body, with a flat placeholder when there is no snapshot, or with a 500
    error body.
  - `WindowStatistics` computes statistics for a time window on demand.
  - `StatisticsService` decodes the latest row.

The catalog has three layers:

- `Entities` is the `entities` table, keyed by `(id, type)`. Writing to it is
  an `INSERT OR REPLACE`.
- `MovieDatabase` and `PeopleDatabase` are the stores. Each offers a save, a
  get, a list, a search with a limit, and an exists check.
- `MovieService` and `PeopleService` add the detail lookups. A lookup
  resolves the related ids in order, drops the ids that find nothing, and
  fails with `EntityNotFoundException` for an unknown id.

Faults, clocks and fresh ids are parameters:

- The clock readings are `now` arguments.
- The request id is an argument.
- Which database calls throw is a `fails` flag or a `Faults` record.

Choices the model makes where the code is unusual:

- `updateEventComplete` writes the status `'completed'`, which the declared
  status union does not contain. `Status` therefore has a constructor for it.
- The worker imports the snapshot cleanup but never calls it. Its cycle does
  not look up names for the popular entities either. The modelled cycle does
  neither.
- The windowed statistics pass no start to the top-5 query. So their top-5
  list always covers every processed event, whatever the window.
- Snapshot cleanup deletes a row only when both conditions hold: the row is
  older than the cutoff, and it is not among the 10 most recent. The comment
  at server/src/database/statisticsTableService.ts:106 names only the count
  ("keep last 10 records"), but the statement also applies the 7-day cutoff,
  and the model follows the statement.
- `insertEvent` uses `||` defaults. A response time or status code of 0 is
  stored as `NULL`, and a missing status is stored as `'pending'`.

## Model

| member | source | states |
|---|---|---|
| RequestEvents.RowOfStores | server/src/database/requestEventsService.ts:120-135 | an inserted row keeps the id, method, path and timestamp; its status defaults to pending; a response time or status code of 0 or absent is stored as NULL, and any other value as given |
| RequestEvents.UpdateStatusFrame | server/src/database/requestEventsService.ts:50-54 | a status update keeps the row count, rewrites only the status of the rows with that id, leaves every other row unchanged, and changes nothing for an unknown id |
| RequestEvents.UpdateResponseFrame | server/src/database/requestEventsService.ts:55-59 | a response update keeps the row count, sets the response time, status code and status of the rows with that id and keeps their other columns, leaves every other row unchanged, and changes nothing for an unknown id |
| RequestEvents.MarkOneMore | server/src/database/requestEventsService.ts:173-180 | marking one more id processed is the same as marking the enlarged set of ids |
| RequestEvents.SelectNonCompleted | server/src/database/requestEventsService.ts:60-64 | the pending read is a reordering of exactly the pending rows, in ascending timestamp order |
| RequestEvents.SelectByStatus | server/src/database/requestEventsService.ts:65-69 | the status read is a reordering of exactly the rows with that status, newest first |
| RequestEvents.SelectRecentProcessed | server/src/database/requestEventsService.ts:70-74 | the recent read is a reordering of exactly the processed rows no older than the start, newest first |
| RequestEvents.SelectsExact | server/src/database/requestEventsService.ts:60-74 | each read returns every row its WHERE clause selects, as often as it is stored, and no other row |
| RequestEvents.StatusCountsSum | server/src/database/requestEventsService.ts:75-79 | the four status counts add up to the number of rows |
| RequestEvents.CountStatusAppend | server/src/database/requestEventsService.ts:45-49 | appending a row adds one to its status's count and leaves the other counts unchanged |
| RequestEvents.StatusGroups | server/src/database/requestEventsService.ts:75-79 | every group of GROUP BY status carries the exact, non-zero count of its status |
| RequestEvents.StatusGroupsComplete | server/src/database/requestEventsService.ts:75-79 | every status that occurs has a group |
| RequestEvents.EventCountsByStatus | server/src/database/requestEventsService.ts:209-221 | a status is a key exactly when rows have it, and its value is its row count |
| RequestEvents.CountsMapUnique | server/src/database/requestEventsService.ts:209-221 | the counts map is the only map with those two properties |
| RequestEvents.EventCountsSum | server/src/database/requestEventsService.ts:209-221 | the values of the counts map, with an absent key read as 0, sum to the number of rows |
| RequestEvents.PathHitsAreOccurrences | server/src/database/requestEventsService.ts:80-87 | the count of a path is the number of processed rows with exactly that path |
| RequestEvents.PopularCharacters | server/src/database/requestEventsService.ts:88-99 | at most 3 distinct slash-free ids, counts non-increasing, each count the number of processed requests to `/api/people/<id>` |
| RequestEvents.PopularMovies | server/src/database/requestEventsService.ts:100-111 | at most 3 distinct slash-free ids, counts non-increasing, each count the number of processed requests to `/api/movies/<id>` |
| RequestEvents.Top5Queries | server/src/database/requestEventsService.ts:80-87 | at most 5 distinct paths, each with its exact processed count, which is non-zero; counts are non-increasing; an omitted path was requested by no processed row, or the list is full and every entry counts at least as much |
| RequestEvents.UniquePaths | server/src/database/requestEventsService.ts:273-288 | every processed path appears exactly once with its exact count, the counts are non-increasing, nothing else appears, and the result is empty when the statement fails |
| RequestEvents.DetailIdIff | server/src/database/requestEventsService.ts:88-99 | a path yields the id exactly when it is the prefix followed by that id and the id contains no `/` |
| RequestEvents.EntityIdsCount | server/src/database/requestEventsService.ts:88-111 | an extracted id contains no `/`, and it is counted exactly as often as its own detail path was requested, so sub-resource paths never count |
| RequestEvents.PopularEntities | server/src/database/requestEventsService.ts:88-111 | at most 3 distinct ids, each counted over its exact detail path among processed rows; counts are non-increasing; an omitted id was not requested, or the list is full and every entry counts at least as much |
| RequestEvents.ContentPopularityStats | server/src/database/requestEventsService.ts:254-270 | both popular lists when both statements succeed, and two empty lists when either fails |
| RequestEvents.RetainedEvents | server/src/database/requestEventsService.ts:291-307 | the delete keeps exactly the rows that are not both processed and older than the cutoff; non-processed rows always survive; the length drops by the number of rows that are both |
| RequestEvents.FilterKeepsDistinctIds | server/src/database/requestEventsService.ts:291-307 | deleting rows keeps the primary key unique |
| RequestEvents.RequestEventsService.InsertEvent | server/src/database/requestEventsService.ts:120-135 | a fresh id appends exactly the bound row and leaves the earlier rows unchanged; a taken id fails and changes nothing |
| RequestEvents.RequestEventsService.UpdateEventStatus | server/src/database/requestEventsService.ts:137-144 | the new rows are the old ones with the status of the matching rows rewritten |
| RequestEvents.RequestEventsService.UpdateEventResponse | server/src/database/requestEventsService.ts:146-153 | the matching rows get the response time, the status code and status pending |
| RequestEvents.RequestEventsService.UpdateEventComplete | server/src/database/requestEventsService.ts:155-162 | the matching rows get the response time, the status code and status completed |
| RequestEvents.RequestEventsService.UpdateEventFailed | server/src/database/requestEventsService.ts:164-171 | the matching rows get the response time, status code 500 and status failed |
| RequestEvents.RequestEventsService.MarkEventProcessed | server/src/database/requestEventsService.ts:173-180 | the matching rows become processed, and nothing else changes |
| RequestEvents.RequestEventsService.GetNonCompletedEvents | server/src/database/requestEventsService.ts:182-189 | delegates to the pending selection: exactly the pending rows, by ascending timestamp |
| RequestEvents.RequestEventsService.GetEventsByStatus | server/src/database/requestEventsService.ts:191-198 | delegates to the status selection: exactly the rows with that status, by descending timestamp |
| RequestEvents.RequestEventsService.GetRecentCompletedEvents | server/src/database/requestEventsService.ts:200-207 | delegates to the recent selection: exactly the processed rows at or after `since`, by descending timestamp |
| RequestEvents.RequestEventsService.GetTop5Queries | server/src/database/requestEventsService.ts:224-231 | delegates to `Top5Queries`: at most 5 distinct paths with their exact processed counts, non-increasing |
| RequestEvents.RequestEventsService.GetMostPopularCharacters | server/src/database/requestEventsService.ts:234-241 | delegates to `PopularCharacters`: at most 3 ids, counts non-increasing, each the processed hits of its people path |
| RequestEvents.RequestEventsService.GetMostPopularMovies | server/src/database/requestEventsService.ts:244-251 | delegates to `PopularMovies`: at most 3 ids, counts non-increasing, each the processed hits of its movie path |
| RequestEvents.RequestEventsService.GetEventCountsByStatus | server/src/database/requestEventsService.ts:209-221 | the dictionary that the loop fills from the grouped rows equals the counts map |
| RequestEvents.RequestEventsService.CleanupOldEvents | server/src/database/requestEventsService.ts:291-307 | deletes the processed rows older than the cutoff (30 days by default), keeps the key unique, and returns the number deleted |
| Ranking.RankAll | server/src/database/requestEventsService.ts:273-288 | every key once with its exact occurrence count, in non-increasing order, and no other key |
| Ranking.TopN | server/src/database/requestEventsService.ts:80-87 | at most n distinct keys with their exact counts, non-increasing; a key is left out only when the list is full and it counts no more than any entry |
| Clock.DaysBefore | server/src/statistics/database.ts:69-70 | the cutoff lies exactly `days` 24-hour days before now, so for a non-negative count it is never after now |
| RequestInterceptor.RecordsIff | server/src/middleware/requestInterceptor.ts:18-31 | a request is recorded exactly when the handler answered 200 and `/statistics` occurs nowhere in its path |
| RequestInterceptor.RecordedEvent | server/src/middleware/requestInterceptor.ts:43-55 | the insert carries the request id, method and path, the timestamp taken before the handler ran, the elapsed time, status code 200 and status pending |
| RequestInterceptor.RecordedRow | server/src/middleware/requestInterceptor.ts:43-55 | the stored row is pending with status code 200, and its response time is NULL exactly when no time elapsed |
| RequestInterceptor.Intercept | server/src/middleware/requestInterceptor.ts:17-63 | a handler error is rethrown unchanged; a recorded request with a fresh id appends exactly its event; every other request, and a failed insert, leaves the store unchanged and completes normally |
| StatisticsTable.RowOf | server/src/statistics/database.ts:42-55 | the stored row keeps the inserted values; a present popular list is stored as given, and a popular list is NULL exactly when it was absent |
| StatisticsTable.Decode | server/src/statistics/service.ts:15-21 | the top-5 list, the total and the timestamp pass through; a NULL popular list decodes to `[]` and a present one to itself |
| StatisticsTable.DecodeRowOf | server/src/statistics/service.ts:15-21 | decoding a stored snapshot gives back what was inserted, with an absent popular list read as `[]` |
| StatisticsTable.ByRecency | server/src/statistics/database.ts:21-25 | a reordering of the rows by computed_at, newest first |
| StatisticsTable.Latest | server/src/statistics/database.ts:21-25 | nothing exactly when the table is empty; otherwise a stored row that no row is newer than |
| StatisticsTable.LatestAfterNewerInsert | server/src/database/statisticsTableService.ts:69-99 | after inserting a snapshot newer than every stored one, the latest read returns its row, and that row decodes to the inserted values |
| StatisticsTable.CleanupRows | server/src/statistics/database.ts:26-34 | keeps exactly the rows that are not older than the cutoff or are among the 10 most recent; rows not older than the cutoff always survive; the count removed is the number of rows that are both older and outside the 10 |
| StatisticsTable.CleanupKeepsTen | server/src/statistics/database.ts:26-34 | at least min(10, rows) rows remain after cleanup |
| StatisticsTable.CleanupKeepsLatest | server/src/statistics/database.ts:26-34 | the latest row survives cleanup and is still the newest |
| StatisticsTable.CleanupKeepsNewestAnyOrder | server/src/statistics/database.ts:21-34 | whichever descending order of computed_at the sub-query uses, cleanup of a non-empty table keeps a row that no stored row is newer than |
| StatisticsTable.Table.SelectLatest | server/src/statistics/database.ts:21-25 | delegates to `Latest`: nothing exactly when the table is empty; otherwise a stored row that no row is newer than |
| StatisticsTable.FilterKeepsDistinct | server/src/statistics/database.ts:26-34 | deleting rows keeps the row ids distinct |
| StatisticsTable.Table.Insert | server/src/statistics/database.ts:17-20 | appends exactly one row under the next id and leaves the others unchanged |
| StatisticsTable.Table.Cleanup | server/src/statistics/database.ts:26-34 | the new rows are the cleanup result for the cutoff; returns the count deleted |
| StatisticsDatabase.InsertStatistics | server/src/statistics/database.ts:42-55 | appends exactly one row built from the snapshot |
| StatisticsDatabase.GetLatestStatistics | server/src/statistics/database.ts:57-65 | null exactly when the table is empty; otherwise a stored row with the greatest computed_at |
| StatisticsDatabase.CleanupOldStatistics | server/src/statistics/database.ts:67-78 | deletes the rows older than daysToKeep days (7 by default) that are outside the 10 most recent, and returns how many |
| StatisticsService.InsertStatistics | server/src/statistics/service.ts:4-6 | delegates to the store and appends exactly one row |
| StatisticsService.GetLatestStatistics | server/src/statistics/service.ts:8-22 | null exactly when the table is empty; otherwise the decoding of a newest row |
| StatisticsService.CleanupOldStatistics | server/src/statistics/service.ts:24-26 | delegates to the store's cleanup with 7 days by default |
| StatisticsService.InsertThenReadLatest | server/src/statistics/service.ts:4-22 | inserting a snapshot newer than every stored one and then reading the latest gives back that snapshot, with absent lists as `[]` |
| StatisticsTableService.StatisticsTableService.InsertStatistics | server/src/database/statisticsTableService.ts:69-82 | appends exactly one row; an absent popular list is stored as NULL |
| StatisticsTableService.StatisticsTableService.GetLatestStatistics | server/src/database/statisticsTableService.ts:85-104 | null exactly when the table is empty; otherwise the decoding of a row with the greatest computed_at |
| StatisticsTableService.StatisticsTableService.CleanupOldStatistics | server/src/database/statisticsTableService.ts:107-118 | the cleanup result for the cutoff (7 days by default), and the count deleted |
| StatisticsWorker.AllTimeStatistics | server/src/workers/statisticsWorker.ts:78-108 | the top-5 paths, the processed total and both popular lists, or all empty and 0 when a query throws |
| StatisticsWorker.DrainedEffect | server/src/workers/statisticsWorker.ts:110-130 | a drain keeps the row count; every pending row whose own update did not fail becomes processed; every other row is unchanged |
| StatisticsWorker.MarkPendingCounts | server/src/workers/statisticsWorker.ts:110-130 | marking exactly the pending rows moves the pending count into the processed count |
| StatisticsWorker.CycleTotal | server/src/workers/statisticsWorker.ts:85-119 | from N pending and no processed events, a cycle without failures stores a snapshot whose total is N |
| StatisticsWorker.DrainStep | server/src/workers/statisticsWorker.ts:117-123 | marking the next event, or skipping it when its update throws, extends the set of handled ids by that event |
| StatisticsWorker.SelectedPending | server/src/workers/statisticsWorker.ts:112 | an event is among those read exactly when it is a pending row |
| StatisticsWorker.SelectedPendingIds | server/src/workers/statisticsWorker.ts:112-123 | the ids the loop visits are exactly the ids of the pending rows |
| StatisticsWorker.DrainComplete | server/src/workers/statisticsWorker.ts:112-123 | once the loop has visited every event read, the marked ids are the pending ids less the failed ones, which is the drain |
| StatisticsWorker.StatisticsWorker.MarkEach | server/src/workers/statisticsWorker.ts:117-123 | the loop marks the id of every event it visits processed, except the ids whose update throws, and a failure does not stop the remaining events |
| StatisticsWorker.StatisticsWorker.constructor | server/src/workers/statisticsWorker.ts:5-6 | a new worker is stopped, with no timer installed |
| StatisticsWorker.StatisticsWorker.IsWorkerRunning | server/src/workers/statisticsWorker.ts:132-134 | running exactly when a timer is installed |
| StatisticsWorker.StatisticsWorker.ProcessPendingEvents | server/src/workers/statisticsWorker.ts:110-130 | the event rows after the loop are the drained rows: every pending id is processed except the ids whose update threw, and nothing is marked when the read threw |
| StatisticsWorker.StatisticsWorker.ComputeStatisticsForTimeWindow | server/src/workers/statisticsWorker.ts:78-108 | returns the all-time figures of the current rows, or the zeroed figures when a query throws |
| StatisticsWorker.StatisticsWorker.ComputeAndStoreStatistics | server/src/workers/statisticsWorker.ts:53-76 | appends one snapshot, zeroed when the computation failed, or nothing when the insert throws |
| StatisticsWorker.StatisticsWorker.ProcessStatistics | server/src/workers/statisticsWorker.ts:42-51 | a cycle only drains event statuses and appends at most one snapshot; it deletes nothing |
| StatisticsWorker.StatisticsWorker.Start | server/src/workers/statisticsWorker.ts:8-24 | when stopped: running, one live timer, and one cycle run at once; when already running: nothing changes; either way exactly one timer is live |
| StatisticsWorker.StatisticsWorker.Stop | server/src/workers/statisticsWorker.ts:26-40 | afterwards the worker is stopped, intervalId is null and no timer is live |
| StatisticsWorker.StatisticsWorker.Tick | server/src/workers/statisticsWorker.ts:17-19 | a live timer runs one cycle; a cleared one changes nothing |
| WindowStatistics.EmptyStats | server/src/services/statisticsService.ts:14-25 | no queries, a total of 0, updated now, over the window [now-5min, now] |
| WindowStatistics.ComputeStatistics | server/src/services/statisticsService.ts:27-60 | 'last5min' counts the processed events of the last five minutes over the window [now-5min, now]; other windows count every processed event from 0; top-5 always covers all processed events; on an error, empty stats with the window [now-5min, now] |
| WindowStatistics.WindowTotals | server/src/services/statisticsService.ts:39-45 | the five-minute total never exceeds the all-time total, and 'alltime' equals an omitted window |
| WindowStatistics.FilterCountStatus | server/src/services/statisticsService.ts:39-45 | a selection of processed rows counts no more than all processed rows |
| WindowStatistics.GetDatabaseEventCounts | server/src/services/statisticsService.ts:63-70 | the per-status counts, or `{}` when the query throws |
| StatisticsRoutes.GetStatistics | server/src/statistics/routes.ts:9-43 | no snapshot: the no-data message with the flat placeholder at now; a snapshot: its timestamp, top-5, total and popular lists in the nested shape; a thrown read: status 500 with the error's message or 'Unknown error' |
| StatisticsRoutes.ServedFromTable | server/src/statistics/routes.ts:13-36 | served from a table, the placeholder appears exactly when the table is empty; otherwise the body carries a newest row's figures |
| Entities.Upsert | server/src/movies/database.ts:20-23 | the written row is present, and the other rows are the old ones without that key |
| Entities.Find | server/src/movies/database.ts:24 | a found row is stored and has the key; nothing is found only when no row has it |
| Entities.FindUnique | server/src/database/init.ts:11-17 | with a unique key, the lookup finds the one row that has it |
| Entities.FindUpsert | server/src/movies/database.ts:20-24 | after an upsert its own key finds the new row and every other key finds what it found before |
| Entities.UpsertKeepsKeys | server/src/database/init.ts:11-17 | an upsert keeps the (id, type) key unique |
| Entities.FilterKeepsUnique | server/src/database/init.ts:16 | deleting rows keeps the key unique |
| Entities.EntityTable.InsertOrReplace | server/src/movies/database.ts:20-23 | the new rows are the upsert of the old ones, with the key still unique |
| Entities.Resolve | server/src/movies/service.ts:42 | never more records than ids |
| Entities.ResolveAppend | server/src/movies/service.ts:42 | resolving keeps the order of the ids |
| Entities.ResolveMembers | server/src/movies/service.ts:42 | a record is in the result exactly when some id finds it |
| Entities.ResolveAllFound | server/src/movies/service.ts:42 | when every id finds a record nothing is dropped, and the i-th record is what the i-th id finds |
| MovieDatabase.SaveMovie | server/src/movies/database.ts:34-37 | the table becomes the upsert of the movie row under (id, 'movie') |
| MovieDatabase.GetMovie | server/src/movies/database.ts:39-45 | a found record is held by a movie row with that id; null when no movie row has the id |
| MovieDatabase.MovieExists | server/src/movies/database.ts:60-62 | delegates to `GetMovie`: true only when a movie row has the id, false when none has |
| MovieDatabase.MovieExistsIff | server/src/movies/database.ts:60-62 | a movie exists exactly when a movie row has the id, and the record found carries that id |
| MovieDatabase.SaveThenGet | server/src/movies/database.ts:34-45 | after saving (id, p), the lookup of id returns p with id |
| MovieDatabase.UpsertKeepsOtherMovies | server/src/movies/database.ts:20-24 | saving another movie or any person leaves the lookup of a movie id unchanged |
| MovieDatabase.GetAllMovies | server/src/movies/database.ts:47-50 | exactly the records of the movie rows |
| MovieDatabase.Matching | server/src/movies/database.ts:26 | exactly the stored movies whose title contains the query |
| MovieDatabase.SearchMovies | server/src/movies/database.ts:52-58 | the first min(limit, matches) matching movies (limit 10 by default), each as its id and title |
| MovieDatabase.SearchMoviesSound | server/src/movies/database.ts:52-58 | at most limit entries, each the id and title of a stored movie whose title contains the query |
| MovieDatabase.SearchMoviesComplete | server/src/movies/database.ts:52-58 | a search shorter than the limit lists every matching movie |
| PeopleDatabase.SavePerson | server/src/people/database.ts:35-38 | the table becomes the upsert of the person row under (id, 'person') |
| PeopleDatabase.GetPerson | server/src/people/database.ts:40-46 | a found record is held by a person row with that id; null when no person row has the id |
| PeopleDatabase.PersonExists | server/src/people/database.ts:61-63 | delegates to `GetPerson`: true only when a person row has the id, false when none has |
| PeopleDatabase.PersonExistsIff | server/src/people/database.ts:61-63 | a person exists exactly when a person row has the id, and the record found carries that id |
| PeopleDatabase.SaveThenGet | server/src/people/database.ts:35-46 | after saving (id, p), the lookup of id returns p with id |
| PeopleDatabase.UpsertKeepsOtherPeople | server/src/people/database.ts:21-25 | saving another person or any movie leaves the lookup of a person id unchanged |
| PeopleDatabase.GetAllPeople | server/src/people/database.ts:48-51 | exactly the records of the person rows |
| PeopleDatabase.Matching | server/src/people/database.ts:27 | exactly the stored people whose name contains the query |
| PeopleDatabase.SearchPeople | server/src/people/database.ts:53-59 | the first min(limit, matches) matching people (limit 10 by default), each as its id and name |
| PeopleDatabase.SearchPeopleSound | server/src/people/database.ts:53-59 | at most limit entries, each the id and name of a stored person whose name contains the query |
| PeopleDatabase.SearchPeopleComplete | server/src/people/database.ts:53-59 | a search shorter than the limit lists every matching person |
| PeopleDatabase.TransformToBasePerson | server/src/people/database.ts:66-71 | keeps exactly the id and the name |
| MovieService.SearchMovies | server/src/movies/service.ts:28-34 | the store's search with `''` for a missing query, each entry mapped to its title and id, keeping order and length |
| MovieService.SearchWithoutQuery | server/src/movies/service.ts:28-34 | without a query the result is the first ten stored movies, with their ids and titles |
| MovieService.TransformToMovie | server/src/movies/service.ts:57-64 | the id, title and opening crawl of the record, and each character as its id and name, in order |
| MovieService.TransformToMovieDropsRest | server/src/movies/service.ts:57-64 | the result depends on no other movie property |
| MovieService.GetMovie | server/src/movies/service.ts:36-45 | an unknown id fails with "Movie with id '<id>' not found"; otherwise the projection of the record with its characters looked up in order, missing ones dropped |
| MovieService.GetMovieFromTable | server/src/movies/service.ts:36-45 | read from a well-formed table, the lookup fails exactly when no movie row has the id; a found movie carries the id, its title and crawl, and no more characters than character ids |
| MovieService.GetMovieCharactersFound | server/src/movies/service.ts:42 | every listed character is the person one of the movie's character ids finds |
| MovieService.GetMovieCharactersAll | server/src/movies/service.ts:42 | every character id that finds a person puts that person among the characters |
| PeopleService.GetPeople | server/src/people/service.ts:30-33 | the store's search with `''` for a missing name, each entry kept with its name and id, in order |
| PeopleService.GetPeopleWithoutName | server/src/people/service.ts:30-33 | without a name the result is the first ten stored people, with their ids and names |
| PeopleService.TransformToPerson | server/src/people/service.ts:51-63 | the id, name, birth year, gender, eye colour, hair colour, height and mass of the record, and each film as its id and title, in order |
| PeopleService.TransformToPersonDropsRest | server/src/people/service.ts:51-63 | the result depends on no other person property: skin colour, homeworld and the rest are dropped |
| PeopleService.GetPerson | server/src/people/service.ts:35-44 | an unknown id fails with "Person with id '<id>' not found"; otherwise the projection of the record with its films looked up in order, missing ones dropped |
| PeopleService.GetPersonFromTable | server/src/people/service.ts:35-44 | read from a well-formed table, the lookup fails exactly when no person row has the id; a found person carries the id and name, and no more films than film ids |
| PeopleService.GetPersonMoviesFound | server/src/people/service.ts:41 | every listed film is the movie one of the person's film ids finds |
| PeopleService.GetPersonMoviesAll | server/src/people/service.ts:41 | every film id that finds a movie puts that movie among the films |

## Left out

- Instants are integers (milliseconds). The source stores ISO-8601 strings and compares them as text, which orders them the same way for the dates this system produces. JSON encoding of the list columns and the entity records is left out too: the values are stored as structured data.
- Clock.DaysBefore: moves back by whole 24-hour days, while `setDate(getDate() - days)` moves back by calendar days. The two differ across a daylight-saving change.
- MovieDatabase.SearchMovies: finds titles by case-sensitive substring containment. SQLite's `LIKE` ignores ASCII case and treats `%` and `_` inside the query as wildcards.
- PeopleDatabase.SearchPeople: finds names by case-sensitive substring containment, for the same reason as the movie search.
- RequestEvents.DetailId: matches the prefix case-sensitively and treats `%` and `_` as ordinary characters. The `LIKE` patterns in the popularity statements are case-insensitive for ASCII.
- MovieDatabase.SearchMovies: the limit is a natural number. A negative `LIMIT`, which SQLite reads as no limit, is not modelled.
- Ties: each `ORDER BY` puts equal keys in one fixed order. SQL leaves that order unspecified, so the contracts state only the sortedness and the contents of each result, with the one exception below.
- StatisticsTable.CleanupKeepsLatest: assumes that the latest read and the cleanup sub-query break ties on computed_at the same way, as the model's single recency order does; `CleanupKeepsNewestAnyOrder` states the fact that holds for any tie order, namely that some row with the greatest computed_at survives.
- Reads without `ORDER BY` (the entity list, the search and the top-5 candidates before sorting) return the rows in table order.
- Event insert failures: the only failure modelled is a duplicate primary key. Storage faults in the worker, the windowed statistics and the popularity reads are `fails` or `Faults` parameters instead of real database errors.
- The `request_events` and `statistics` tables are never created in the code shown. The model takes the event id as the primary key and gives snapshot ids in insertion order, as the statements suggest. Schema creation, the `PRAGMA` settings and the `created_at`/`updated_at` columns are left out.
- `crypto.randomUUID`, `Date.now` and `new Date()` are parameters, and so is which call throws.
- `setInterval` and `clearInterval` are replaced by the set of live timers and `Tick`. The five-minute period is not modelled; each tick is one firing.
- Concurrency: an insert during a cycle and overlapping cycles are not modelled. Every operation runs to completion before the next one starts.
- The outer `try`/`catch` of `processStatistics` is not modelled, because every inner phase already catches its own errors.
- The request-event emitter and all console logging are fire-and-forget, and have no effect on any store.
- The name enrichment of the popular-entity types does not happen in the code; the stored entries carry only an id and a count.
- Hono's error handling once the middleware rethrows, the route wiring in `server/src/index.ts`, and the SIGTERM and SIGINT handlers are not part of this model.
- The HTTP client, `getMoviesProperties`, the seeder, the movie and people routes and the client application are not part of this model.
