# Eisenhower-matrix task backend: a Dafny model

This project models the logic of a small task-management backend that files
every task into one of four Eisenhower-matrix quadrants ("Q1" important and
urgent, "Q2" important only, "Q3" urgent only, "Q4" neither) and proves
what that logic promises.

- **Classification rules** (`Utils`, from `utils.py`). A task is urgent when
  its deadline is at most three whole days away. Whole days are Python's
  `timedelta.days`, the floor of the difference in seconds divided by 86400.
  The quadrant is a four-case table over (important, urgent). The response
  view copies the stored fields and adds the derived urgency and the days left.
- **Recompute sweep** (`Scheduler`, from `scheduler.py`). A loop over the
  tasks table rewrites, in place, the quadrant of every open task whose stored
  label is stale, counts the rewrites, and then either commits all of them or
  none.
- **Statistics** (`Stats`, from `routers/stats.py`). One loop fills the
  per-quadrant and per-status counters. The deadline report lists the open
  tasks that have a deadline, with their whole days remaining, sorted stably
  by days remaining.
- **In-memory store** (`MainApp`, from `main.py`). Queries over the list
  `tasks_db`: a case-insensitive search, filters by quadrant and by status,
  counters, and lookup by id.
- **Task router** (`TasksRouter`, from `routers/tasks.py`). The CRUD
  endpoints of the router revision whose records carry a user-supplied
  `is_urgent` flag. The table is a map from id to task. Queries are functions
  of that map. Create, update, delete and complete are methods of the class
  `TaskStore`.

Shared pieces:
- `Results` holds `Option` and `Response` (a value, or the HTTP status the
  handler raises).
- `Text` holds lower-casing and substring search.
- `Counting` holds the counters and their identities.
- `TaskModel` holds the persisted task record.

Time is whole seconds since the epoch, in UTC. A clock reading is a `now`
parameter. Where the source reads the clock several times in one operation,
the model uses one reading for all of them. The exceptions are listed under
"## Left out" and "## Findings".

## Model

| member | source | states |
|---|---|---|
| `Utils.WholeDays` | utils.py:11 | the result is the floor of seconds/86400: `d*86400 <= s < (d+1)*86400`, also for negative durations |
| `Utils.CalculateUrgency` | utils.py:7-12 | no deadline is never urgent; with a deadline, urgent iff the deadline is less than four full days after `now` |
| `Utils.UrgencyBoundaries` | utils.py:10-12 | 3 days 23 h ahead is urgent, exactly 3 days is urgent, exactly 4 days is not, a past deadline is urgent |
| `Utils.UrgencyMonotoneInDeadline` | utils.py:11-12 | if a later deadline is urgent, any earlier deadline is urgent too |
| `Utils.UrgencyMonotoneInTime` | utils.py:10-12 | once urgent, a task stays urgent as `now` advances |
| `Utils.DefineQuadrant` | utils.py:15-23 | the result is always one of the four labels Q1..Q4 |
| `Utils.QuadrantTable` | utils.py:15-23 | (T,T)->Q1, (T,F)->Q2, (F,T)->Q3, (F,F)->Q4 |
| `Utils.QuadrantRoundTrip` | utils.py:15-23 | reading a label back gives the flags it was computed from, and every valid label is the classification of its own flags |
| `Utils.DefineQuadrantInjective` | utils.py:15-23 | two flag pairs get the same label iff they are equal |
| `Utils.ResponseWithClockReads` | utils.py:26-46 | as written: urgency taken at one clock read, days-until at another; all stored fields copied unchanged |
| `Utils.ClockReadsCanDisagree` | utils.py:27-32 | with the two reads one second apart across the 4-day boundary the response says "not urgent" and "3 days left" |
| `Utils.PrepareTaskToResponse` | utils.py:26-46 | days-until is None iff there is no deadline and is otherwise the floor of days left; `is_urgent` iff days-until is present and at most 3; id, title, description, importance, deadline, quadrant, completion and both timestamps copied |
| `Scheduler.RecomputedReadsBack` | scheduler.py:24-27 | the recomputed label is valid and reads back as (importance, urgency at `now`) |
| `Scheduler.SweepTask` | scheduler.py:22-31 | a completed task is untouched; an open task ends with the recomputed label |
| `Scheduler.SweepChangesOnlyQuadrant` | scheduler.py:30-31 | the sweep writes the quadrant column only: every other field of every row is as it was |
| `Scheduler.SweepRow` | scheduler.py:22-32 | one pass of the loop body: the row is written iff it is stale, it ends as the swept task, and no other row changes |
| `Scheduler.ReadRows` | scheduler.py:15-18 | the session is a fresh copy of the table's rows |
| `Scheduler.SweptIsConsistent` | scheduler.py:14-31 | after the sweep every open task's quadrant is the one its own fields give at `now`; completed tasks are unchanged |
| `Scheduler.UpdatedCountBounds` | scheduler.py:20-32 | the number of rewrites is the cardinality of the set of stale positions and at most the number of open tasks |
| `Scheduler.NothingStaleIsFixpoint` | scheduler.py:30-38 | when no task is stale the swept table equals the original, so "no changes, no commit" loses nothing |
| `Scheduler.SweepIdempotent` | scheduler.py:22-32 | a second sweep at the same `now` finds no stale task and changes nothing |
| `Scheduler.StaleQ2BecomesQ1` | scheduler.py:22-31 | an important open task due in one day that was stored as Q2 is stale and becomes Q1 |
| `Scheduler.UpdateTaskUrgency` | scheduler.py:9-42 | the count is the number of stale open tasks; it commits iff the count is positive and the commit does not fail; the table ends fully swept when committed and exactly as before otherwise |
| `Scheduler.SweepTwice` | scheduler.py:9-42 | two error-free sweeps in a row: the second rewrites nothing and the table is swept exactly once |
| `Counting.TalliedInitially` | routers/stats.py:24-25 | the freshly initialised counters (four quadrant keys and two status keys, all zero) tally the empty list |
| `Counting.TallyOneMore` | routers/stats.py:27-33 | one loop iteration keeps the counters equal to the counts over the tasks read so far: the label's counter goes up only for a valid label, and exactly one status counter goes up |
| `Counting.StatsIdentities` | routers/stats.py:23-33 | completed + pending = total; the four quadrant counters sum to at most the total, and to exactly the total iff every label is valid |
| `Counting.QuadrantCountsSum` | routers/stats.py:24-29 | the sum of the Q1..Q4 counts is at most the list length, with equality iff every entry is a valid label |
| `Counting.SetPlusUnset` | routers/stats.py:30-33 | every task is counted exactly once, as completed or as pending |
| `Counting.CountTrueIsCardinality` | scheduler.py:30-32 | a counter incremented once per set flag ends at the size of the set of flagged positions |
| `Stats.GetTasksStats` | routers/stats.py:18-39 | total is the number of tasks; the quadrant map has exactly the keys Q1..Q4, each the number of tasks with that label; the status map has exactly completed and pending, each the number of tasks with that flag |
| `Stats.SelectOpenWithDeadline` | routers/stats.py:45-48 | exactly the tasks that are not completed and have a deadline |
| `Stats.EntryOf` | routers/stats.py:54-61 | days remaining is the floor of (deadline - now) in days; title, description, creation time and deadline copied |
| `Stats.InsertByDays` | routers/stats.py:64 | inserting adds exactly the one entry (multiset) |
| `Stats.SortByDays` | routers/stats.py:64 | the sort is a permutation of its input |
| `Stats.InsertKeepsSorted` | routers/stats.py:64 | inserting into an ascending list keeps it ascending, and the new head is the inserted entry or the old head |
| `Stats.SortIsSorted` | routers/stats.py:64 | the sort's result is ascending in days remaining |
| `Stats.InsertKeepsRuns` | routers/stats.py:64 | an insertion puts the entry before all entries with its own key and leaves every key's entries in order |
| `Stats.SortIsStable` | routers/stats.py:64 | for every number of days, the entries with that many days keep their input order |
| `Stats.EntriesOfSelected` | routers/stats.py:45-61 | the unsorted report holds an entry iff some open task with a deadline has it as its entry |
| `Stats.GetDeadlineStats` | routers/stats.py:42-65 | the report is a permutation of the entries of the open tasks with a deadline, is sorted ascending, keeps ties in input order, and contains an entry iff some open task with a deadline has it as its entry |
| `Text.Contains` | main.py:83 | `find(needle) != -1`: true iff the needle occurs at some position (the empty needle at 0) |
| `Text.MatchesIgnoresQueryCase` | main.py:79-87 | a query and its lower-cased form match the same tasks |
| `MainApp.Where` | main.py:119-123 | the kept tasks are exactly those of the list that the condition selects |
| `MainApp.WhereCounts` | main.py:119-123 | each selected task occurs in the result exactly as often as in the list, and no other task occurs |
| `MainApp.WhereAppend` | main.py:119-123 | filtering a concatenation is the concatenation of the filtered parts, so the filter keeps list order |
| `MainApp.SearchTasks` | main.py:70-102 | a query under 2 characters gives 422 (the declared `min_length=2` refuses it before the handler's own 400 check); otherwise the matching tasks in list order with their count, or 404 when none match; a returned task matches iff its lower-cased title or non-None description contains the lower-cased query |
| `MainApp.GetAllTasks` | main.py:104-109 | the listing is the whole store and its count is the store's length |
| `MainApp.GetTasksByQuadrant` | main.py:111-129 | 400 iff the label is not Q1..Q4, and a valid label always succeeds; the answer is `Where` over the list (the tasks with that label, once each, in list order) with its length as the count |
| `MainApp.GetTasksStats` | main.py:131-154 | the same counting identities as the database version, for the in-memory list |
| `MainApp.GetTaskById` | main.py:156-165 | 404 iff no task has the id; otherwise the first task in list order with that id |
| `MainApp.GetTasksByStatus` | main.py:167-196 | 400 iff the lower-cased status is neither "completed" nor "pending"; otherwise exactly the tasks with that flag, non-empty and equal to `Where` over the list (list order, once each), or 404 when there are none |
| `TasksRouter.GetTasksByQuadrant` | routers/tasks.py:25-40 | 400 iff the label is not Q1..Q4; a valid label always succeeds, with exactly the stored tasks with that label |
| `TasksRouter.SearchTasks` | routers/tasks.py:43-58 | 422 iff the query is under 2 characters; otherwise the non-empty set of stored tasks matching it case-insensitively, or 404 iff none match; a query of 2 or more characters that some task matches always succeeds |
| `TasksRouter.GetTasksByStatus` | routers/tasks.py:61-75 | 404 iff the status is not exactly "completed" or "pending" (case-sensitive); either word always succeeds, with exactly the tasks whose flag is (status == "completed") |
| `TasksRouter.GetTaskById` | routers/tasks.py:78-89 | the stored task iff the id is present, else 404 |
| `TasksRouter.Assign` | routers/tasks.py:139-140 | setting one supplied field never touches the id, quadrant or timestamps |
| `TasksRouter.Supplied` | routers/tasks.py:137 | the value found is one of the supplied entries for that field; nothing is found iff the field was not supplied |
| `TasksRouter.Patched` | routers/tasks.py:137-140 | writing the supplied fields never changes the id, quadrant or timestamps |
| `TasksRouter.PatchedStep` | routers/tasks.py:139-140 | one more `setattr` on a patched task is patching with that entry appended, so the loop computes the patch |
| `TasksRouter.ApplyUpdates` | routers/tasks.py:137-140 | the `setattr` loop over the supplied fields yields the patched task |
| `TasksRouter.Updated` | routers/tasks.py:137-150 | id and timestamps kept; when a flag was supplied the quadrant is the table's label for the new flags; otherwise the quadrant is unchanged |
| `TasksRouter.UpdateKeepsUnsuppliedFields` | routers/tasks.py:137-140 | every field the update does not supply keeps its value |
| `TasksRouter.UpdateKeepsClassified` | routers/tasks.py:142-150 | recomputing only when a flag is supplied keeps a task's quadrant equal to the label of its flags |
| `TasksRouter.TaskStore.CreateTask` | routers/tasks.py:92-119 | the new row gets a fresh id, the label of its two flags, `completed = false`, the title, description and flags of the request, no deadline and no completion time; 422 for a title or description outside the schema limits |
| `TasksRouter.TaskStore.UpdateTask` | routers/tasks.py:122-155 | 422 and no change for a body outside the schema limits, checked before the lookup; then 404 and no change for an unknown id; otherwise the row becomes `Updated(old row, updates)` and no other row changes |
| `TasksRouter.TaskStore.DeleteTask` | routers/tasks.py:158-182 | 404 and no change for an unknown id; otherwise exactly that id is removed and its id and title returned |
| `TasksRouter.TaskStore.CompleteTask` | routers/tasks.py:185-203 | 404 and no change for an unknown id; otherwise completed becomes true and the completion time is set, all else unchanged |

`TaskStore.Valid()` is kept by every method. It says that each row is stored
under its own id, below the next id to hand out, and that each row's quadrant
is the label of its two flags.

## Left out

- HTTP and framework plumbing is left out: routing, `Depends`, response models and status-code mechanics. Errors are a `Response.Fail(status)` value.
- Only two request checks are modelled, as 422 answers that come before the handler body runs: `Query(min_length=2)` of both search endpoints and the title and description length limits of the request schemas (title 3-100 characters, description at most 500). No other request validation is modelled.
- `MainApp.SearchTasks`: the handler's own 400 branch for a query under two characters is never reached, because the declared minimum length answers 422 first. The model gives the 422.
- Persistence is left out: the async SQLAlchemy sessions, `select`/`where`, `commit` and `refresh`. The table is an array (sweep), a sequence (statistics, in-memory store) or a map from id to task (router).
- The router's queries return sets because SQL without `ORDER BY` fixes no row order. So `TasksRouter.GetTasksByQuadrant`, `TasksRouter.SearchTasks` and `TasksRouter.GetTasksByStatus` do not state the order of their results.
- `TasksRouter.SearchTasks`: `ilike` is modelled as plain substring matching. `%` and `_` inside the query are not treated as wildcards, and database collation is not modelled.
- Lower-casing covers only the Latin capitals A-Z and the Cyrillic capitals А-Я and Ё. Python's full Unicode case mapping is not modelled.
- `start_scheduler` and the cron and interval triggers are not modelled. The sweep is modelled only as a callable entry point.
- `Scheduler.UpdateTaskUrgency`: `calculate_urgency` reads the clock once per open task, so one sweep may see several instants. The model uses one `now` for the whole sweep. `Scheduler.SweptIsConsistent` and `Scheduler.SweepIdempotent` hold for that single instant. A sweep that runs across a day boundary can leave tasks swept at different instants, which the model does not capture.
- `Scheduler.UpdateTaskUrgency` returns the number of rewrites. The source only prints it.
- `Scheduler.UpdateTaskUrgency` models a persistence error at commit only, as the `commitFails` parameter, followed by rollback. An error in the initial select also leaves the table unchanged.
- `Scheduler.UpdateTaskUrgency` does not filter out completed rows first, as the select does. It visits every row and skips the completed ones. The rewrites and the count are the same.
- Clocks and timezones are left out. `datetime.now(...)` is an integer `now` in UTC seconds. Microseconds are not modelled. `complete_task` uses a naive local `datetime.now()`, and that timezone mix is not modelled.
- `print` logging is left out.
- `routers/tasks.py` assumes an older record with an `is_urgent` field. The model keeps that field, separate from the deadline-derived urgency. Against the `TaskCreate` and `Task` shown in schemas.py and models/task.py, `create_task` would fail on the missing attribute. `update_task` would fail there too: whenever `is_important` is supplied, the reclassification reads `task.is_urgent`, which that `Task` lacks. The `TaskUpdate` shown cannot supply `is_urgent` itself.
- `TasksRouter.TaskStore.UpdateTask`: an explicit `null` for a non-nullable field (title, importance, completion) makes the database refuse the commit. The model does not represent it.
- `get_all_tasks` in routers/tasks.py returns every row. It is the map's values and has no member of its own.
- The welcome endpoint of main.py returns constant metadata and is not modelled.
- routers/admin.py (an SQL join with an auth dependency) is not part of this model. Neither are `to_dict`/`__repr__` of models/task.py, nor user ownership; `user_id` is carried along unchanged.
- Concurrency is left out, including races between the sweep and interactive edits.

## Findings

| source | as written | input that shows it | evidently intended | confidence | as-written member | corrected member |
|---|---|---|---|---|---|---|
| utils.py:27-32 | `is_urgent` comes from `calculate_urgency`, which reads the clock itself; `days_until_deadline` comes from a second clock read | deadline exactly 4 days after the first read, second read one second later: `is_urgent` false but `days_until_deadline` 3 | both derived fields from one instant, so that `is_urgent == (days_until <= 3)` | low: the two reads are microseconds apart; not executed | `Utils.ResponseWithClockReads` (`Utils.ClockReadsCanDisagree`) | `Utils.PrepareTaskToResponse` |
