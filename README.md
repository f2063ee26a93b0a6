# Task board: server list operations and optimistic board synchronisation

This project models the two pieces of logic in a small to-do application.

- **The server** (`backend/app.py`) keeps a list of tasks in a JSON file. It computes statistics: total, completed and pending counts, a completion percentage, and a "streak", which is the number of completed tasks at the end of the list. It also creates, updates and deletes tasks. In the model the file is the `tasks` field of the class `Backend.TaskStore`. A ghost counter `saves` records each write-back. The random task identifier and the current time are method parameters.
- **The board** (`frontend/src/components/TaskBoard.jsx`) is a React component. Its state is `tasks`, `stats`, `loading`, `error` and `newTaskTitle`, and its handlers change that state around network calls. It updates the list optimistically, rolls back to a snapshot when a request fails, and fires a celebration after a toggle when the refetched list is non-empty and every task in it is complete, and the list as it was before the toggle was not all complete. The refetched list decides, not the toggle: unchecking task 1 of `[1 done, 2 pending]` still celebrates if the refetch returns only `[1 done]`. In the model this is the class `Board.TaskBoard`. Each handler is a method that takes the outcome of each request as a parameter: a success flag for the write requests, and `Reply`/`Refetch` values for the responses it reads.

Module `TaskModel` (`task_model.dfy`) holds the shared records: `Task`, `Stats`, whitespace trimming, `AllComplete` (JavaScript's `every`) and `RemoveId`. `RemoveId` is both the server's list comprehension and the board's `filter`. Trimming takes a `Runtime` argument. With `Python` it strips the characters for which Python's `str.isspace()` holds. With `JavaScript` it strips the characters `String.prototype.trim()` removes. Module `EndToEnd` relates a board step to the server's handling of the same request. The methods `Board.ToggleExample` and `Board.AddDeleteExample` are worked scenarios built from the board's contracts; they model no source function of their own.

Where the code differs from what one might expect:
- The server does not reject an empty or blank title. `create_task` strips the title and stores it, even if nothing is left. Only the board refuses blank titles.
- The refetch inside the toggle handler (`fetch(...).then(r => r.json())`) ignores the response status. It then evaluates `updatedTasks.length > 0 && updatedTasks.every(...)`. `Board.Refetch` has three cases:
  - `NotAList`: the body has no positive `length`. This covers an error object, a number, a boolean or the empty string. The test is false, so there is no celebration and no rollback.
  - `Threw`: the request or the parse fails, or the test itself throws. The test throws for `null`, and for a value with a positive `length` but no `every`, such as a non-empty string. The list is then rolled back.
  - `Listed`: the body is a list.
- The two runtimes disagree on whitespace. A title made only of U+001C to U+001F or U+0085 is not blank to the board's `trim`, so the board posts it. The server's `strip` then reduces it to an empty title. `EndToEnd.SeparatorTitleStoredEmpty` exhibits this case. `EndToEnd.PostedTitleStored` proves that a posted title containing none of these characters is stored non-empty. The condition is sufficient, not necessary: `"a\u001C"` is stored as `"a"`.
- Inside the toggle handler, the statistics refetch comes before the task-list refetch. So if the task-list refetch then throws, the tasks are rolled back but the new statistics stay.
- The toggle handler does not clear `error` on success. The add handler clears it first.

## Model

| member | source | states |
|---|---|---|
| TaskModel.IsBlank | frontend/src/components/TaskBoard.jsx:50 | a title is blank iff every character is whitespace for the given runtime |
| TaskModel.TrimStart | backend/app.py:97 | the result is the suffix of the title after its leading whitespace, and starts with a non-space |
| TaskModel.TrimEnd | backend/app.py:97 | the result is the prefix of the title before its trailing whitespace, and ends with a non-space |
| TaskModel.Strip | frontend/src/components/TaskBoard.jsx:50 | the stripped title is empty exactly when the title is blank; otherwise it starts and ends with a non-space and is no longer than the title; it is a slice of the title with only whitespace before and after it |
| TaskModel.AllComplete | frontend/src/components/TaskBoard.jsx:77 | `every` over the list holds iff each task is completed, and holds for the empty list |
| TaskModel.StripIdempotent | backend/app.py:97 | stripping twice gives the same as stripping once |
| TaskModel.StripUntrimmed | backend/app.py:97 | a title with no whitespace at either end is stored unchanged |
| TaskModel.RemoveId | backend/app.py:155-159 | the kept tasks are exactly the input tasks with a different id; the length is unchanged iff no task has the id, which is the server's 404 test |
| TaskModel.RemoveIdConcat | frontend/src/components/TaskBoard.jsx:118 | removal distributes over concatenation, so the kept tasks keep their relative order |
| TaskModel.RemoveIdAbsent | backend/app.py:157-160 | removing an id no task has leaves the list as it was |
| TaskModel.RemoveIdIdempotent | frontend/src/components/TaskBoard.jsx:118 | removing the same id a second time removes nothing more |
| Backend.Streak | backend/app.py:73-81 | the streak is at most the list length, every task in the last `streak` positions is completed, and the task just before them (if any) is not, so it is the longest completed suffix |
| Backend.StreakUnique | backend/app.py:73-81 | any count with the longest-completed-suffix properties equals the streak |
| Backend.CalculateStreak | backend/app.py:73-81 | the backward loop with its early break returns the longest completed suffix's length, equal to Streak |
| Backend.CountCompleted | backend/app.py:121 | the completed count is at most the length, equals it iff every task is completed, and is 0 iff none is |
| Backend.CountCompletedAppend | backend/app.py:103 | appending a task raises the completed count by 1 if that task is completed, otherwise leaves it |
| Backend.CountCompletedUpdate | backend/app.py:142 | replacing one task changes the completed count by the difference between the new and old task's status |
| Backend.StreakAtMostCompleted | backend/app.py:124 | the streak never exceeds the completed count |
| Backend.Percentage | backend/app.py:123 | the rate is 0 for an empty list, lies in [0, 100] when part <= whole, is 100 iff all are completed, and is 0 iff none is; times whole it equals 100 times part |
| Backend.StatsOf | backend/app.py:117-132 | total is the length; completed + pending == total; 0 <= completed <= total; 0 <= streak <= completed; the rate is 0 when total is 0, lies in [0, 100], and is 100 iff every task is complete |
| Backend.FirstIndexOf | backend/app.py:140-141 | the index found holds the id and no earlier task does; none is found iff no task has the id |
| Backend.SetCompleted | backend/app.py:142-144 | only `completed` and `completedAt` change; `completed` takes the requested value, and `completedAt` is None iff not completed and otherwise is the given time |
| Backend.NewTask | backend/app.py:95-101 | the new task has the given id and creation time, the stripped title, is not completed and has no completion time |
| Backend.CreateStats | backend/app.py:98-104 | after a create, total and pending grow by one, completed is unchanged and the streak is 0 |
| Backend.CompleteStats | backend/app.py:140-146 | completing a pending task moves one from pending to completed, and total is unchanged |
| Backend.DeleteLastStats | backend/app.py:155-162 | deleting the only task leaves all-zero statistics |
| Backend.TaskStore.constructor | backend/app.py:56-64 | with no data file, the stored list is empty and nothing has been saved |
| Backend.TaskStore.CreateTask | backend/app.py:90-106 | the list becomes old list + [new task]; the new task has the given id, the stripped title and the given creation time, is incomplete and has no completion time; exactly one save |
| Backend.TaskStore.GetStats | backend/app.py:116-132 | the endpoint returns StatsOf of the stored list |
| Backend.TaskStore.UpdateTask | backend/app.py:135-148 | it fails iff no task has the id; then the error is 404 "Task not found", the list is unchanged and nothing is saved. Otherwise only the first matching task is replaced by SetCompleted, that task is returned, and there is exactly one save |
| Backend.TaskStore.DeleteTask | backend/app.py:151-163 | it fails iff no task has the id; then the error is 404, the list is unchanged and nothing is saved. Otherwise the list becomes RemoveId of the old list and there is exactly one save |
| Board.ToggleMap | frontend/src/components/TaskBoard.jsx:81-85 | length and order are kept; each task differs from its original at most in `completed`; `completed` becomes the new value on tasks with the id and is unchanged elsewhere |
| Board.Celebrates | frontend/src/components/TaskBoard.jsx:101-104 | the celebration condition holds iff the refetched list is non-empty, every refetched task is complete, and some task before the toggle was pending |
| Board.EmptyBoardNeverCelebrates | frontend/src/components/TaskBoard.jsx:77 | toggling on an empty board never celebrates, since every task of an empty list is complete |
| Board.CompleteBoardNeverCelebrates | frontend/src/components/TaskBoard.jsx:101-106 | when every task was already complete before the toggle, there is no celebration |
| Board.ToggleAbsent | frontend/src/components/TaskBoard.jsx:81-85 | toggling an id no task has changes nothing |
| Board.ToggleTwiceRestores | frontend/src/components/TaskBoard.jsx:81-85 | toggling a task and then toggling it back restores the list |
| Board.UncheckNeverCelebrates | frontend/src/components/TaskBoard.jsx:101-106 | when the refetched list agrees with the optimistic one, unchecking a task on the board never celebrates |
| Board.CheckLastCelebrates | frontend/src/components/TaskBoard.jsx:101-106 | when the refetched list agrees with the optimistic one, checking the only pending tasks celebrates |
| Board.TaskBoard.constructor | frontend/src/components/TaskBoard.jsx:7-17 | initial state: no tasks, empty title, zero statistics, not loading, no error |
| Board.TaskBoard.FetchTasks | frontend/src/components/TaskBoard.jsx:25-35 | on success the tasks become the reply and the error is kept; on failure the tasks are kept and the error becomes "Failed to load tasks"; nothing else changes |
| Board.TaskBoard.FetchStats | frontend/src/components/TaskBoard.jsx:37-46 | on success the stats become the reply; on failure they are kept and the error is not set; nothing else changes |
| Board.TaskBoard.Mount | frontend/src/components/TaskBoard.jsx:19-23 | the effects of loading the tasks and then the statistics |
| Board.TaskBoard.EditTitle | frontend/src/components/TaskBoard.jsx:257 | only the typed title changes |
| Board.TaskBoard.HandleAddTask | frontend/src/components/TaskBoard.jsx:48-73 | a blank title makes no request and changes nothing. Otherwise the untrimmed title is posted and loading ends false. On failure the error is "Failed to add task" and tasks, stats and title are kept. On success the title is cleared and the results of both reloads are applied |
| Board.TaskBoard.HandleToggleTask | frontend/src/components/TaskBoard.jsx:75-112 | a failed PATCH or a throwing refetch restores the exact snapshot, sets "Failed to update task" and does not celebrate. Otherwise the optimistic ToggleMap list stays and the error is kept. It celebrates iff the refetch is a list, that list is non-empty and all complete, and the pre-toggle list was not. Stats are replaced only after a successful PATCH and stats reply |
| Board.TaskBoard.HandleDeleteTask | frontend/src/components/TaskBoard.jsx:114-132 | on success the list is RemoveId of the old list, the error is kept and the stats reply is applied; on failure the exact snapshot is restored, the error is "Failed to delete task" and the stats are kept |
| EndToEnd.PostedTitleStored | backend/app.py:97 | a title that passes the board's blank check and has no character that only Python treats as whitespace is stored as a non-empty title with no whitespace at either end |
| EndToEnd.SeparatorTitleStoredEmpty | backend/app.py:97 | the title U+001C passes the board's blank check, yet the server stores it as the empty title |
| EndToEnd.ToggleMatchesServer | backend/app.py:140-146 | with unique ids, the optimistic toggle gives every task the completion status the server stores, so celebration on an agreeing refetch is decided from the optimistic list |
| EndToEnd.AbsentIdNoChange | backend/app.py:140-160 | for an absent id the server finds no task, and the optimistic toggle and delete leave the board as it was |

## Left out

- Reading and writing `tasks.json` (`load_tasks`, `save_tasks`), including the fallback to an empty list on a decode error. The file is the `TaskStore.tasks` field, and a save is a step of the ghost `saves` counter.
- `uuid4()` and `datetime.now().isoformat()` are the `id` and `now` parameters. Nothing proves that identifiers are unique; `EndToEnd.ToggleMatchesServer` assumes it.
- Backend.StatsOf: the completion rate is the exact rational percentage, without the floating-point `round(completion_rate, 1)` of backend/app.py:130. The source rounds it, so 2499 completed of 2500 reports 100.0 and 1 of 2500 reports 0.0. "100 exactly when all are complete" and "0 exactly when none is" hold only for the unrounded value.
- The plain `get_tasks` endpoint just returns the stored list, and has no member of its own.
- FastAPI routing, the health-check route, CORS middleware and server start-up are not modelled. HTTP errors are the `Failure(TaskNotFound)` result, with status 404 and detail "Task not found".
- Type validation of request bodies is not modelled. The model takes a title string and a completion flag.
- The whitespace sets are those of Python 3 `str.isspace()` and of ECMAScript WhiteSpace plus LineTerminator. Both follow the Unicode version of their runtime, and a later Unicode release may change them.
- `fetch`, JSON decoding, `await` and React's asynchronous state updates are not modelled. Each request is an outcome parameter, and each handler is one atomic step on the current state.
- Concurrent requests on the server are not modelled. FastAPI runs the plain `def` handlers on a thread pool, so two requests can interleave their load and save of the data file and lose an update. Each `TaskStore` method is one atomic step.
- Concurrent toggles or deletes on the board are not modelled. Two overlapping handlers can each roll back to their own snapshot and lose the other's change; the model does not capture this.
- Board.TaskBoard.HandleToggleTask: the celebration is the returned `celebrated` flag. The confetti timer, `Date.now`, `Math.random` and particle counts are left out.
- Data stored from a reply is not checked. The board stores whatever `Stats` and task list the server sends. `Backend.StatsOf` proves that the server's statistics are well formed.
- The JSX rendering, `frontend/src/App.jsx` and `frontend/tailwind.config.js` are not part of this model. None of them has logic beyond display.
