/** The browser board of frontend/src/components/TaskBoard.jsx: its state
    fields and its handlers, with each network call replaced by the outcome
    it produced. Each handler runs as one atomic step. */
module Board {
  import opened TaskModel

  /** The outcome of a request whose failure the handler catches: either it
      threw (network error, non-ok status, unreadable body) or it delivered
      its data. */
  datatype Reply<T> = Failed | Received(data: T)

  /** The outcome of the task-list refetch inside the toggle handler, which
      parses the body without looking at the status and then evaluates
      `body.length > 0 && body.every(...)`. Threw: the request or the parse
      failed, or that test threw, as it does for `null` and for a value with
      a positive `length` and no `every` (a non-empty string). NotAList: the
      body has no positive `length` (an object such as an error detail, a
      number, a boolean, an empty string), so the test is false. Listed: the
      body is a list of tasks. */
  datatype Refetch = Threw | NotAList | Listed(items: seq<Task>)

  const LoadFailed := "Failed to load tasks"
  const AddFailed := "Failed to add task"
  const UpdateFailed := "Failed to update task"
  const DeleteFailed := "Failed to delete task"

  const InitialStats := Stats(0, 0, 0, 0.0, 0)

  /** The optimistic toggle: every task with the given id gets completed set
      to value; nothing else about any task, nor the order, changes. */
  function ToggleMap(ts: seq<Task>, id: string, value: bool): (r: seq<Task>)
    ensures |r| == |ts|
    ensures forall k :: 0 <= k < |ts| ==> r[k] == ts[k].(completed := r[k].completed)
    ensures forall k :: 0 <= k < |ts| ==> r[k].completed == (if ts[k].id == id then value else ts[k].completed)
  {
    if ts == [] then []
    else [if ts[0].id == id then ts[0].(completed := value) else ts[0]] + ToggleMap(ts[1..], id, value)
  }

  /** Whether a toggle fires the celebration: the refetched list is
      non-empty and all complete, and the list before the toggle was not. */
  predicate Celebrates(before: seq<Task>, after: seq<Task>)
    ensures Celebrates(before, after) <==>
      after != [] && (forall k :: 0 <= k < |after| ==> after[k].completed) &&
      exists k :: 0 <= k < |before| && !before[k].completed
  {
    |after| > 0 && AllComplete(after) && !AllComplete(before)
  }

  /** A toggle on an empty board never celebrates, whatever comes back. */
  lemma EmptyBoardNeverCelebrates(after: seq<Task>)
    ensures !Celebrates([], after)
  {
  }

  /** Once everything is complete, a further toggle never celebrates. */
  lemma CompleteBoardNeverCelebrates(before: seq<Task>, after: seq<Task>)
    requires AllComplete(before)
    ensures !Celebrates(before, after)
  {
  }

  /** Toggling a task whose id is absent changes nothing. */
  lemma ToggleAbsent(ts: seq<Task>, id: string, value: bool)
    requires NoneWithId(ts, id)
    ensures ToggleMap(ts, id, value) == ts
  {
    var r := ToggleMap(ts, id, value);
    assert forall k :: 0 <= k < |ts| ==> r[k] == ts[k];
  }

  /** Toggling twice, the second time back to the first status, restores
      the list. */
  lemma ToggleTwiceRestores(ts: seq<Task>, id: string, current: bool)
    requires forall k :: 0 <= k < |ts| && ts[k].id == id ==> ts[k].completed == current
    ensures ToggleMap(ToggleMap(ts, id, !current), id, current) == ts
  {
    var r := ToggleMap(ToggleMap(ts, id, !current), id, current);
    assert forall k :: 0 <= k < |ts| ==> r[k] == ts[k];
  }

  /** When the server's list agrees with the optimistic one, unchecking a
      task that is on the board never celebrates. */
  lemma UncheckNeverCelebrates(ts: seq<Task>, id: string)
    requires !NoneWithId(ts, id)
    ensures !Celebrates(ts, ToggleMap(ts, id, false))
  {
    var k :| 0 <= k < |ts| && ts[k].id == id;
    assert !ToggleMap(ts, id, false)[k].completed;
  }

  /** When the server's list agrees with the optimistic one, checking the
      only pending tasks celebrates. */
  lemma CheckLastCelebrates(ts: seq<Task>, id: string)
    requires !AllComplete(ts)
    requires forall k :: 0 <= k < |ts| && !ts[k].completed ==> ts[k].id == id
    ensures Celebrates(ts, ToggleMap(ts, id, true))
  {
    var r := ToggleMap(ts, id, true);
    assert forall k :: 0 <= k < |ts| ==> r[k].completed;
  }

  /** The component's state and its handlers. */
  class TaskBoard {
    var tasks: seq<Task>
    var newTaskTitle: string
    var stats: Stats
    var loading: bool
    var error: string

    /** The initial state, before the mount-time fetches. */
    constructor ()
      ensures tasks == [] && newTaskTitle == "" && stats == InitialStats
      ensures !loading && error == ""
    {
      tasks := [];
      newTaskTitle := "";
      stats := InitialStats;
      loading := false;
      error := "";
    }

    /** Loads the task list; a failure keeps the list and reports it. */
    method FetchTasks(reply: Reply<seq<Task>>)
      modifies this
      ensures reply.Received? ==> tasks == reply.data && error == old(error)
      ensures reply.Failed? ==> tasks == old(tasks) && error == LoadFailed
      ensures stats == old(stats) && loading == old(loading) && newTaskTitle == old(newTaskTitle)
    {
      match reply
      case Received(data) => tasks := data;
      case Failed => error := LoadFailed;
    }

    /** Loads the statistics; a failure is silent and keeps the old ones. */
    method FetchStats(reply: Reply<Stats>)
      modifies this
      ensures stats == (if reply.Received? then reply.data else old(stats))
      ensures tasks == old(tasks) && error == old(error)
      ensures loading == old(loading) && newTaskTitle == old(newTaskTitle)
    {
      if reply.Received? {
        stats := reply.data;
      }
    }

    /** The mount effect: load the tasks, then the statistics. */
    method Mount(tasksReply: Reply<seq<Task>>, statsReply: Reply<Stats>)
      modifies this
      ensures tasks == (if tasksReply.Received? then tasksReply.data else old(tasks))
      ensures error == (if tasksReply.Received? then old(error) else LoadFailed)
      ensures stats == (if statsReply.Received? then statsReply.data else old(stats))
      ensures loading == old(loading) && newTaskTitle == old(newTaskTitle)
    {
      FetchTasks(tasksReply);
      FetchStats(statsReply);
    }

    /** The title input's change handler. */
    method EditTitle(value: string)
      modifies this
      ensures newTaskTitle == value
      ensures tasks == old(tasks) && stats == old(stats) && loading == old(loading) && error == old(error)
    {
      newTaskTitle := value;
    }

    /** Submits the typed title. A blank title is dropped with no request
        and no change. Otherwise the untrimmed title is posted (returned as
        `posted`); on success the input is cleared and tasks and statistics
        are reloaded, on failure the error is reported and the list kept;
        either way the busy flag ends cleared. */
    method HandleAddTask(postOk: bool, tasksReply: Reply<seq<Task>>, statsReply: Reply<Stats>)
      returns (posted: Option<string>)
      modifies this
      ensures IsBlank(old(newTaskTitle), JavaScript) ==>
        posted == None && tasks == old(tasks) && stats == old(stats) &&
        loading == old(loading) && error == old(error) && newTaskTitle == old(newTaskTitle)
      ensures !IsBlank(old(newTaskTitle), JavaScript) ==> posted == Some(old(newTaskTitle)) && !loading
      ensures !IsBlank(old(newTaskTitle), JavaScript) && !postOk ==>
        error == AddFailed && tasks == old(tasks) && stats == old(stats) && newTaskTitle == old(newTaskTitle)
      ensures !IsBlank(old(newTaskTitle), JavaScript) && postOk ==>
        newTaskTitle == "" &&
        tasks == (if tasksReply.Received? then tasksReply.data else old(tasks)) &&
        error == (if tasksReply.Received? then "" else LoadFailed) &&
        stats == (if statsReply.Received? then statsReply.data else old(stats))
    {
      if Strip(newTaskTitle, JavaScript) == [] {
        return None;
      }
      loading := true;
      error := "";
      posted := Some(newTaskTitle);
      if postOk {
        newTaskTitle := "";
        FetchTasks(tasksReply);
        FetchStats(statsReply);
      } else {
        error := AddFailed;
      }
      loading := false;
    }

    /** Flips one task optimistically and sends the change. If the request
        fails, or the refetch throws, the list captured beforehand is put
        back and the error reported. Otherwise the optimistic list stays,
        and the refetched list only decides the celebration. */
    method HandleToggleTask(taskId: string, currentStatus: bool, patchOk: bool,
                            statsReply: Reply<Stats>, refetch: Refetch)
      returns (celebrated: bool)
      modifies this
      ensures newTaskTitle == old(newTaskTitle) && loading == old(loading)
      ensures stats == (if patchOk && statsReply.Received? then statsReply.data else old(stats))
      ensures !patchOk || refetch.Threw? ==>
        tasks == old(tasks) && error == UpdateFailed && !celebrated
      ensures patchOk && !refetch.Threw? ==>
        tasks == ToggleMap(old(tasks), taskId, !currentStatus) && error == old(error) &&
        (celebrated <==> refetch.Listed? && Celebrates(old(tasks), refetch.items))
    {
      var previousTasks := tasks;
      var wasAllComplete := AllComplete(tasks);
      tasks := ToggleMap(tasks, taskId, !currentStatus);
      if !patchOk {
        tasks := previousTasks;
        error := UpdateFailed;
        return false;
      }
      FetchStats(statsReply);
      match refetch
      case Threw =>
        tasks := previousTasks;
        error := UpdateFailed;
        celebrated := false;
      case NotAList =>
        celebrated := false;
      case Listed(updatedTasks) =>
        var allComplete := |updatedTasks| > 0 && AllComplete(updatedTasks);
        celebrated := allComplete && !wasAllComplete;
    }

    /** Removes the task optimistically and sends the delete. On success the
        statistics are reloaded; on failure the captured list is put back
        and the error reported. */
    method HandleDeleteTask(taskId: string, deleteOk: bool, statsReply: Reply<Stats>)
      modifies this
      ensures newTaskTitle == old(newTaskTitle) && loading == old(loading)
      ensures deleteOk ==>
        tasks == RemoveId(old(tasks), taskId) && error == old(error) &&
        stats == (if statsReply.Received? then statsReply.data else old(stats))
      ensures !deleteOk ==> tasks == old(tasks) && error == DeleteFailed && stats == old(stats)
    {
      var previousTasks := tasks;
      tasks := RemoveId(tasks, taskId);
      if !deleteOk {
        tasks := previousTasks;
        error := DeleteFailed;
        return;
      }
      FetchStats(statsReply);
    }
  }

  /** Three toggles on a two-task board. Checking the last pending task
      celebrates. A failed request to uncheck the other task rolls back to
      the complete board and does not celebrate. Unchecking the first-checked
      task again, with a refetch body that is not a list, keeps the
      optimistic list and does not celebrate. */
  method ToggleExample() {
    var t1 := Task("1", "write", true, None, None);
    var t2 := Task("2", "test", false, None, None);
    var b := new TaskBoard();
    b.FetchTasks(Received([t1, t2]));
    var done := [t1, t2.(completed := true)];

    var fired := b.HandleToggleTask("2", false, true, Failed, Listed(done));
    assert fired;
    assert b.tasks == done;

    fired := b.HandleToggleTask("1", true, false, Failed, Listed(done));
    assert !fired && b.tasks == done && b.error == UpdateFailed;

    fired := b.HandleToggleTask("2", true, true, Failed, NotAList);
    assert !fired && b.tasks == [t1, t2];
  }

  /** A blank title makes no request; deleting the last task empties it. */
  method AddDeleteExample() {
    var t := Task("7", "only", false, None, None);
    var b := new TaskBoard();
    b.EditTitle("  \t");
    var posted := b.HandleAddTask(true, Received([t]), Failed);
    assert posted == None && b.tasks == [];

    b.EditTitle(" only ");
    assert !IsSpace(b.newTaskTitle[1], JavaScript);
    posted := b.HandleAddTask(true, Received([t]), Failed);
    assert posted == Some(" only ") && b.tasks == [t] && b.newTaskTitle == "" && !b.loading;

    b.HandleDeleteTask("7", true, Received(InitialStats));
    assert b.tasks == [] && b.stats.total == 0;
  }
}
