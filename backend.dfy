/** The task-list server of backend/app.py: the completion streak, the
    statistics, and the create, update and delete handlers over the
    stored task list. The JSON data file is the `tasks` field of a
    TaskStore; the identifier generator and the clock are parameters. */
module Backend {
  import opened TaskModel

  /** The error a handler raises; only "not found" occurs here. */
  datatype HttpError = HttpError(status: int, detail: string)

  const TaskNotFound := HttpError(404, "Task not found")

  datatype Result<T> = Success(value: T) | Failure(error: HttpError)

  /** Length of the longest run of completed tasks at the end of ts. */
  function Streak(ts: seq<Task>): (r: nat)
    ensures r <= |ts|
    ensures forall k :: |ts| - r <= k < |ts| ==> ts[k].completed
    ensures r < |ts| ==> !ts[|ts| - 1 - r].completed
  {
    if ts == [] || !ts[|ts| - 1].completed then 0
    else Streak(ts[..|ts| - 1]) + 1
  }

  /** The two properties of Streak determine it. */
  lemma StreakUnique(ts: seq<Task>, n: nat)
    requires n <= |ts|
    requires forall k :: |ts| - n <= k < |ts| ==> ts[k].completed
    requires n < |ts| ==> !ts[|ts| - 1 - n].completed
    ensures n == Streak(ts)
  {
  }

  /** Walks the list backwards, counting completed tasks until the first
      incomplete one. */
  method CalculateStreak(tasks: seq<Task>) returns (streak: nat)
    ensures streak <= |tasks|
    ensures forall k :: |tasks| - streak <= k < |tasks| ==> tasks[k].completed
    ensures streak < |tasks| ==> !tasks[|tasks| - 1 - streak].completed
    ensures streak == Streak(tasks)
  {
    streak := 0;
    var i := |tasks|;
    while i > 0
      invariant 0 <= i <= |tasks|
      invariant streak == |tasks| - i
      invariant forall k :: i <= k < |tasks| ==> tasks[k].completed
    {
      if tasks[i - 1].completed {
        streak := streak + 1;
        i := i - 1;
      } else {
        break;
      }
    }
    StreakUnique(tasks, streak);
  }

  /** The number of completed tasks. */
  function CountCompleted(ts: seq<Task>): (r: nat)
    ensures r <= |ts|
    ensures r == |ts| <==> AllComplete(ts)
    ensures r == 0 <==> forall k :: 0 <= k < |ts| ==> !ts[k].completed
  {
    if ts == [] then 0
    else
      var rest := CountCompleted(ts[1..]);
      assert forall k :: 0 < k < |ts| ==> ts[k] == ts[1..][k - 1];
      (if ts[0].completed then 1 else 0) + rest
  }

  /** Appending a task adds its own contribution to the count. */
  lemma {:induction false} CountCompletedAppend(ts: seq<Task>, t: Task)
    ensures CountCompleted(ts + [t]) == CountCompleted(ts) + (if t.completed then 1 else 0)
  {
    if ts == [] {
      assert ts + [t] == [t];
    } else {
      assert (ts + [t])[1..] == ts[1..] + [t];
      CountCompletedAppend(ts[1..], t);
    }
  }

  /** Replacing one task changes the count by the difference of the two. */
  lemma {:induction false} CountCompletedUpdate(ts: seq<Task>, i: nat, t: Task)
    requires i < |ts|
    ensures CountCompleted(ts[i := t])
         == CountCompleted(ts) - (if ts[i].completed then 1 else 0) + (if t.completed then 1 else 0)
  {
    if i > 0 {
      assert ts[i := t][1..] == ts[1..][i - 1 := t];
      CountCompletedUpdate(ts[1..], i - 1, t);
    } else {
      assert ts[i := t][1..] == ts[1..];
    }
  }

  /** The trailing streak never exceeds the number of completed tasks. */
  lemma {:induction false} StreakAtMostCompleted(ts: seq<Task>)
    ensures Streak(ts) <= CountCompleted(ts)
  {
    if ts != [] && ts[|ts| - 1].completed {
      var init := ts[..|ts| - 1];
      assert ts == init + [ts[|ts| - 1]];
      StreakAtMostCompleted(init);
      CountCompletedAppend(init, ts[|ts| - 1]);
    }
  }

  /** part out of whole as a percentage; 0 when whole is 0. */
  function Percentage(part: nat, whole: nat): (p: real)
    ensures whole == 0 ==> p == 0.0
    ensures part <= whole ==> 0.0 <= p <= 100.0
    ensures whole > 0 && part <= whole ==> (p == 100.0 <==> part == whole)
    ensures p == 0.0 <==> part == 0 || whole == 0
    ensures whole > 0 ==> p * (whole as real) == 100.0 * (part as real)
  {
    if whole == 0 then 0.0
    else
      var q := part as real / whole as real;
      assert q * whole as real == part as real;
      assert part <= whole ==> q <= 1.0;
      assert part < whole ==> q < 1.0;
      q * 100.0
  }

  /** The statistics of a task list: completionRate is completed over total
      as a percentage, and 0 for an empty list. */
  function StatsOf(ts: seq<Task>): (s: Stats)
    ensures s.total == |ts|
    ensures 0 <= s.completed <= s.total && s.completed + s.pending == s.total
    ensures s.completed == s.total <==> AllComplete(ts)
    ensures 0 <= s.currentStreak <= s.completed
    ensures s.total == 0 ==> s.completionRate == 0.0
    ensures 0.0 <= s.completionRate <= 100.0
    ensures s.total > 0 ==> (s.completionRate == 100.0 <==> AllComplete(ts))
    ensures s.completionRate == 0.0 <==> s.completed == 0
    ensures WellFormedStats(s)
  {
    var completed := CountCompleted(ts);
    StreakAtMostCompleted(ts);
    Stats(|ts|, completed, |ts| - completed, Percentage(completed, |ts|), Streak(ts))
  }

  /** Index of the first task with the given id, if any. */
  function FirstIndexOf(ts: seq<Task>, id: string): (r: Option<nat>)
    ensures r.None? <==> NoneWithId(ts, id)
    ensures r.Some? ==> r.value < |ts| && ts[r.value].id == id
    ensures r.Some? ==> forall k :: 0 <= k < r.value ==> ts[k].id != id
  {
    if ts == [] then None
    else if ts[0].id == id then Some(0)
    else
      match FirstIndexOf(ts[1..], id)
      case None =>
        assert forall k :: 0 < k < |ts| ==> ts[k] == ts[1..][k - 1];
        None
      case Some(j) =>
        assert forall k :: 0 < k < |ts| ==> ts[k] == ts[1..][k - 1];
        Some(j + 1)
  }

  /** The task as update_task leaves it: completed set as requested, and the
      completion time set to now when completed and cleared otherwise. */
  function SetCompleted(t: Task, completed: bool, now: string): (r: Task)
    ensures r.id == t.id && r.title == t.title && r.createdAt == t.createdAt
    ensures r.completed == completed
    ensures r.completedAt.None? <==> !completed
    ensures completed ==> r.completedAt == Some(now)
  {
    t.(completed := completed, completedAt := if completed then Some(now) else None)
  }

  /** The record create_task stores for a requested title. */
  function NewTask(id: string, title: string, now: string): (t: Task)
    ensures t.id == id && !t.completed && t.completedAt == None
    ensures t.createdAt == Some(now)
    ensures t.title == Strip(title, Python)
  {
    Task(id, Strip(title, Python), false, Some(now), None)
  }

  /** After a create the streak is 0 and the completed count is unchanged;
      total and pending each grow by one. */
  lemma CreateStats(ts: seq<Task>, id: string, title: string, now: string)
    ensures var before, after := StatsOf(ts), StatsOf(ts + [NewTask(id, title, now)]);
      after.total == before.total + 1 &&
      after.completed == before.completed &&
      after.pending == before.pending + 1 &&
      after.currentStreak == 0
  {
    CountCompletedAppend(ts, NewTask(id, title, now));
  }

  /** Completing a pending task moves it from pending to completed. */
  lemma CompleteStats(ts: seq<Task>, i: nat, now: string)
    requires i < |ts| && !ts[i].completed
    ensures var before, after := StatsOf(ts), StatsOf(ts[i := SetCompleted(ts[i], true, now)]);
      after.total == before.total &&
      after.completed == before.completed + 1 &&
      after.pending == before.pending - 1
  {
    CountCompletedUpdate(ts, i, SetCompleted(ts[i], true, now));
  }

  /** Deleting the only task leaves empty statistics. */
  lemma DeleteLastStats(t: Task)
    ensures var s := StatsOf(RemoveId([t], t.id));
      s.total == 0 && s.completed == 0 && s.pending == 0 && s.currentStreak == 0 && s.completionRate == 0.0
  {
    assert [t][1..] == [];
    assert RemoveId([t], t.id) == [];
  }

  /** The persisted task list and the handlers that read and change it. */
  class TaskStore {
    var tasks: seq<Task>
    /** How many times the list has been written back. */
    ghost var saves: nat

    /** No data file yet: loading yields the empty list. */
    constructor ()
      ensures tasks == [] && saves == 0
    {
      tasks := [];
      saves := 0;
    }

    /** Appends a fresh incomplete task and saves. */
    method CreateTask(title: string, id: string, now: string) returns (created: Task)
      modifies this
      ensures created.id == id && created.title == Strip(title, Python)
      ensures !created.completed && created.completedAt == None && created.createdAt == Some(now)
      ensures tasks == old(tasks) + [created]
      ensures saves == old(saves) + 1
    {
      created := NewTask(id, title, now);
      tasks := tasks + [created];
      saves := saves + 1;
    }

    /** The statistics endpoint. */
    method GetStats() returns (s: Stats)
      ensures s == StatsOf(tasks)
    {
      var total := |tasks|;
      var completed := CountCompleted(tasks);
      var streak := CalculateStreak(tasks);
      s := Stats(total, completed, total - completed, Percentage(completed, total), streak);
    }

    /** Sets the completion of the first task with the given id and saves;
        with no such task, raises 404 and saves nothing. */
    method UpdateTask(taskId: string, completed: bool, now: string) returns (r: Result<Task>)
      modifies this
      ensures r.Failure? <==> NoneWithId(old(tasks), taskId)
      ensures r.Failure? ==> r.error == TaskNotFound && tasks == old(tasks) && saves == old(saves)
      ensures r.Success? ==>
        var i := FirstIndexOf(old(tasks), taskId).value;
        r.value == SetCompleted(old(tasks)[i], completed, now) &&
        tasks == old(tasks)[i := r.value] &&
        saves == old(saves) + 1
    {
      var i := 0;
      while i < |tasks|
        invariant 0 <= i <= |tasks|
        invariant tasks == old(tasks) && saves == old(saves)
        invariant forall k :: 0 <= k < i ==> tasks[k].id != taskId
      {
        if tasks[i].id == taskId {
          var updated := SetCompleted(tasks[i], completed, now);
          tasks := tasks[i := updated];
          saves := saves + 1;
          return Success(updated);
        }
        i := i + 1;
      }
      return Failure(TaskNotFound);
    }

    /** Drops every task with the given id and saves; when none had it,
        raises 404 and saves nothing. */
    method DeleteTask(taskId: string) returns (r: Result<()>)
      modifies this
      ensures r.Failure? <==> NoneWithId(old(tasks), taskId)
      ensures r.Failure? ==> r.error == TaskNotFound && tasks == old(tasks) && saves == old(saves)
      ensures r.Success? ==> tasks == RemoveId(old(tasks), taskId) && saves == old(saves) + 1
    {
      var kept := RemoveId(tasks, taskId);
      if |kept| == |tasks| {
        return Failure(TaskNotFound);
      }
      tasks := kept;
      saves := saves + 1;
      return Success(());
    }
  }
}
