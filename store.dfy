/**
 * The task list of an anonymous session, kept in the browser's local storage
 * (`loadFromLocalStorage`, `saveToLocalStorage`, and the local-mode branches
 * of `saveTask`, `completeTask`, `reopenTask`, `confirmDeleteTask` and
 * `confirmImport`), with the listener bookkeeping of `startTaskSync` and
 * `showAuthScreen`. Storage is a field holding what was last written; ids
 * and the clock are parameters.
 */
module Store {
  import opened Text
  import opened Tasks
  import opened Sequences
  import opened Recurrence

  /**
   * What local storage yields under the tasks key: nothing (or an empty
   * string), a value that cannot be read or parsed, or a parsed task list.
   */
  datatype Stored = Absent | Unreadable | Holds(tasks: seq<Task>)

  /**
   * The task form as `saveTask` reads it. `targetDate` is `None` when the
   * date input is empty; `priority` is `None` when no priority is selected.
   */
  datatype Form = Form(
    title: string,
    description: string,
    priority: Option<Priority>,
    status: Status,
    targetDate: Option<int>,
    category: string,
    isRecurring: bool,
    frequency: string)

  /** How `saveTask` ends: one of its two validation errors, or the task was updated or added. */
  datatype SaveOutcome = NoTitle | NoDate | Updated | Added

  /** A task's `completedAt` is set exactly when it is done. */
  predicate Consistent(t: Task)
  {
    t.completedAt.Some? <==> t.status == Done
  }

  /** `tasks.find(t => t.id === id)`, as the index of the first task with that id. */
  function FirstIndex(ts: seq<Task>, id: string): (r: Option<nat>)
    ensures r.Some? ==> r.value < |ts| && ts[r.value].id == id && forall j :: 0 <= j < r.value ==> ts[j].id != id
    ensures r.None? ==> forall j :: 0 <= j < |ts| ==> ts[j].id != id
  {
    if ts == [] then None
    else if ts[0].id == id then Some(0)
    else match FirstIndex(ts[1..], id)
      case None => None
      case Some(i) => Some(i + 1)
  }

  /** The fields `saveTask` writes from the form, applied to a task with `Object.assign`. */
  function Assign(t: Task, form: Form, now: int): (r: Task)
    ensures r.id == t.id && r.createdAt == t.createdAt
    ensures r.title == Trim(form.title) && r.targetDate == form.targetDate
    ensures r.recurringFreq.Some? <==> form.isRecurring
    ensures Consistent(r) && (r.completedAt.Some? ==> r.completedAt == Some(now))
  {
    t.(title := Trim(form.title),
       description := Trim(form.description),
       priority := match form.priority case Some(p) => p case None => Medium,
       status := form.status,
       targetDate := form.targetDate,
       category := Trim(form.category),
       isRecurring := form.isRecurring,
       recurringFreq := if form.isRecurring then Some(form.frequency) else None,
       completedAt := if form.status == Done then Some(now) else None)
  }

  /** The task `saveTask` creates from the form. */
  function NewTask(form: Form, id: string, now: int): (r: Task)
    ensures r.id == id && r.createdAt == Some(now)
    ensures r.title == Trim(form.title) && r.targetDate == form.targetDate
    ensures Consistent(r)
  {
    Assign(Task(id, "", "", Medium, Todo, None, "", false, None, Some(now), None), form, now)
  }

  /**
   * What `completeTask` does to the task it found: a recurring task moves to
   * its next target date and back to `todo`, its `completedAt` untouched;
   * any other task becomes `done`, completed now. `None` when a recurring
   * task has no target date: the date arithmetic throws and nothing changes.
   */
  function Completion(t: Task, now: int): (r: Option<Task>)
    ensures r.None? <==> t.isRecurring && t.targetDate.None?
    ensures r.Some? && t.isRecurring ==>
              r.value.status == Todo && r.value.targetDate == Some(Rollover(t.targetDate.value, t.recurringFreq))
              && r.value.(status := t.status, targetDate := t.targetDate) == t
    ensures r.Some? && !t.isRecurring ==>
              r.value.status == Done && r.value.completedAt == Some(now)
              && r.value.(status := t.status, completedAt := t.completedAt) == t
  {
    if t.isRecurring then
      match t.targetDate
      case None => None
      case Some(day) => Some(t.(targetDate := Some(Rollover(day, t.recurringFreq)), status := Todo))
    else
      Some(t.(status := Done, completedAt := Some(now)))
  }

  /** What `reopenTask` does to the task it found. */
  function Reopened(t: Task): (r: Task)
    ensures r.status == InProgress && r.completedAt.None?
    ensures r.(status := t.status, completedAt := t.completedAt) == t
  {
    t.(status := InProgress, completedAt := None)
  }

  /**
   * The list after `saveTask` edits the task with `id`: the first task with
   * that id takes the form's fields; with no such task the list is as it was.
   */
  function Edited(ts: seq<Task>, id: string, form: Form, now: int): (r: seq<Task>)
    ensures |r| == |ts|
    ensures forall k :: 0 <= k < |ts| && ts[k].id != id ==> r[k] == ts[k]
    ensures FirstIndex(ts, id).Some? ==> r[FirstIndex(ts, id).value] == Assign(ts[FirstIndex(ts, id).value], form, now)
  {
    match FirstIndex(ts, id)
    case None => ts
    case Some(i) => ts[i := Assign(ts[i], form, now)]
  }

  /** The test `confirmDeleteTask` keeps tasks by. */
  function NotId(id: string): Task -> bool
  {
    (t: Task) => t.id != id
  }

  /** The imported tasks, each given its fresh id. */
  function WithIds(buffer: seq<Task>, ids: seq<string>): (r: seq<Task>)
    requires |ids| == |buffer|
    ensures |r| == |buffer|
    ensures forall k :: 0 <= k < |r| ==> r[k].id == ids[k] && r[k].(id := buffer[k].id) == buffer[k]
  {
    seq(|buffer|, k requires 0 <= k < |buffer| => buffer[k].(id := ids[k]))
  }

  /**
   * `getSampleTasks`: seven tasks due today plus 0, 2, 1, -2, 5, -1 and -3
   * days, created now; only the last is done, completed now.
   */
  function SampleTasks(today: int, now: int, ids: seq<string>): (r: seq<Task>)
    requires |ids| == 7
    ensures |r| == 7
  {
    [ Task(ids[0], "Review quarterly sales report", "Analyze Q4 numbers.", Critical, InProgress,
           Some(today), "Work", false, None, Some(now), None),
      Task(ids[1], "Update project documentation", "Add new API endpoints.", High, Todo,
           Some(today + 2), "Work", false, None, Some(now), None),
      Task(ids[2], "Team standup preparation", "Gather sprint metrics.", Medium, Todo,
           Some(today + 1), "Meetings", false, None, Some(now), None),
      Task(ids[3], "Fix authentication bug", "Users getting logged out.", Critical, Todo,
           Some(today - 2), "Bug Fix", false, None, Some(now), None),
      Task(ids[4], "Plan team offsite agenda", "Activities and venue for March.", Low, Todo,
           Some(today + 5), "Personal", false, None, Some(now), None),
      Task(ids[5], "Deploy v2.1 to staging", "Run full test suite.", High, InProgress,
           Some(today - 1), "DevOps", false, None, Some(now), None),
      Task(ids[6], "Write unit tests for payments", "Cover edge cases.", Medium, Done,
           Some(today - 3), "Work", false, None, Some(now), Some(now)) ]
  }

  /** Every sample task is consistent, has a target date, carries its given id and is created now. */
  lemma SamplesWellFormed(today: int, now: int, ids: seq<string>)
    requires |ids| == 7
    ensures forall k :: 0 <= k < 7 ==>
              Consistent(SampleTasks(today, now, ids)[k]) && SampleTasks(today, now, ids)[k].targetDate.Some?
              && SampleTasks(today, now, ids)[k].id == ids[k] && SampleTasks(today, now, ids)[k].createdAt == Some(now)
  {
  }

  /** Of the samples, exactly the fourth and the sixth are overdue. */
  lemma SamplesOverdue(today: int, now: int, ids: seq<string>)
    requires |ids| == 7
    ensures forall k :: 0 <= k < 7 ==> (IsOverdue(SampleTasks(today, now, ids)[k], today) <==> k == 3 || k == 5)
  {
  }

  /** Deleting keeps exactly the tasks with another id, in their order. */
  lemma DeleteMembers(ts: seq<Task>, id: string)
    ensures forall t :: t in Filter(ts, NotId(id)) <==> t in ts && t.id != id
  {
    FilterMembers(ts, NotId(id));
  }

  /** Completing a task keeps it consistent, unless it is a recurring task that is already done. */
  lemma CompletionConsistent(t: Task, now: int)
    requires Consistent(t) && !(t.isRecurring && t.status == Done)
    ensures Completion(t, now).Some? ==> Consistent(Completion(t, now).value)
  {
  }

  /**
   * A recurring task completed while done goes back to `todo` but keeps its
   * `completedAt`: the two fields then disagree.
   */
  lemma RecurringDoneKeepsCompletedAt(t: Task, now: int)
    requires t.isRecurring && t.targetDate.Some? && t.status == Done && t.completedAt.Some?
    ensures !Consistent(Completion(t, now).value)
  {
  }

  /** The local-mode store: the task list in memory, what storage holds, and the live remote listeners. */
  class TaskStore {
    var tasks: seq<Task>
    var stored: Stored
    /** Whether `unsubscribeSnapshot` holds a listener's handle. */
    var handle: bool
    /** How many remote listeners are attached. */
    var listeners: nat

    /** Every attached listener is the one the handle can tear down. */
    predicate Valid()
      reads this
    {
      listeners == if handle then 1 else 0
    }

    /** What storage holds is the list in memory. */
    predicate Saved()
      reads this
    {
      stored == Holds(tasks)
    }

    /** A fresh page: no tasks, no listener, storage as the browser left it. */
    constructor (storage: Stored)
      ensures Valid() && tasks == [] && stored == storage && !handle
    {
      tasks := [];
      stored := storage;
      handle := false;
      listeners := 0;
    }

    /**
     * `loadFromLocalStorage`: a stored list is used as is; with nothing stored
     * the samples are used and written back; when reading fails the samples
     * are used and nothing is written.
     */
    method Load(today: int, now: int, ids: seq<string>)
      requires |ids| == 7
      requires Valid()
      modifies this
      ensures Valid()
      ensures old(stored).Holds? ==> tasks == old(stored).tasks && stored == old(stored)
      ensures old(stored).Absent? ==> tasks == SampleTasks(today, now, ids) && Saved()
      ensures old(stored).Unreadable? ==> tasks == SampleTasks(today, now, ids) && stored == Unreadable
      ensures handle == old(handle) && listeners == old(listeners)
    {
      match stored
      case Holds(ts) =>
        tasks := ts;
      case Absent =>
        tasks := SampleTasks(today, now, ids);
        stored := Holds(tasks);
      case Unreadable =>
        tasks := SampleTasks(today, now, ids);
    }

    /**
     * `startTaskSync`: the listener the handle holds is torn down first; an
     * anonymous session then loads from storage, a signed-in one attaches a
     * new listener and keeps its handle.
     */
    method StartSync(anonymous: bool, today: int, now: int, ids: seq<string>)
      requires Valid() && |ids| == 7
      modifies this
      ensures Valid() && listeners == (if anonymous then 0 else 1) && handle == !anonymous
      ensures !anonymous ==> tasks == old(tasks) && stored == old(stored)
      ensures anonymous && old(stored).Holds? ==> tasks == old(stored).tasks && stored == old(stored)
      ensures anonymous && old(stored).Absent? ==> tasks == SampleTasks(today, now, ids) && Saved()
      ensures anonymous && old(stored).Unreadable? ==> tasks == SampleTasks(today, now, ids) && stored == Unreadable
    {
      if handle {
        listeners := listeners - 1;
        handle := false;
      }
      if anonymous {
        Load(today, now, ids);
      } else {
        listeners := listeners + 1;
        handle := true;
      }
    }

    /** `showAuthScreen`: the listener is torn down and the list emptied; storage is kept. */
    method SignOut()
      requires Valid()
      modifies this
      ensures Valid() && listeners == 0 && !handle && tasks == [] && stored == old(stored)
    {
      if handle {
        listeners := listeners - 1;
        handle := false;
      }
      tasks := [];
    }

    /**
     * `saveTask`: a blank title or an empty date is refused and nothing
     * changes; otherwise the task being edited is updated, or a new task is
     * added.
     */
    method SaveTask(form: Form, editing: Option<string>, freshId: string, now: int) returns (outcome: SaveOutcome)
      requires Valid()
      modifies this
      ensures Valid()
      ensures Trim(form.title) == [] ==> outcome == NoTitle && tasks == old(tasks) && stored == old(stored)
      ensures Trim(form.title) != [] && form.targetDate.None? ==>
                outcome == NoDate && tasks == old(tasks) && stored == old(stored)
      ensures Trim(form.title) != [] && form.targetDate.Some? && editing.Some? ==>
                outcome == Updated && Saved() && tasks == Edited(old(tasks), editing.value, form, now)
      ensures Trim(form.title) != [] && form.targetDate.Some? && editing.None? ==>
                outcome == Added && Saved() && tasks == old(tasks) + [NewTask(form, freshId, now)]
      ensures handle == old(handle) && listeners == old(listeners)
    {
      var title := Trim(form.title);
      if title == [] {
        return NoTitle;
      }
      if form.targetDate.None? {
        return NoDate;
      }
      match editing
      case Some(id) =>
        Update(id, form, now);
        outcome := Updated;
      case None =>
        Add(form, freshId, now);
        outcome := Added;
    }

    /** The update path of `saveTask`: the form's fields go to the first task with the id, and the list is saved. */
    method Update(id: string, form: Form, now: int)
      requires Valid()
      modifies this
      ensures Valid()
      ensures tasks == Edited(old(tasks), id, form, now) && Saved()
      ensures handle == old(handle) && listeners == old(listeners)
    {
      var i := FirstIndex(tasks, id);
      if i.Some? {
        tasks := tasks[i.value := Assign(tasks[i.value], form, now)];
      }
      stored := Holds(tasks);
    }

    /** The create path of `saveTask`: the new task is pushed, and the list is saved. */
    method Add(form: Form, freshId: string, now: int)
      requires Valid()
      modifies this
      ensures Valid()
      ensures tasks == old(tasks) + [NewTask(form, freshId, now)] && Saved()
      ensures handle == old(handle) && listeners == old(listeners)
    {
      tasks := tasks + [NewTask(form, freshId, now)];
      stored := Holds(tasks);
    }

    /**
     * `completeTask`: nothing happens when no task has the id, or when the
     * task recurs without a target date; otherwise the task is completed as
     * `Completion` says and the list is written to storage.
     */
    method Complete(id: string, now: int)
      requires Valid()
      modifies this
      ensures Valid()
      ensures FirstIndex(old(tasks), id).None? ==> tasks == old(tasks) && stored == old(stored)
      ensures FirstIndex(old(tasks), id).Some? ==>
                var i := FirstIndex(old(tasks), id).value;
                match Completion(old(tasks)[i], now)
                case None => tasks == old(tasks) && stored == old(stored)
                case Some(c) => tasks == old(tasks)[i := c] && Saved()
      ensures handle == old(handle) && listeners == old(listeners)
    {
      var found := FirstIndex(tasks, id);
      if found.None? {
        return;
      }
      var i := found.value;
      var t := tasks[i];
      if t.isRecurring {
        if t.targetDate.None? {
          return;
        }
        var next := NextTargetDate(t.targetDate.value, t.recurringFreq);
        tasks := tasks[i := t.(targetDate := Some(next), status := Todo)];
        stored := Holds(tasks);
        return;
      }
      tasks := tasks[i := t.(status := Done, completedAt := Some(now))];
      stored := Holds(tasks);
    }

    /** `reopenTask`: the first task with the id is reopened; the list is written to storage either way. */
    method Reopen(id: string)
      requires Valid()
      modifies this
      ensures Valid()
      ensures Saved()
      ensures FirstIndex(old(tasks), id).None? ==> tasks == old(tasks)
      ensures FirstIndex(old(tasks), id).Some? ==>
                var i := FirstIndex(old(tasks), id).value;
                tasks == old(tasks)[i := Reopened(old(tasks)[i])]
      ensures handle == old(handle) && listeners == old(listeners)
    {
      var found := FirstIndex(tasks, id);
      if found.Some? {
        tasks := tasks[found.value := Reopened(tasks[found.value])];
      }
      stored := Holds(tasks);
    }

    /**
     * `confirmDeleteTask`: with no task pending deletion nothing happens;
     * otherwise every task with that id is dropped, the rest keep their
     * order, and the list is written to storage.
     */
    method Delete(pending: Option<string>)
      requires Valid()
      modifies this
      ensures Valid()
      ensures pending.None? ==> tasks == old(tasks) && stored == old(stored)
      ensures pending.Some? ==> tasks == Filter(old(tasks), NotId(pending.value)) && Saved()
      ensures handle == old(handle) && listeners == old(listeners)
    {
      if pending.None? {
        return;
      }
      tasks := Filter(tasks, NotId(pending.value));
      stored := Holds(tasks);
    }

    /**
     * `confirmImport`: an empty buffer changes nothing; otherwise each
     * buffered task, given its fresh id, is pushed in order, and the list is
     * written to storage.
     */
    method Import(buffer: seq<Task>, ids: seq<string>)
      requires |ids| == |buffer|
      requires Valid()
      modifies this
      ensures Valid()
      ensures buffer == [] ==> tasks == old(tasks) && stored == old(stored)
      ensures buffer != [] ==> tasks == old(tasks) + WithIds(buffer, ids) && Saved()
      ensures handle == old(handle) && listeners == old(listeners)
    {
      if buffer == [] {
        return;
      }
      var i := 0;
      while i < |buffer|
        invariant 0 <= i <= |buffer|
        invariant tasks == old(tasks) + WithIds(buffer, ids)[..i]
        invariant handle == old(handle) && listeners == old(listeners)
      {
        tasks := tasks + [buffer[i].(id := ids[i])];
        assert WithIds(buffer, ids)[..i + 1] == WithIds(buffer, ids)[..i] + [buffer[i].(id := ids[i])];
        i := i + 1;
      }
      assert WithIds(buffer, ids)[..i] == WithIds(buffer, ids);
      stored := Holds(tasks);
    }
  }
}
