/**
 * The task collection of the board (src/App.jsx): the task record, the status
 * list, and the updaters that `addTask`, `editTask`, `deleteTask`, `moveNext`
 * and `moveTo` hand to `setTasks`, each a function from the previous array of
 * tasks to the next one; and the `lists` split into the three columns.
 */
module Tasks {
  import opened Options
  import opened Strings
  import opened Arrays

  const TODO: string := "todo"
  const IN_PROGRESS: string := "inprogress"
  const DONE: string := "done"

  /** The column order a task advances through. */
  const STATUSES: seq<string> := [TODO, IN_PROGRESS, DONE]

  /**
   * A task record. `status` is any string: nothing in the board checks it
   * against STATUSES. `description` is None when the stored record has no
   * such field (or a null one).
   */
  datatype Task = Task(
    id: string,
    title: string,
    description: Option<string>,
    status: string,
    createdAt: int)

  /** The fields an update object carries; the absent ones are None. */
  datatype Updates = Updates(
    id: Option<string>,
    title: Option<string>,
    description: Option<string>,
    status: Option<string>,
    createdAt: Option<int>)

  /** The callbacks a card is handed: onEdit, onDelete, onMoveNext, onMoveTo. */
  datatype Request =
    | OnEdit(id: string, updates: Updates)
    | OnDelete(id: string)
    | OnMoveNext(id: string)
    | OnMoveTo(id: string, status: string)

  /** The three columns of the board. */
  datatype Columns = Columns(todo: seq<Task>, inprogress: seq<Task>, done: seq<Task>)

  function Ids(tasks: seq<Task>): seq<string> {
    seq(|tasks|, i requires 0 <= i < |tasks| => tasks[i].id)
  }

  /** `{ ...t, ...updates }`: each field present in `u` replaces that of `t`. */
  function Merge(t: Task, u: Updates): (r: Task)
    ensures u.id.Some? ==> r.id == u.id.value
    ensures u.id.None? ==> r.id == t.id
    ensures u.title.Some? ==> r.title == u.title.value
    ensures u.title.None? ==> r.title == t.title
    ensures u.description.Some? ==> r.description == u.description
    ensures u.description.None? ==> r.description == t.description
    ensures u.status.Some? ==> r.status == u.status.value
    ensures u.status.None? ==> r.status == t.status
    ensures u.createdAt.Some? ==> r.createdAt == u.createdAt.value
    ensures u.createdAt.None? ==> r.createdAt == t.createdAt
  {
    Task(
      u.id.GetOr(t.id),
      u.title.GetOr(t.title),
      if u.description.Some? then u.description else t.description,
      u.status.GetOr(t.status),
      u.createdAt.GetOr(t.createdAt))
  }

  /** `prev.map(t => t.id === id ? f(t) : t)` */
  function MapMatching(tasks: seq<Task>, id: string, f: Task -> Task): seq<Task> {
    seq(|tasks|, i requires 0 <= i < |tasks| => if tasks[i].id == id then f(tasks[i]) else tasks[i])
  }

  /**
   * The task the add form creates, or None when the title is blank (the
   * `alert('Title is required')` path). Both fields are trimmed; `id` and `now`
   * stand for `uid()` and `Date.now()`.
   */
  function CreateTask(newTitle: string, newDescription: string, id: string, now: int): (r: Option<Task>)
    ensures r.None? <==> AllWhiteSpace(newTitle)
    ensures r.Some? ==> && r.value.id == id && r.value.createdAt == now
                        && r.value.status == TODO
                        && r.value.title == Trim(newTitle) && Trim(r.value.title) == r.value.title
                        && r.value.title != ""
                        && r.value.description == Some(Trim(newDescription))
  {
    TrimBlank(newTitle);
    var title := Trim(newTitle);
    if title == "" then
      None
    else
      TrimIdempotent(newTitle);
      Some(Task(id, title, Some(Trim(newDescription)), TODO, now))
  }

  /**
   * The tasks after `addTask`: the new task in front of all the old ones, or
   * None when the title is blank and nothing is added.
   */
  function AddTask(tasks: seq<Task>, newTitle: string, newDescription: string, id: string, now: int)
    : (r: Option<seq<Task>>)
    ensures r.None? <==> AllWhiteSpace(newTitle)
    ensures r.Some? ==> && |r.value| == |tasks| + 1
                        && r.value[1..] == tasks
                        && CreateTask(newTitle, newDescription, id, now) == Some(r.value[0])
  {
    match CreateTask(newTitle, newDescription, id, now)
    case None => None
    case Some(task) => Some([task] + tasks)
  }

  /**
   * The tasks after `editTask(id, updates)`: same length and order; a task
   * with another id is untouched, one with this id takes the fields of
   * `updates` and keeps the others. Nothing here checks the new title.
   */
  function EditTask(tasks: seq<Task>, id: string, updates: Updates): (r: seq<Task>)
    ensures |r| == |tasks|
    ensures forall i :: 0 <= i < |tasks| && tasks[i].id != id ==> r[i] == tasks[i]
    ensures forall i :: 0 <= i < |tasks| && tasks[i].id == id ==> r[i] == Merge(tasks[i], updates)
  {
    MapMatching(tasks, id, (t: Task) => Merge(t, updates))
  }

  /** An update of the title and description leaves id, status and creation time alone. */
  lemma EditTitleAndDescription(tasks: seq<Task>, id: string, title: string, description: string)
    ensures var r := EditTask(tasks, id, Updates(None, Some(title), Some(description), None, None));
            && Ids(r) == Ids(tasks)
            && forall i :: 0 <= i < |tasks| ==>
                 && r[i].status == tasks[i].status && r[i].createdAt == tasks[i].createdAt
                 && (tasks[i].id == id ==> r[i].title == title && r[i].description == Some(description))
                 && (tasks[i].id != id ==> r[i] == tasks[i])
  {
  }

  /** An edit addressed to an id no task has changes nothing. */
  lemma EditTaskAbsent(tasks: seq<Task>, id: string, updates: Updates)
    requires id !in Ids(tasks)
    ensures EditTask(tasks, id, updates) == tasks
  {
    var r := EditTask(tasks, id, updates);
    forall i | 0 <= i < |tasks|
      ensures r[i] == tasks[i]
    {
      assert Ids(tasks)[i] == tasks[i].id;
    }
  }

  /**
   * The tasks after `deleteTask(id)`: the tasks whose id differs, each as often
   * as before, in their old order.
   */
  function DeleteTask(tasks: seq<Task>, id: string): (r: seq<Task>)
    ensures Subsequence(r, tasks)
    ensures forall t :: t in r <==> t in tasks && t.id != id
    ensures forall t :: multiset(r)[t] == if t.id != id then multiset(tasks)[t] else 0
  {
    Filter(tasks, (t: Task) => t.id != id)
  }

  /** Deleting an id that no task carries is a no-op. */
  lemma DeleteTaskAbsent(tasks: seq<Task>, id: string)
    requires id !in Ids(tasks)
    ensures DeleteTask(tasks, id) == tasks
  {
    forall t | t in tasks
      ensures t.id != id
    {
      var i :| 0 <= i < |tasks| && tasks[i] == t;
      assert Ids(tasks)[i] == t.id;
    }
    FilterKeepsAll(tasks, (t: Task) => t.id != id);
  }

  /** Deleting twice is deleting once. */
  lemma DeleteTaskIdempotent(tasks: seq<Task>, id: string)
    ensures DeleteTask(DeleteTask(tasks, id), id) == DeleteTask(tasks, id)
  {
    FilterIdempotent(tasks, (t: Task) => t.id != id);
  }

  /**
   * The contract of DeleteTask pins its result down: any order-preserving
   * selection of the tasks holding exactly those with another id is it.
   */
  lemma DeleteTaskExactly(tasks: seq<Task>, id: string, r: seq<Task>)
    requires Subsequence(r, tasks)
    requires forall t :: multiset(r)[t] == if t.id != id then multiset(tasks)[t] else 0
    ensures r == DeleteTask(tasks, id)
  {
    FilterUnique(tasks, (t: Task) => t.id != id, r);
  }

  /**
   * `STATUSES[Math.min(STATUSES.indexOf(s) + 1, STATUSES.length - 1)]`: the
   * next status, saturating at the last one. An unknown status has index -1
   * and so becomes the first one.
   */
  function NextStatus(s: string): (r: string)
    ensures r in STATUSES
  {
    var next := IndexOf(STATUSES, s) + 1;
    STATUSES[if next < |STATUSES| - 1 then next else |STATUSES| - 1]
  }

  /** todo -> inprogress -> done -> done, and any other status -> todo. */
  lemma NextStatusSteps(s: string)
    ensures s == TODO ==> NextStatus(s) == IN_PROGRESS
    ensures s == IN_PROGRESS ==> NextStatus(s) == DONE
    ensures s == DONE ==> NextStatus(s) == DONE
    ensures s !in STATUSES ==> NextStatus(s) == TODO
  {
    var k := IndexOf(STATUSES, s);
    if s == TODO {
      assert STATUSES[0] == s;
      assert k == 0;
    } else if s == IN_PROGRESS {
      assert STATUSES[0] != s && STATUSES[1] == s;
      assert STATUSES[..1] == [TODO];
      assert k == 1;
    } else if s == DONE {
      assert STATUSES[0] != s && STATUSES[1] != s && STATUSES[2] == s;
      assert STATUSES[..2] == [TODO, IN_PROGRESS];
      assert k == 2;
    }
  }

  /** From a known status, two steps always reach done. */
  lemma NextStatusSaturates(s: string)
    requires s in STATUSES
    ensures NextStatus(NextStatus(s)) == DONE
  {
    NextStatusSteps(s);
    NextStatusSteps(NextStatus(s));
  }

  /**
   * The tasks after `moveNext(id)`: only tasks with this id change, and only
   * their status, which takes one step along STATUSES.
   */
  function MoveNext(tasks: seq<Task>, id: string): (r: seq<Task>)
    ensures |r| == |tasks|
    ensures forall i :: 0 <= i < |tasks| ==>
              r[i] == tasks[i].(status := if tasks[i].id == id then NextStatus(tasks[i].status) else tasks[i].status)
  {
    MapMatching(tasks, id, (t: Task) => t.(status := NextStatus(t.status)))
  }

  /** `moveNext` on a task that is already done changes nothing. */
  lemma MoveNextDone(tasks: seq<Task>, id: string)
    requires forall i :: 0 <= i < |tasks| && tasks[i].id == id ==> tasks[i].status == DONE
    ensures MoveNext(tasks, id) == tasks
  {
    NextStatusSteps(DONE);
  }

  /**
   * The tasks after `moveTo(id, status)`: only tasks with this id change, and
   * only their status, which becomes `status` whatever string it is.
   */
  function MoveTo(tasks: seq<Task>, id: string, status: string): (r: seq<Task>)
    ensures |r| == |tasks|
    ensures forall i :: 0 <= i < |tasks| ==>
              r[i] == tasks[i].(status := if tasks[i].id == id then status else tasks[i].status)
  {
    MapMatching(tasks, id, (t: Task) => t.(status := status))
  }

  /** What a card's callback does to the tasks. */
  function Apply(tasks: seq<Task>, request: Request): seq<Task> {
    match request
    case OnEdit(id, updates) => EditTask(tasks, id, updates)
    case OnDelete(id) => DeleteTask(tasks, id)
    case OnMoveNext(id) => MoveNext(tasks, id)
    case OnMoveTo(id, status) => MoveTo(tasks, id, status)
  }

  /** `tasks.filter(t => t.status === status)` */
  function Column(tasks: seq<Task>, status: string): (r: seq<Task>)
    ensures Subsequence(r, tasks)
    ensures forall t :: t in r <==> t in tasks && t.status == status
    ensures forall t :: multiset(r)[t] == if t.status == status then multiset(tasks)[t] else 0
  {
    Filter(tasks, (t: Task) => t.status == status)
  }

  /**
   * The `lists` memo: the board split into its three columns. Each column
   * keeps the board's order and holds exactly the tasks of its status; a
   * task with any other status is in no column.
   */
  function Lists(tasks: seq<Task>): (r: Columns)
    ensures Subsequence(r.todo, tasks) && Subsequence(r.inprogress, tasks) && Subsequence(r.done, tasks)
    ensures forall t :: t in r.todo <==> t in tasks && t.status == TODO
    ensures forall t :: t in r.inprogress <==> t in tasks && t.status == IN_PROGRESS
    ensures forall t :: t in r.done <==> t in tasks && t.status == DONE
    ensures forall t: Task :: t.status !in STATUSES ==> t !in r.todo && t !in r.inprogress && t !in r.done
  {
    Columns(Column(tasks, TODO), Column(tasks, IN_PROGRESS), Column(tasks, DONE))
  }

  /** Editing the same fields twice is editing them once. */
  lemma MergeIdempotent(t: Task, u: Updates)
    ensures Merge(Merge(t, u), u) == Merge(t, u)
  {
  }

  /** When every status is known, the three columns together hold the whole board. */
  lemma ListsCoverBoard(tasks: seq<Task>)
    requires forall i :: 0 <= i < |tasks| ==> tasks[i].status in STATUSES
    ensures var c := Lists(tasks);
            && multiset(c.todo) + multiset(c.inprogress) + multiset(c.done) == multiset(tasks)
            && |c.todo| + |c.inprogress| + |c.done| == |tasks|
  {
    var todo, inprogress, done := Column(tasks, TODO), Column(tasks, IN_PROGRESS), Column(tasks, DONE);
    var m := multiset(todo) + multiset(inprogress) + multiset(done);
    forall t
      ensures m[t] == multiset(tasks)[t]
    {
      if t in tasks {
        var i :| 0 <= i < |tasks| && tasks[i] == t;
        assert t.status in STATUSES;
      }
    }
    assert m == multiset(tasks);
    assert |m| == |todo| + |inprogress| + |done|;
  }
}
