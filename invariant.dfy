/**
 * The board invariant that the add form and the card editor keep between
 * them: every title is non-blank after trimming, every status is one of
 * STATUSES, and no two tasks share an id. `editTask` and `moveTo` check
 * nothing themselves; the invariant holds because their only callers, the
 * card's Save and move-back buttons, send only a trimmed non-blank title and
 * only inprogress. Ids come from `uid()`, which is random, so each added id is
 * assumed fresh.
 */
module Invariant {
  import opened Options
  import opened Strings
  import opened Arrays
  import opened Tasks
  import opened Card

  /** No title is blank: each has a character other than white space. */
  predicate TitlesFilled(tasks: seq<Task>) {
    forall i :: 0 <= i < |tasks| ==> !AllWhiteSpace(tasks[i].title)
  }

  /** TitlesFilled is the `title.trim()` check of the add form and of Save. */
  lemma TitlesFilledIsTrimCheck(tasks: seq<Task>)
    ensures TitlesFilled(tasks) <==> forall i :: 0 <= i < |tasks| ==> Trim(tasks[i].title) != ""
  {
    forall i | 0 <= i < |tasks| {
      TrimBlank(tasks[i].title);
    }
  }

  predicate StatusesKnown(tasks: seq<Task>) {
    forall i :: 0 <= i < |tasks| ==> tasks[i].status in STATUSES
  }

  predicate IdsUnique(tasks: seq<Task>) {
    forall i, j :: 0 <= i < j < |tasks| ==> tasks[i].id != tasks[j].id
  }

  predicate Consistent(tasks: seq<Task>) {
    TitlesFilled(tasks) && StatusesKnown(tasks) && IdsUnique(tasks)
  }

  /** Any order-preserving selection of a consistent board is consistent. */
  lemma {:induction false} SubsequenceConsistent(a: seq<Task>, b: seq<Task>)
    requires Subsequence(a, b) && Consistent(b)
    ensures Consistent(a)
    decreases |b|
  {
    if a != [] {
      assert Consistent(b[1..]);
      if a[0] == b[0] && Subsequence(a[1..], b[1..]) {
        SubsequenceConsistent(a[1..], b[1..]);
        SubsequenceMultiset(a[1..], b[1..]);
        forall j | 1 <= j < |a|
          ensures a[0].id != a[j].id
        {
          assert a[j] in multiset(a[1..]);
          assert a[j] in b[1..];
          var k :| 1 <= k < |b| && b[k] == a[j];
        }
      } else {
        SubsequenceConsistent(a, b[1..]);
      }
    }
  }

  /** Putting a task with a known status, a filled title and a fresh id in front keeps consistency. */
  lemma PrependConsistent(tasks: seq<Task>, t: Task)
    requires Consistent(tasks) && t.id !in Ids(tasks)
    requires t.status in STATUSES && !AllWhiteSpace(t.title)
    ensures Consistent([t] + tasks)
  {
    forall i | 0 <= i < |tasks|
      ensures tasks[i].id != t.id
    {
      assert Ids(tasks)[i] == tasks[i].id;
    }
  }

  /** A successful add with a fresh id keeps the board consistent. */
  lemma AddTaskPreserves(tasks: seq<Task>, newTitle: string, newDescription: string, id: string, now: int)
    requires Consistent(tasks) && id !in Ids(tasks)
    ensures var r := AddTask(tasks, newTitle, newDescription, id, now);
            r.Some? ==> Consistent(r.value)
  {
    var c := CreateTask(newTitle, newDescription, id, now);
    if c.Some? {
      TrimBlank(c.value.title);
      PrependConsistent(tasks, c.value);
    }
  }

  /** Every request a card can send keeps the board consistent. */
  lemma ApplyPreserves(tasks: seq<Task>, request: Request)
    requires Consistent(tasks) && CardRequest(request)
    ensures Consistent(Apply(tasks, request))
  {
    match request
    case OnEdit(id, u) =>
      TrimBlank(u.title.value);
      var r := EditTask(tasks, id, u);
      assert forall i :: 0 <= i < |r| ==> r[i].id == tasks[i].id && r[i].status == tasks[i].status;
    case OnDelete(id) =>
      SubsequenceConsistent(DeleteTask(tasks, id), tasks);
    case OnMoveNext(id) =>
    case OnMoveTo(id, status) =>
  }

  /**
   * `editTask` itself does no validation: called directly it can blank a
   * title, which is why the check in the card's Save matters.
   */
  lemma EditTaskDoesNotValidate()
    ensures exists tasks, id, u :: Consistent(tasks) && !TitlesFilled(EditTask(tasks, id, u))
  {
    var t := Task("a", "A", None, TODO, 0);
    var u := Updates(None, Some(" "), None, None, None);
    assert Trim("A") != "" by {
      TrimBlank("A");
    }
    assert Consistent([t]);
    assert EditTask([t], "a", u)[0].title == " ";
    assert Trim(" ") == "" by {
      TrimBlank(" ");
    }
  }

  /**
   * `moveTo` does not check its status either: called directly it can put a
   * task outside every column.
   */
  lemma MoveToDoesNotValidate()
    ensures exists tasks, id, s :: Consistent(tasks) && !StatusesKnown(MoveTo(tasks, id, s))
  {
    var t := Task("a", "A", None, TODO, 0);
    assert Trim("A") != "" by {
      TrimBlank("A");
    }
    assert Consistent([t]);
    assert MoveTo([t], "a", "archived")[0].status == "archived";
  }

  /** One user action on the board: submitting the add form, or a card's callback. */
  datatype Event =
    | SubmitAdd(newTitle: string, newDescription: string, id: string, now: int)
    | FromCard(request: Request)

  function Step(tasks: seq<Task>, e: Event): seq<Task> {
    match e
    case SubmitAdd(title, description, id, now) =>
      AddTask(tasks, title, description, id, now).GetOr(tasks)
    case FromCard(request) => Apply(tasks, request)
  }

  /** An add brings an id no task has; a card request is one a card can send. */
  predicate Admissible(tasks: seq<Task>, e: Event) {
    match e
    case SubmitAdd(_, _, id, _) => id !in Ids(tasks)
    case FromCard(request) => CardRequest(request)
  }

  function Run(tasks: seq<Task>, events: seq<Event>): seq<Task>
    decreases |events|
  {
    if events == [] then tasks else Run(Step(tasks, events[0]), events[1..])
  }

  predicate AdmissibleRun(tasks: seq<Task>, events: seq<Event>)
    decreases |events|
  {
    events == [] || (Admissible(tasks, events[0]) && AdmissibleRun(Step(tasks, events[0]), events[1..]))
  }

  /** A session of admissible actions from a consistent board ends on a consistent board. */
  lemma {:induction false} RunPreservesConsistent(tasks: seq<Task>, events: seq<Event>)
    requires Consistent(tasks) && AdmissibleRun(tasks, events)
    ensures Consistent(Run(tasks, events))
    decreases |events|
  {
    if events != [] {
      match events[0] {
        case SubmitAdd(title, description, id, now) =>
          AddTaskPreserves(tasks, title, description, id, now);
        case FromCard(request) =>
          ApplyPreserves(tasks, request);
      }
      RunPreservesConsistent(Step(tasks, events[0]), events[1..]);
    }
  }

  /** How many of the events are adds with a title that is not blank. */
  function AcceptedAdds(events: seq<Event>): nat {
    if events == [] then 0
    else (if events[0].SubmitAdd? && !AllWhiteSpace(events[0].newTitle) then 1 else 0) + AcceptedAdds(events[1..])
  }

  /** A run of adds alone grows the board by one task per add with a non-blank title. */
  lemma {:induction false} RunAddsLength(tasks: seq<Task>, events: seq<Event>)
    requires forall i :: 0 <= i < |events| ==> events[i].SubmitAdd?
    ensures |Run(tasks, events)| == |tasks| + AcceptedAdds(events)
    decreases |events|
  {
    if events != [] {
      RunAddsLength(Step(tasks, events[0]), events[1..]);
    }
  }
}
