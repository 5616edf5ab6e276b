/**
 * One task card (src/components/TaskCard.jsx): the status badge, the move
 * buttons it offers, and the inline editor with its draft title and
 * description, Save, Cancel and a confirmed Delete. The card never changes
 * the board itself; each button hands a Request to one of the callbacks.
 */
module Card {
  import opened Options
  import opened Strings
  import opened Tasks

  /** The badge text of each status. */
  const STATUS_LABELS: map<string, string> := map[TODO := "To Do", IN_PROGRESS := "In Progress", DONE := "Done"]

  /** `STATUS_LABELS[task.status]`: None (`undefined`) for a status off the map. */
  function StatusLabel(status: string): (r: Option<string>)
    ensures r.Some? <==> status in STATUSES
  {
    if status in STATUS_LABELS then Some(STATUS_LABELS[status]) else None
  }

  /** The label map has a key for exactly the three statuses. */
  lemma StatusLabelsKeys()
    ensures STATUS_LABELS.Keys == set s | s in STATUSES
  {
  }

  /** The text of the advance button, or None when none is shown. */
  function NextLabel(status: string): (r: Option<string>)
    ensures status == TODO ==> r == Some("Move to In Progress")
    ensures status == IN_PROGRESS ==> r == Some("Move to Done")
    ensures r.Some? <==> status == TODO || status == IN_PROGRESS
  {
    if status == TODO then Some("Move to In Progress")
    else if status == IN_PROGRESS then Some("Move to Done")
    else None
  }

  /**
   * For a known status, the advance button is shown exactly when `moveNext`
   * would change the status; for any other status it is never shown, though
   * `moveNext` would send the task to todo.
   */
  lemma NextLabelMatchesMoveNext(status: string)
    ensures status in STATUSES ==> (NextLabel(status).Some? <==> NextStatus(status) != status)
    ensures status !in STATUSES ==> NextLabel(status).None?
  {
    NextStatusSteps(status);
  }

  /** The description the editor starts from: `task.description || ''`. */
  function DraftDescription(task: Task): (r: string)
    ensures task.description.Some? ==> r == task.description.value
    ensures task.description.None? ==> r == ""
  {
    task.description.GetOr("")
  }

  /**
   * The requests a card can hand to the board: an edit that sets a trimmed,
   * non-blank title and a description and nothing else; a move back to
   * inprogress; any delete or advance.
   */
  predicate CardRequest(request: Request) {
    match request
    case OnEdit(_, u) =>
      && u.id.None? && u.status.None? && u.createdAt.None? && u.description.Some?
      && u.title.Some? && Trim(u.title.value) == u.title.value && u.title.value != ""
    case OnMoveTo(_, status) => status == IN_PROGRESS
    case _ => true
  }

  /**
   * What `handleSave` sends for the drafts: nothing (the alert) when the draft
   * title is blank, otherwise an edit of this task's trimmed title and of the
   * description exactly as typed.
   */
  function SaveRequest(task: Task, title: string, description: string): (r: Option<Request>)
    ensures r.None? <==> AllWhiteSpace(title)
    ensures r.Some? ==> && CardRequest(r.value)
                        && r.value == OnEdit(task.id, Updates(None, Some(Trim(title)), Some(description), None, None))
  {
    TrimBlank(title);
    var trimmed := Trim(title);
    if trimmed == "" then
      None
    else
      TrimIdempotent(title);
      Some(OnEdit(task.id, Updates(None, Some(trimmed), Some(description), None, None)))
  }

  /** The state of one card: its task prop and the editor's draft. */
  class CardEditor {
    var task: Task
    var isEditing: bool
    var title: string
    var description: string

    /** Mounting the card: not editing, the drafts copied from the task. */
    constructor (task: Task)
      ensures this.task == task && !isEditing
      ensures title == task.title && description == DraftDescription(task)
    {
      this.task := task;
      isEditing := false;
      title := task.title;
      description := DraftDescription(task);
    }

    /**
     * A re-render with a new task prop; the drafts are kept, since the
     * initial values of the card's state are read only on mount.
     */
    method Rerender(task: Task)
      modifies this`task
      ensures this.task == task
    {
      this.task := task;
    }

    /** The Edit button. */
    method StartEditing()
      requires !isEditing
      modifies this`isEditing
      ensures isEditing
    {
      isEditing := true;
    }

    /** Typing into the title field. */
    method SetTitle(value: string)
      requires isEditing
      modifies this`title
      ensures title == value
    {
      title := value;
    }

    /** Typing into the description field. */
    method SetDescription(value: string)
      requires isEditing
      modifies this`description
      ensures description == value
    {
      description := value;
    }

    /**
     * The Save button. A blank draft title sends nothing and the editor stays
     * open; otherwise the edit is sent and the editor closes. The drafts are
     * left as typed.
     */
    method HandleSave() returns (request: Option<Request>)
      requires isEditing
      modifies this`isEditing
      ensures request == SaveRequest(old(task), old(title), old(description))
      ensures isEditing <==> request.None?
    {
      request := SaveRequest(task, title, description);
      if request.None? {
        return;
      }
      isEditing := false;
    }

    /** The Cancel button: the drafts go back to the task's values and the editor closes. */
    method Cancel()
      requires isEditing
      modifies this`isEditing, this`title, this`description
      ensures !isEditing && title == task.title && description == DraftDescription(task)
    {
      isEditing := false;
      title := task.title;
      description := DraftDescription(task);
    }

    /** The Delete button: the delete is sent only when the confirmation is accepted. */
    method RequestDelete(confirmed: bool) returns (request: Option<Request>)
      requires !isEditing
      ensures confirmed ==> request == Some(OnDelete(task.id))
      ensures !confirmed ==> request.None?
    {
      if confirmed {
        request := Some(OnDelete(task.id));
      } else {
        request := None;
      }
    }

    /** The advance button, shown only while it has a label. */
    method MoveNextClicked() returns (request: Request)
      requires !isEditing && NextLabel(task.status).Some?
      ensures request == OnMoveNext(task.id) && CardRequest(request)
    {
      request := OnMoveNext(task.id);
    }

    /** The move-back button, shown only on a done task: back to inprogress. */
    method MoveBackClicked() returns (request: Request)
      requires !isEditing && task.status == DONE
      ensures request == OnMoveTo(task.id, IN_PROGRESS) && CardRequest(request)
    {
      request := OnMoveTo(task.id, IN_PROGRESS);
    }
  }
}
