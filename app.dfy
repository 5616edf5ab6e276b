/**
 * The board component (src/App.jsx) as an object: the task array and the add
 * form's fields are its state, and each handler replaces the tasks with what
 * the matching updater in module Tasks computes. Loading and saving the tasks
 * happen outside: the constructor takes whatever array was loaded, unchecked.
 */
module App {
  import opened Options
  import opened Strings
  import opened Tasks
  import opened Card
  import opened Invariant

  class Board {
    var tasks: seq<Task>
    var showAdd: bool
    var newTitle: string
    var newDescription: string

    /** Mounting the board with the tasks loaded from storage; the add form is closed and empty. */
    constructor (loaded: seq<Task>)
      ensures tasks == loaded
      ensures !showAdd && newTitle == "" && newDescription == ""
    {
      tasks := loaded;
      showAdd := false;
      newTitle := "";
      newDescription := "";
    }

    /** The header button that opens and closes the add form. */
    method ToggleAdd()
      modifies this`showAdd
      ensures showAdd == !old(showAdd)
    {
      showAdd := !showAdd;
    }

    /** Typing into the add form's title field. */
    method SetNewTitle(value: string)
      modifies this`newTitle
      ensures newTitle == value
    {
      newTitle := value;
    }

    /** Typing into the add form's description field. */
    method SetNewDescription(value: string)
      modifies this`newDescription
      ensures newDescription == value
    {
      newDescription := value;
    }

    /** The add form's Cancel button: the form closes and is cleared; the tasks stay. */
    method CancelAdd()
      modifies this`showAdd, this`newTitle, this`newDescription
      ensures !showAdd && newTitle == "" && newDescription == ""
    {
      showAdd := false;
      newTitle := "";
      newDescription := "";
    }

    /**
     * `addTask`, with `id` for `uid()` and `now` for `Date.now()`. A blank
     * title is refused (the alert) and nothing changes. Otherwise the new todo
     * task goes in front of the old ones and the form is cleared and closed; a
     * fresh id keeps a consistent board consistent.
     */
    method AddTask(id: string, now: int) returns (accepted: bool)
      modifies this
      ensures accepted <==> !AllWhiteSpace(old(newTitle))
      ensures Tasks.AddTask(old(tasks), old(newTitle), old(newDescription), id, now)
              == (if accepted then Some(tasks) else None)
      ensures !accepted ==> && tasks == old(tasks) && showAdd == old(showAdd)
                            && newTitle == old(newTitle) && newDescription == old(newDescription)
      ensures accepted ==> !showAdd && newTitle == "" && newDescription == ""
      ensures Consistent(old(tasks)) && id !in Ids(old(tasks)) ==> Consistent(tasks)
    {
      var task := CreateTask(newTitle, newDescription, id, now);
      if task.None? {
        accepted := false;
        return;
      }
      if Consistent(tasks) && id !in Ids(tasks) {
        AddTaskPreserves(tasks, newTitle, newDescription, id, now);
      }
      tasks := [task.value] + tasks;
      newTitle := "";
      newDescription := "";
      showAdd := false;
      accepted := true;
    }

    /** `editTask(id, updates)`. */
    method EditTask(id: string, updates: Updates)
      modifies this`tasks
      ensures tasks == Tasks.EditTask(old(tasks), id, updates)
    {
      tasks := Tasks.EditTask(tasks, id, updates);
    }

    /** `deleteTask(id)`. */
    method DeleteTask(id: string)
      modifies this`tasks
      ensures tasks == Tasks.DeleteTask(old(tasks), id)
    {
      tasks := Tasks.DeleteTask(tasks, id);
    }

    /** `moveNext(id)`. */
    method MoveNext(id: string)
      modifies this`tasks
      ensures tasks == Tasks.MoveNext(old(tasks), id)
    {
      tasks := Tasks.MoveNext(tasks, id);
    }

    /** `moveTo(id, status)`. */
    method MoveTo(id: string, status: string)
      modifies this`tasks
      ensures tasks == Tasks.MoveTo(old(tasks), id, status)
    {
      tasks := Tasks.MoveTo(tasks, id, status);
    }

    /**
     * A card calling one of the four callbacks it was handed. Whatever a card
     * can send keeps a consistent board consistent.
     */
    method Dispatch(request: Request)
      modifies this`tasks
      ensures tasks == Apply(old(tasks), request)
      ensures Consistent(old(tasks)) && CardRequest(request) ==> Consistent(tasks)
    {
      if Consistent(tasks) && CardRequest(request) {
        ApplyPreserves(tasks, request);
      }
      match request
      case OnEdit(id, updates) => EditTask(id, updates);
      case OnDelete(id) => DeleteTask(id);
      case OnMoveNext(id) => MoveNext(id);
      case OnMoveTo(id, status) => MoveTo(id, status);
    }
  }

  /**
   * A card's Save wired to the board's `editTask`: a blank draft title leaves
   * the board as it was and the editor open; otherwise the card's task gets the
   * trimmed title and the typed description. The board stays consistent.
   */
  method SaveCard(board: Board, card: CardEditor)
    requires card.isEditing
    modifies board`tasks, card`isEditing
    ensures card.isEditing <==> AllWhiteSpace(card.title)
    ensures card.isEditing ==> board.tasks == old(board.tasks)
    ensures !card.isEditing ==>
              board.tasks == Tasks.EditTask(old(board.tasks), card.task.id,
                                            Updates(None, Some(Trim(card.title)), Some(card.description), None, None))
    ensures Consistent(old(board.tasks)) ==> Consistent(board.tasks)
  {
    var request := card.HandleSave();
    if request.Some? {
      board.Dispatch(request.value);
    }
  }

  /** A card's Delete wired to the board's `deleteTask`, behind the confirmation. */
  method DeleteCard(board: Board, card: CardEditor, confirmed: bool)
    requires !card.isEditing
    modifies board`tasks
    ensures confirmed ==> board.tasks == Tasks.DeleteTask(old(board.tasks), card.task.id)
    ensures !confirmed ==> board.tasks == old(board.tasks)
    ensures Consistent(old(board.tasks)) ==> Consistent(board.tasks)
  {
    var request := card.RequestDelete(confirmed);
    if request.Some? {
      board.Dispatch(request.value);
    }
  }
}
