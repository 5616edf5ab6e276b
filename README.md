# Task board state engine — a Dafny model

This project models the state engine of a small kanban board ("Trello Lite").
Tasks move through three status columns, To Do, In Progress and Done. The
board component (`src/App.jsx`) owns an ordered array of task records and
the add form. Each task card (`src/components/TaskCard.jsx`) shows one task
and offers the move, edit and delete actions. The model covers:

- the task record and the status list `STATUSES`;
- the array updaters behind `addTask`, `editTask`, `deleteTask`, `moveNext`
  and `moveTo`, and the `lists` split into columns, as pure functions on
  `seq<Task>` (module `Tasks`);
- the board component as a class `App.Board`, whose fields are the task
  array and the add form (`showAdd`, `newTitle`, `newDescription`);
- the card (module `Card`): the status badge and the label of the advance
  button as functions, and the editor as a class `Card.CardEditor` holding
  the draft, with Save, Cancel, the move buttons and the confirmed Delete;
- JavaScript's `String.prototype.trim` (module `Strings`) and
  `Array.prototype.filter` / `indexOf` (module `Arrays`), since every
  validation and every column depends on them;
- the board invariant that the add form and the card enforce between them
  (module `Invariant`). Every title is non-blank after trimming, every
  status is one of the three, and no two tasks share an id. `editTask` and
  `moveTo` check nothing themselves. The invariant holds because their only
  callers, the card's Save and move-back buttons, send only a trimmed
  non-blank title and only `inprogress`. It also needs each id from `uid()`
  to be fresh.

A card never changes the board itself. Each button produces a `Request`
(`OnEdit`, `OnDelete`, `OnMoveNext`, `OnMoveTo`, one per callback prop).
`Board.Dispatch` applies it. `App.SaveCard` and `App.DeleteCard` show the
two wired together.

The model follows the code as written:

- a status passed to `moveTo` is not checked, so any string can become a status;
- an edit or move addressed to an unknown id changes nothing;
- ids are random, so uniqueness is not guaranteed; it is proved here only
  under a freshness precondition;
- the 120 and 1000 character limits are input attributes that neither
  `addTask` nor Save checks;
- Save passes the description untrimmed, while `addTask` trims it;
- the board has no drag-and-drop or reorder operation.

## Model

| member | source | states |
|---|---|---|
| `Strings.Trim` | src/App.jsx:34 | `s.trim()` is never longer than `s`, and it neither starts nor ends with white space |
| `Strings.TrimSurrounds` | src/App.jsx:34 | `s.trim()` is a contiguous slice of `s` with only white space before and after it |
| `Strings.TrimBlank` | src/App.jsx:35 | the trimmed title is empty exactly when every character of the title is white space |
| `Strings.TrimIdempotent` | src/components/TaskCard.jsx:19 | trimming an already trimmed title changes nothing |
| `Arrays.Filter` | src/App.jsx:57 | `filter` keeps exactly the elements that pass, each as often as before, in their old order |
| `Arrays.FilterKeepsAll` | src/App.jsx:57 | filtering with a test every element passes returns the same array |
| `Arrays.FilterIdempotent` | src/App.jsx:57 | filtering twice with the same test is filtering once |
| `Arrays.FilterUnique` | src/App.jsx:57 | any order-preserving selection that has the right multiplicities is the result of `filter` |
| `Arrays.IndexOf` | src/App.jsx:63 | `indexOf` is -1 exactly when the element is absent; otherwise it is the first position holding it |
| `Tasks.CreateTask` | src/App.jsx:34-45 | a blank title creates nothing; otherwise the task has the given id and time, status todo, the trimmed non-blank title and the trimmed description |
| `Tasks.AddTask` | src/App.jsx:33-46 | a blank title adds nothing; otherwise the length grows by one, the new task is in front, and the old tasks follow in their order |
| `Tasks.Merge` | src/App.jsx:53 | `{ ...t, ...updates }`: each field given in the updates replaces the task's, and every field not given keeps the task's value |
| `Tasks.MergeIdempotent` | src/App.jsx:53 | applying the same updates twice gives the same task as applying them once |
| `Tasks.EditTask` | src/App.jsx:52-54 | length and order are kept; a task with another id is unchanged; a task with this id takes the given fields and keeps the others |
| `Tasks.EditTitleAndDescription` | src/App.jsx:52-54 | an edit of title and description keeps every id, status and creation time, and sets both fields only on the matching tasks |
| `Tasks.EditTaskAbsent` | src/App.jsx:53 | an edit addressed to an id that no task has changes nothing |
| `Tasks.DeleteTask` | src/App.jsx:56-58 | the result is the tasks whose id differs, each as often as before, in their old order |
| `Tasks.DeleteTaskAbsent` | src/App.jsx:57 | deleting an id that no task has is a no-op |
| `Tasks.DeleteTaskIdempotent` | src/App.jsx:57 | deleting the same id twice is deleting it once |
| `Tasks.DeleteTaskExactly` | src/App.jsx:57 | the contract of `DeleteTask` determines its result uniquely |
| `Tasks.NextStatus` | src/App.jsx:63-64 | the next status is always one of `STATUSES` |
| `Tasks.NextStatusSteps` | src/App.jsx:60-65 | todo goes to inprogress, inprogress to done, done stays done, and an unknown status (index -1) becomes todo |
| `Tasks.NextStatusSaturates` | src/App.jsx:64 | from any known status, two steps reach done |
| `Tasks.MoveNext` | src/App.jsx:60-67 | only tasks with this id change, and only their status, which takes one step |
| `Tasks.MoveNextDone` | src/App.jsx:60-67 | `moveNext` on tasks that are already done changes nothing |
| `Tasks.MoveTo` | src/App.jsx:69-71 | only tasks with this id change, and only their status, which becomes the given string unchecked |
| `Tasks.Column` | src/App.jsx:28-30 | a column is an order-preserving selection of the board that holds exactly the tasks of its status |
| `Tasks.Lists` | src/App.jsx:27-31 | each of the three columns is an order-preserving selection of the board holding exactly the tasks of its status; a task with any other status sits in no column |
| `Tasks.ListsCoverBoard` | src/App.jsx:27-31 | when every status is known, the three columns together hold every task exactly as often as the board does |
| `Card.StatusLabel` | src/components/TaskCard.jsx:3-7 | a status has a badge label exactly when it is one of the three statuses |
| `Card.StatusLabelsKeys` | src/components/TaskCard.jsx:3-7 | the label map has a key for exactly the three statuses |
| `Card.NextLabel` | src/components/TaskCard.jsx:14-16 | todo offers "Move to In Progress", inprogress offers "Move to Done", and every other status, done included, offers no advance |
| `Card.NextLabelMatchesMoveNext` | src/components/TaskCard.jsx:14-16 | for a known status, the advance button is shown exactly when `moveNext` would change the status |
| `Card.DraftDescription` | src/components/TaskCard.jsx:12 | the draft description is the task's description, or empty when the task has none |
| `Card.SaveRequest` | src/components/TaskCard.jsx:18-21 | a blank draft title sends nothing; otherwise the card sends an edit of its own task with the trimmed title and the untrimmed description, and nothing else |
| `Card.CardEditor.constructor` | src/components/TaskCard.jsx:10-12 | a new card is not editing, and its drafts are copied from the task |
| `Card.CardEditor.Rerender` | src/components/TaskCard.jsx:9-12 | a new task prop replaces the task and keeps the drafts |
| `Card.CardEditor.StartEditing` | src/components/TaskCard.jsx:61 | the Edit button opens the editor |
| `Card.CardEditor.SetTitle` | src/components/TaskCard.jsx:85 | typing sets the draft title |
| `Card.CardEditor.SetDescription` | src/components/TaskCard.jsx:95 | typing sets the draft description |
| `Card.CardEditor.HandleSave` | src/components/TaskCard.jsx:18-23 | Save sends what `SaveRequest` gives; the editor closes exactly when a request was sent |
| `Card.CardEditor.Cancel` | src/components/TaskCard.jsx:109-113 | Cancel closes the editor and resets the drafts from the task |
| `Card.CardEditor.RequestDelete` | src/components/TaskCard.jsx:68-69 | Delete sends the request only when the confirmation is accepted |
| `Card.CardEditor.MoveNextClicked` | src/components/TaskCard.jsx:42-44 | the advance button, shown only while it has a label, sends `moveNext` for this task |
| `Card.CardEditor.MoveBackClicked` | src/components/TaskCard.jsx:51-53 | the move-back button, shown only on a done task, sends `moveTo(id, 'inprogress')` |
| `Invariant.TitlesFilledIsTrimCheck` | src/App.jsx:34-35 | "no title is all white space" is the same as "no title trims to empty" |
| `Invariant.SubsequenceConsistent` | src/App.jsx:57 | every order-preserving selection of a consistent board is consistent |
| `Invariant.PrependConsistent` | src/App.jsx:46 | putting in front a task with a known status, a filled title and a fresh id keeps the board consistent |
| `Invariant.AddTaskPreserves` | src/App.jsx:33-46 | an add with a fresh id keeps the board consistent |
| `Invariant.ApplyPreserves` | src/App.jsx:52-71 | every request a card can send keeps the board consistent |
| `Invariant.EditTaskDoesNotValidate` | src/App.jsx:52-54 | called directly, `editTask` can blank a title on a consistent board |
| `Invariant.MoveToDoesNotValidate` | src/App.jsx:69-71 | called directly, `moveTo` can give a task a status outside every column |
| `Invariant.RunPreservesConsistent` | src/App.jsx:135-161 | any session of adds with fresh ids and of card requests keeps a consistent board consistent |
| `Invariant.RunAddsLength` | src/App.jsx:46 | a run of adds grows the board by one task for each add whose title is not blank |
| `App.Board.constructor` | src/App.jsx:12-20 | the board starts with the loaded tasks, unchecked, and a closed empty add form |
| `App.Board.ToggleAdd` | src/App.jsx:81 | the header button flips the add form open or closed |
| `App.Board.SetNewTitle` | src/App.jsx:99 | typing sets the new title |
| `App.Board.SetNewDescription` | src/App.jsx:109 | typing sets the new description |
| `App.Board.CancelAdd` | src/App.jsx:124 | the form's Cancel closes and clears the form |
| `App.Board.AddTask` | src/App.jsx:33-50 | a blank title changes nothing; otherwise the tasks become `AddTask` of the old ones and the form is cleared and closed; with a fresh id, consistency is kept |
| `App.Board.EditTask` | src/App.jsx:52-54 | the tasks become `EditTask` of the old ones |
| `App.Board.DeleteTask` | src/App.jsx:56-58 | the tasks become `DeleteTask` of the old ones |
| `App.Board.MoveNext` | src/App.jsx:60-67 | the tasks become `MoveNext` of the old ones |
| `App.Board.MoveTo` | src/App.jsx:69-71 | the tasks become `MoveTo` of the old ones |
| `App.Board.Dispatch` | src/App.jsx:138-141 | a card's callback applies its updater, and a request a card can send keeps the board consistent |
| `App.SaveCard` | src/components/TaskCard.jsx:18-23 | a blank draft leaves the board alone and the editor open; otherwise the card's task gets the trimmed title and the typed description; consistency is kept |
| `App.DeleteCard` | src/components/TaskCard.jsx:68-69 | the task is deleted exactly when the confirmation is accepted; consistency is kept |

## Left out

- Storage (`src/utils/storage.js`): reading and writing `localStorage`, and the JSON encoding. The board's constructor takes the loaded array as it is. Nothing checks the loaded tasks, so the board invariant is a precondition on the starting state, not a consequence of loading.
- The React plumbing: the load and save effects, `useMemo` and `useState`. State is held in class fields, and each handler takes effect at once.
- `uid()` and `Date.now()`: the id and the creation time are parameters. Ids are random, so their uniqueness is an assumption (`id !in Ids(tasks)`).
- `alert` and `confirm`: a refused add returns `false`, a refused save returns no request, and the delete confirmation is a boolean input.
- The `maxLength` attributes of the inputs: the browser enforces them, and no handler checks them.
- `src/components/TaskList.jsx` and all markup and styling. The task-count label is presentation. Rendering a card per task with `key={t.id}` is not modelled.
- Strings are sequences of Unicode scalar values, not UTF-16 code units. This makes no difference to `trim`, because every white space character is a single code unit.
- A task record loaded from storage whose title is not a string, or whose fields have other types, is not modelled. Titles are strings, and a missing or null description is `None`.
- The card's buttons exist only in one mode. Save, Cancel and typing require `isEditing`. The move, Edit and Delete buttons require that the editor be closed.
- `StatusLabel`: the lookup `STATUS_LABELS[task.status]` is modelled as a map lookup, so a status naming a property every JavaScript object inherits (`constructor`, `__proto__`, `toString`, ...) gives no label, where the source would find that inherited property. A card is only rendered from one of the three columns, so this case does not arise in the program.
- `CardEditor`: the class accepts a task of any status, while the board mounts cards only for tasks in the three columns, that is with a known status.
