# TaskPilot-AI task core in Dafny

TaskPilot-AI is a to-do application with two parts:

- an Express/mongoose backend, which stores each user's tasks and asks a language model (Gemini) to score every task's priority from 1 to 5 and to write a daily summary;
- a React frontend, which lists, adds, toggles and deletes tasks.

This project models the logic of both halves as pure functions over immutable records and sequences. The pieces modelled are:

- the AI service:
  - turning a model reply into a score: JavaScript `trim`, `parseInt` (hex prefix included), `|| 3` and clamping;
  - choosing and formatting the tasks of the daily summary: filter, stable sort, top ten, one line each;
  - scoring every unscored task;
- the task schema's field rules, and the controller's create, list, delete, mark-completed, summary and update-priorities endpoints. These are modelled as transitions of an owner-scoped collection (`seq<TodoItem>` with unique ids);
- the authentication middleware's header check, token extraction and four outcomes;
- the frontend items service:
  - the record mapping;
  - the token and id checks;
  - the HTTP error messages;
  - the array guard;
- the task screen's list handlers, its session-ending error check and its display order;
- the list component's partition and sorts, the priority badge table, and the add-task and sign-up forms.

Calls that cannot be seen are parameters:

- the language model: `AiService.LanguageModel`, the reply to the n-th call of a request, or None when that call throws;
- the locale's date rendering;
- JWT verification and the user lookup;
- every `fetch`: an `Exchange` that throws, fails with a status or succeeds with a body;
- `signupUser`.

Request handlers and the bulk scoring loop take a `Scorer`, a function from (call number, task, date) to a score. `AiService.TaskScorer(ask)` is the service's own scorer, and `TaskScorerInRange` proves it always answers in 1..5.

Two facts about the code are worth stating up front:

- No step ranks or redistributes priorities. `updatePriorities` only scores unscored tasks and writes the scores back.
- Both fallbacks of `generateTaskPriority` are 3: the fallback for a thrown call, and the fallback for an unusable reply such as `NaN` or `0`.

`Array.prototype.sort` is stable and every comparator in the application is a strict weak order, so its result is unique (`StableSort.StableSortIsUnique`). A stable insertion sort (`StableSort.Sort`) therefore models it.

## Model

| member | source | states |
|---|---|---|
| JsText.Trim | todo-backend/services/aiService.js:30 | `trim()` never lengthens the text; the result is empty exactly when the text is all whitespace, and otherwise starts and ends with non-whitespace |
| JsText.TrimParts | todo-backend/services/aiService.js:30 | trimming the start and then the end keeps an infix and removes only whitespace on either side of it |
| JsText.TrimSurrounded | todo-backend/services/aiService.js:30 | whitespace around a word that starts and ends with non-whitespace is exactly what `trim()` removes |
| JsText.TrimIdempotent | todo-backend/services/aiService.js:30 | trimming twice is trimming once |
| JsParseInt.ParseInt | todo-backend/services/aiService.js:33 | `parseInt` gives a number only when a decimal digit follows the leading whitespace and sign, and a negative number only after a minus sign |
| JsParseInt.ParseLeadingDecimal | todo-backend/services/aiService.js:33 | an integer written in decimal after whitespace, followed by anything that does not extend the numeral, parses to itself |
| JsParseInt.ParseLeadingHex | todo-backend/services/aiService.js:33 | `0x` or `0X` and hexadecimal digits, after whitespace and a sign, parse in base 16 |
| JsParseInt.ParseIgnoresTrim | todo-backend/services/aiService.js:30-33 | parsing the trimmed reply is the same as parsing the raw reply |
| StableSort.Sort | todo-backend/services/aiService.js:50 | `Array.prototype.sort` with a strict-weak-order comparator: the result is a permutation of the input, in comparator order, and keeps every class of tied elements in input order |
| StableSort.StableSortIsUnique | todo-backend/services/aiService.js:50 | any two stable sorts of the same list under the same comparator are equal, so the insertion sort stands for the engine's algorithm |
| AiService.Clamp | todo-backend/services/aiService.js:34 | `Math.max(1, Math.min(5, n))` lies in 1..5, keeps n in range, maps n > 5 to 5 and n < 1 to 1 |
| AiService.PriorityFromReply | todo-backend/services/aiService.js:30-38 | every reply gives a score in 1..5; a thrown call gives 3 |
| AiService.PriorityOfText | todo-backend/services/aiService.js:30-34 | a reply whose `parseInt` is NaN or 0 scores 3; otherwise the parsed integer is clamped |
| AiService.GenerateTaskPriority | todo-backend/services/aiService.js:11-39 | the score of one model call is in 1..5, and 3 when the call throws |
| AiService.PriorityOfLeadingInteger | todo-backend/services/aiService.js:30-34 | a reply that starts (after whitespace) with integer n followed by a non-digit scores n in 1..5, 5 for n > 5, 1 for n < 0, 3 for 0 |
| AiService.PriorityOfUnreadableReply | todo-backend/services/aiService.js:33-37 | a reply with no digit after its whitespace and sign scores 3, the same as a thrown call |
| AiService.PriorityExampleInRange | todo-backend/services/aiService.js:30-34 | the reply " 5\n" scores 5 |
| AiService.PriorityExampleTooHigh | todo-backend/services/aiService.js:33-34 | "7" scores 5 |
| AiService.PriorityExampleNegative | todo-backend/services/aiService.js:33-34 | "-2" scores 1 |
| AiService.PriorityExampleZero | todo-backend/services/aiService.js:33-34 | "0" scores 3, because `0 \|\| 3` is 3 |
| AiService.PriorityExampleFraction | todo-backend/services/aiService.js:33-34 | "2.9" scores 2, because `parseInt` stops at the dot |
| AiService.PriorityExampleHex | todo-backend/services/aiService.js:33-34 | "0x4" scores 4, because `parseInt` without a radix reads a hex prefix |
| AiService.PriorityExampleWord | todo-backend/services/aiService.js:33-34 | "High" scores 3 |
| AiService.ByPriorityIsStrictWeakOrder | todo-backend/services/aiService.js:50 | the summary comparator `(b.aiPriority \|\| 3) - (a.aiPriority \|\| 3)` is a strict weak order, so the sort is well defined |
| AiService.ByPriorityTies | todo-backend/services/aiService.js:50 | two tasks tie under that comparator exactly when their priorities (`\|\| 3`) are equal |
| AiService.SummaryTasks | todo-backend/services/aiService.js:48-51 | at most ten tasks are listed |
| AiService.SummaryTasksSpec | todo-backend/services/aiService.js:48-51 | the listed tasks: min(10, pending) of them, none completed, all from the input, in non-increasing priority; tasks of equal priority keep their input order; no pending task left out ranks above a listed one |
| AiService.TaskListLines | todo-backend/services/aiService.js:52-56 | the newline-joined task list splits back into exactly one `- task (Priority: p, Due: d)` line per listed task, when no text contains a line break |
| AiService.SummaryLineHasNoNewline | todo-backend/services/aiService.js:53-54 | a summary line has no line break when the task text and the rendered date have none |
| AiService.DailySummary | todo-backend/services/aiService.js:41-81 | a missing or empty list gives the fixed message without asking the model; otherwise the trimmed reply, or the fixed fallback when the call throws |
| AiService.AllCompletedStillAsks | todo-backend/services/aiService.js:43-49 | a non-empty list of completed tasks does not short-circuit: the model is asked with an empty task list |
| AiService.TaskScorerInRange | todo-backend/services/aiService.js:11-39 | the service's scorer answers in 1..5 for every call, task and date |
| AiService.BulkUpdate | todo-backend/services/aiService.js:83-101 | the result has the input's length |
| AiService.BulkUpdateSpec | todo-backend/services/aiService.js:86-97 | a task with a truthy `aiPriority` is returned unchanged; any other task changes only in `aiPriority`, which becomes the score of call number (first + unscored tasks before it) |
| AiService.CallsFollowListOrder | todo-backend/services/aiService.js:86-88 | the model calls go to the unscored tasks one each, in list order |
| AiService.BulkUpdateScoresAll | todo-backend/services/aiService.js:86-97 | with an in-range scorer every task comes out scored, and in range wherever it was |
| AiService.BulkUpdateOfScored | todo-backend/services/aiService.js:86-97 | a fully scored list is returned as it is and makes no model call |
| AiService.BulkUpdateIdempotent | todo-backend/services/aiService.js:83-101 | scoring twice equals scoring once; the second pass asks nothing |
| TodoItemSchema.OrElse | todo-backend/models/TodoItem.js:19-24 | `n \|\| d` on a nullable number: the value when truthy, else d |
| TodoItemSchema.NewItem | todo-backend/models/TodoItem.js:4-25 | a new document is not completed, and both timestamps are its creation time |
| TodoItemsController.Create | todo-backend/controllers/todoItemsController.js:5-25 | 201 exactly when the task is present and non-empty and the id is fresh; the stored document has the request's task and date, the requester as owner and the scorer's value; any failure answers 500 "Failed to create task" and stores nothing |
| TodoItemsController.CreateKeepsStoreValid | todo-backend/controllers/todoItemsController.js:10-19 | creating keeps every document valid and every id unique |
| TodoItemsController.CreateThenList | todo-backend/controllers/todoItemsController.js:5-35 | after a create, the owner's list is the old list plus the new document at the end |
| TodoItemsController.List | todo-backend/controllers/todoItemsController.js:27-35 | the list holds exactly the requester's documents |
| TodoItemsController.Delete | todo-backend/controllers/todoItemsController.js:37-46 | delete always answers 204, even when nothing matched |
| TodoItemsController.DeleteSpec | todo-backend/controllers/todoItemsController.js:39-41 | a document survives exactly when it is not the requester's document with that id; other users' lists are unchanged |
| TodoItemsController.RemoveFirstIsFilter | todo-backend/controllers/todoItemsController.js:40 | with unique ids, `deleteOne` is the filter that drops the matching document |
| TodoItemsController.CreateThenDelete | todo-backend/controllers/todoItemsController.js:5-46 | deleting a just-created document restores the collection |
| TodoItemsController.DeleteKeepsStoreValid | todo-backend/controllers/todoItemsController.js:40 | delete keeps the collection valid |
| TodoItemsController.FindOwned | todo-backend/controllers/todoItemsController.js:51 | `findOne({_id, user})` finds the first document with that id and owner, or reports none |
| TodoItemsController.SetCompleted | todo-backend/controllers/todoItemsController.js:57-64 | a boolean body sets the flag, anything else negates it; no other field changes, and `updatedAt` moves only when the flag changed |
| TodoItemsController.MarkCompleted | todo-backend/controllers/todoItemsController.js:48-70 | 404 "Task not found" exactly when the requester owns no document with that id, and then nothing changes; otherwise only that document changes and is answered |
| TodoItemsController.MarkCompletedSetIdempotent | todo-backend/controllers/todoItemsController.js:58-59 | setting the same boolean twice is the same as setting it once |
| TodoItemsController.MarkCompletedToggleTwice | todo-backend/controllers/todoItemsController.js:60-61 | toggling twice restores every document except possibly its `updatedAt` |
| TodoItemsController.MarkCompletedKeepsStoreValid | todo-backend/controllers/todoItemsController.js:48-70 | marking keeps the collection valid |
| TodoItemsController.GetDailySummary | todo-backend/controllers/todoItemsController.js:72-81 | the summary endpoint answers 200 with a summary body |
| TodoItemsController.SummaryIsOwnerScoped | todo-backend/controllers/todoItemsController.js:74-76 | only the requester's documents matter: two stores with the same documents of the requester get the same answer |
| TodoItemsController.OthersDoNotChangeSummary | todo-backend/controllers/todoItemsController.js:74-76 | adding other users' documents never changes the requester's summary |
| TodoItemsController.SummaryWithoutTasks | todo-backend/controllers/todoItemsController.js:74-76 | a user with no documents gets the fixed no-tasks message |
| TodoItemsController.SummaryOfCompletedTasks | todo-backend/controllers/todoItemsController.js:74-76 | a user with only completed documents still gets the model's summary of an empty task list |
| TodoItemsController.SetPriority | todo-backend/controllers/todoItemsController.js:91 | `findByIdAndUpdate` sets `aiPriority` and `updatedAt` of the document with that id only |
| TodoItemsController.WriteBackAt | todo-backend/controllers/todoItemsController.js:89-93 | after the write-back loop a document holds the last score written to its id, with `updatedAt` moved, or is unchanged when no entry writes it |
| TodoItemsController.UpdatePrioritiesAsWritten | todo-backend/controllers/todoItemsController.js:83-100 | the endpoint as written answers "Priorities updated successfully" and keeps the collection's size |
| TodoItemsController.UpdatePrioritiesAsWrittenSpec | todo-backend/controllers/todoItemsController.js:85-93 | as written, an unscored document stays exactly as it was, and a scored one only has its `updatedAt` moved |
| TodoItemsController.AsWrittenLosesNewScores | todo-backend/controllers/todoItemsController.js:85-93 | a new, unscored task is scored by the model, yet as written it stays unscored; the corrected write-back stores the score |
| TodoItemsController.UpdatePriorities | todo-backend/controllers/todoItemsController.js:83-100 | the corrected endpoint answers the same message and keeps the collection's size |
| TodoItemsController.UpdatePrioritiesSpec | todo-backend/controllers/todoItemsController.js:85-93 | corrected: each of the requester's documents ends scored in 1..5; an existing score is kept; only `aiPriority` and `updatedAt` change; other users' documents are untouched |
| TodoItemsController.UpdatePrioritiesKeepsStoreValid | todo-backend/controllers/todoItemsController.js:85-93 | the corrected endpoint keeps the collection valid |
| AuthMiddleware.Token | todo-backend/middleware/authMiddleware.js:12 | the token is element 1 of the header split on spaces, and so holds no space |
| AuthMiddleware.TokenIsFirstWord | todo-backend/middleware/authMiddleware.js:12 | the token is the text after "Bearer " up to the next space |
| AuthMiddleware.TokenExamples | todo-backend/middleware/authMiddleware.js:12 | "Bearer a b" gives "a"; "Bearer  x" gives "" |
| AuthMiddleware.Authenticate | todo-backend/middleware/authMiddleware.js:6-23 | every rejection is 401; a missing header, or one not starting with "Bearer ", gets "No token provided"; the request proceeds exactly when the token verifies and the user is found, as that user |
| AuthMiddleware.AuthenticateFailures | todo-backend/middleware/authMiddleware.js:13-22 | a failed verification or a thrown lookup gives "Token verification failed"; an unknown user gives "Invalid token" |
| AuthMiddleware.PrefixIsCaseSensitive | todo-backend/middleware/authMiddleware.js:8 | "bearer abc" and "Bearer" are rejected with "No token provided" |
| ItemsService.MapServerItem | todo-frontend/src/services/itemsService.js:125-139 | a null item throws "Server item is null or undefined"; any other item maps |
| ItemsService.MapServerItemRoundTrip | todo-frontend/src/services/itemsService.js:130-138 | mapping inverts the document a local record describes: no field is lost |
| ItemsService.MapServerItemDefaults | todo-frontend/src/services/itemsService.js:130-138 | fields are renamed and copied; a falsy `completed` becomes false; a missing `aiPriority` becomes 0 and any present value, 0 included, is kept |
| ItemsService.AuthHeaderRoundTrip | todo-frontend/src/services/itemsService.js:11 | the middleware reads back the token the service sends, when the token holds no space |
| ItemsService.AddItem | todo-frontend/src/services/itemsService.js:1-27 | without a token it throws before any request; otherwise it succeeds exactly when the answer is 2xx with a non-null body, which is mapped; a thrown request rethrows its message, a non-2xx answer throws `HTTP <status>: <error or 'Failed to add item'>`, and a null body throws the null-item message |
| ItemsService.GetItems | todo-frontend/src/services/itemsService.js:29-59 | no token, a thrown or non-2xx request, a non-array body and an array with a null element all give []; otherwise each element is mapped, keeping length and order |
| ItemsService.MapAll | todo-frontend/src/services/itemsService.js:54 | `data.map(mapServerItemToLocalItem)` succeeds exactly when no element is null, element by element |
| ItemsService.MarkItem | todo-frontend/src/services/itemsService.js:61-94 | a missing token, then a missing id, throws before any request; otherwise it succeeds exactly on a 2xx answer with a non-null body, which is mapped, and a failure throws the request's message, `HTTP <status>: <error or 'Failed to update item'>` or the null-item message |
| ItemsService.DeleteItem | todo-frontend/src/services/itemsService.js:96-123 | the same checks; it resolves exactly on a 2xx answer, to the id it was given; a thrown request rethrows its message and a non-2xx answer throws `HTTP <status>: <error or 'Failed to delete item'>` |
| ItemsService.NoTokenNoRequest | todo-frontend/src/services/itemsService.js:1-123 | without a token every call fails or gives [] before any request, whatever the network would answer |
| ItemsService.HttpErrorMessage | todo-frontend/src/services/itemsService.js:17-18 | the thrown message is "HTTP <status>: " followed by the body's error, the fallback, or "Unknown error" for a body that is not JSON |
| App.OnFailure | todo-frontend/src/App.jsx:84-91 | an error mentioning 401 or Unauthorized logs out and sets no message; any other error shows the handler's message; the list never changes |
| App.Http401IsAuthError | todo-frontend/src/App.jsx:55 | every message the items service throws for a 401 answer is classified as an authentication error |
| App.FetchItems | todo-frontend/src/App.jsx:36-64 | without a token nothing changes; otherwise the list becomes what the service returns and the error is cleared |
| App.FetchItemsNeverLogsOut | todo-frontend/src/App.jsx:47-60 | as written, loading never ends the session, and a 401 shows an empty list |
| App.GetItemsOrError | todo-frontend/src/services/itemsService.js:29-54 | the list call with its failures thrown: it succeeds exactly on a 2xx answer whose body is not an array or holds no null; no token, a thrown request (its message), a non-2xx status and a null element are errors; success agrees with `getItemsFromServer` |
| App.FetchItemsCorrected | todo-frontend/src/App.jsx:36-64 | `fetchItems` with the service's failures thrown: without a token nothing changes; a successful load replaces the list and clears the error; a failure goes to the catch block, which logs out on 401 or Unauthorized and otherwise shows the load error; the list is either kept or the loaded one |
| App.FetchItemsCorrectedLogsOutOn401 | todo-frontend/src/App.jsx:55-57 | with failures thrown, a 401 while loading ends the session |
| App.HandleNewItem | todo-frontend/src/App.jsx:70-93 | without a token only the error changes; a created item is appended at the end with nothing else moved; a failure keeps the list |
| App.WithoutId | todo-frontend/src/App.jsx:111 | the filter keeps exactly the items whose id differs |
| App.WithoutIdKeepsOrder | todo-frontend/src/App.jsx:111 | the filter distributes over concatenation, so the kept items stay in order |
| App.HandleDeleteItem | todo-frontend/src/App.jsx:95-121 | no token or a falsy id only sets an error; a successful delete removes every item with that id; a failure keeps the list |
| App.FindById | todo-frontend/src/App.jsx:136 | `find` returns the first item with that id, or none when no item has it |
| App.ReplaceById | todo-frontend/src/App.jsx:147-149 | `map` replaces exactly the items with that id, position by position |
| App.HandleToggleComplete | todo-frontend/src/App.jsx:123-159 | no token, a falsy id or an unknown id only sets an error ("Task not found." for the last); otherwise the server is asked for the negation of the found item's flag, a successful answer replaces every item with that id and clears the error, and a failure goes to the catch block with the list kept |
| App.ToggleFlipsFlag | todo-frontend/src/App.jsx:136-149 | when the server echoes the requested flag, the toggle flips that item's `completed` and nothing else |
| App.AddLogsOutOn401 | todo-frontend/src/App.jsx:87-88 | a 401 while adding logs out and keeps the list |
| App.DeleteLogsOutOn401 | todo-frontend/src/App.jsx:115-116 | a 401 while deleting logs out and keeps the list |
| App.ToggleLogsOutOn401 | todo-frontend/src/App.jsx:153-154 | a 401 while toggling logs out and keeps the list |
| App.AppBeforeIsStrictWeakOrder | todo-frontend/src/App.jsx:209-218 | the display comparator is a strict weak order |
| App.SortedItems | todo-frontend/src/App.jsx:209-218 | the display list is a permutation of the state's list, in comparator order |
| App.SortedItemsOrder | todo-frontend/src/App.jsx:211-217 | incomplete items come first, then higher priority, then newer `createdAt` |
| TodoItemsView.NonNull | todo-frontend/src/components/TodoItems.jsx:8-9 | the `item &&` guard keeps exactly the non-null elements |
| TodoItemsView.Section | todo-frontend/src/components/TodoItems.jsx:8-24 | a section is a sorted permutation of the items its filter selects |
| TodoItemsView.Render | todo-frontend/src/components/TodoItems.jsx:3-79 | every non-null item is in exactly one section, by its flag; each section is in its comparator's order; the placeholder shows exactly when the normalised array is empty |
| TodoItemsView.OnlyNullsShowNothing | todo-frontend/src/components/TodoItems.jsx:8-76 | an array of nulls shows no section and no placeholder |
| TodoItemsView.NotAnArrayShowsPlaceholder | todo-frontend/src/components/TodoItems.jsx:5-76 | a prop that is not an array shows only the placeholder |
| TodoItemsView.PendingSectionKeepsAppOrder | todo-frontend/src/components/TodoItems.jsx:12-19 | given the screen's sorted list, the pending section is that list's pending part in the same order |
| PriorityBadge.Config | todo-frontend/src/components/PriorityBadge.jsx:4-49 | every input gets a badge with white text; an integer 1..5 gets a badge of its own, anything else the fallback |
| PriorityBadge.LevelOfColor | todo-frontend/src/components/PriorityBadge.jsx:5-40 | a level read back from a colour is one of 5..1 |
| PriorityBadge.ColorRoundTrip | todo-frontend/src/components/PriorityBadge.jsx:5-47 | each level's colour reads back as that level, and the fallback's as none |
| PriorityBadge.BadgesDistinct | todo-frontend/src/components/PriorityBadge.jsx:5-39 | different levels have different labels, colours and icons; only level 3 shares the fallback's label |
| PriorityBadge.TextIsNotALevel | todo-frontend/src/components/PriorityBadge.jsx:41-47 | a non-integer input (such as "5" or null), 0 and 6 get the fallback, whose colour differs from level 3's |
| AddTodo.ChangeName | todo-frontend/src/components/AddTodo.jsx:8-11 | typing a name clears any error |
| AddTodo.ChangeDate | todo-frontend/src/components/AddTodo.jsx:13-15 | the date changes and nothing else |
| AddTodo.ClickAdd | todo-frontend/src/components/AddTodo.jsx:17-31 | a submission happens exactly when the button is enabled; a blank name shows "Task name is required!"; a submission carries the trimmed, non-empty name and the untouched date and clears the form |
| AddTodo.PressKey | todo-frontend/src/components/AddTodo.jsx:33-37 | Enter with a non-blank name acts as the button; any other key press changes nothing |
| AddTodo.EnterNeverShowsError | todo-frontend/src/components/AddTodo.jsx:33-37 | a key press never shows the required-name error |
| AddTodo.SubmittedNameIsTrimmed | todo-frontend/src/components/AddTodo.jsx:25 | a name surrounded by whitespace is submitted without it |
| AddTodo.SubmissionDisablesButton | todo-frontend/src/components/AddTodo.jsx:28-76 | after a submission the button is disabled |
| Signup.Validate | todo-frontend/src/components/Signup.jsx:16-23 | the form passes exactly when the trimmed first name is non-empty and the password has at least 6 UTF-16 units; the first-name check comes first |
| Signup.Submit | todo-frontend/src/components/Signup.jsx:13-31 | a failed check shows its message; otherwise login happens exactly when the reply has a truthy token, with the reply's user and token, and any other reply shows its message or "Failed to sign up." |
| Signup.InvalidFormSendsNothing | todo-frontend/src/components/Signup.jsx:16-23 | a form that fails a check never reaches `signupUser` |
| Signup.OutcomeIsNeverBlank | todo-frontend/src/components/Signup.jsx:26-30 | every outcome shows a non-empty message or logs in with a non-empty token |
| Signup.PasswordBoundary | todo-frontend/src/components/Signup.jsx:20 | a five-character password is refused and a six-character one accepted |

## Left out

- The Gemini SDK (client construction, `generateContent`, `response.text()`) and the 100 ms delay between scoring calls are network I/O and timing. The model's reply to each call is a parameter instead.
- The prose of both prompts and today's date in them are not modelled. The priority prompt carries only the task and due date, and the summary prompt only the task list.
- `toLocaleDateString` is locale-dependent, so date rendering is an uninterpreted parameter.
- `authController.js` and `User.js` are not part of this model. They wrap bcrypt, jsonwebtoken and mongoose hooks, which are not visible here.
- The Express app, routers, CORS and the database connection are not modelled. `app.js`, the routers, `authService.js`, `AuthContext.jsx` and the frontend `aiService.js` are not part of this model.
- `handleUpdatePriorities` in `App.jsx` only calls the frontend `aiService.js`, then reloads, then clears a message with `setTimeout`. None of that is modelled.
- Loading flags, `console` logging, JSX markup, `DailySummary.jsx` and `Login.jsx` are presentation only.
- Concurrency is not modelled. Each handler and endpoint is one atomic transition, and overlapping requests are not interleaved.
- Database failures and malformed ids (cast errors) are not modelled. They would make any endpoint answer 500.
- Mongoose type casting of request fields is not modelled. The task is a string or absent, and the date is an integer timestamp or absent.
- Timestamps are integers. `new Date(...)` on invalid values, which makes the comparators return NaN, is not modelled.
- JavaScript numbers are modelled as unbounded integers. `parseInt`'s rounding of values above 2^53 is ignored; the clamp to 1..5 makes the difference invisible to any score.
- TodoItemSchema.ValidItem: the `min`/`max` validators are modelled as a store invariant proved to be kept. A mongoose validation error in `findByIdAndUpdate` is not modelled, because update queries do not run validators by default.
- AiService.DailySummary: the summary is one model call, numbered 0 within its request.
- TodoItemsController.Create: the newly assigned `_id` is a parameter. A save error for a duplicate id stands in for every save failure.
- JsText.Trim: its own contract does not say that the result is the infix of the text between the leading and the trailing whitespace. `TrimParts` states that for the two steps `trim` is made of, and `TrimSurrounded` gives the exact result for text written as whitespace, word, whitespace.
- App.FetchItems: the loading flag is not modelled. Without a token the state is unchanged.
- App.HandleToggleComplete: what the server answers is a parameter. `ToggleFlipsFlag` covers the case where the server echoes the requested flag.
- Signup.Submit: `login`'s writes to localStorage are not modelled. The outcome records the user and token it is called with.
- PriorityBadge.Config: `label` is a Dafny keyword, so the field is named `title`.

## Findings

| source | as written | input that shows it | evidently intended | confidence | as-written member | corrected member |
|---|---|---|---|---|---|---|
| todo-backend/controllers/todoItemsController.js:89-92 | `bulkUpdatePriorities` (aiService.js lines 89-92) pushes each newly scored task as `{...task, aiPriority}`, where `task` is a mongoose document. The spread copies own properties only, and `_id` is a getter on the document's prototype, so the copy has no `_id`, and the `task._id` guard skips writing it | one user with the unscored task "Pay rent" calls `PUT /api/todo/update-priorities`: the model scores the task, the answer is "Priorities updated successfully", and the stored task is still unscored | every newly scored task's score is stored; tasks that already had a score are left as they are | medium, not executed | TodoItemsController.AsWrittenLosesNewScores | TodoItemsController.UpdatePrioritiesSpec |
| todo-frontend/src/App.jsx:51-60 | `getItemsFromServer` (itemsService.js lines 55-58) catches every error and returns `[]`, so `fetchItems`' catch block, which logs out on a 401, can never run | a stored token that the backend rejects with 401: the screen shows an empty list and stays logged in | a 401 while loading ends the session, as it does for the other handlers | medium, not executed | App.FetchItemsNeverLogsOut | App.FetchItemsCorrectedLogsOutOn401 |
