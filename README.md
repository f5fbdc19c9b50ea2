# To-do app client state, modelled in Dafny

This project models the client-side logic of a to-do web application. Users register, log in, update their profile and manage tasks through a remote task service. What is modelled:

- **The task page** (`MainComponent`, as it exists in two versions). It holds the task list (kept in the shared task store), the completed and incomplete partitions, two view flags that exclude each other, the new-task form and the task being edited. Its handlers append a created task, replace tasks by id after an edit or status change, remove tasks by id on delete, and replace the whole list on fetch or view toggle. They also apply the prune-only `updateFilteredTasks` rule. An effect re-derives both partitions from the list whenever the list changes. The screen shows the completed view, else the incomplete view, else every task. The newer page checks, before create and edit, that title and description are not blank after trimming and that the due day is not before today.
- **The forms** for registration, login and profile update. Each is a local check from field strings to either a request payload or a refusal, then the store update on the expected status. On failure, the error message shown is the first field message present in the server's `errors` object, in a fixed key order.
- **The two stores**. The auth store holds `userName`, `userEmail` and `isAuth`. The task store holds `tasks`, `tasksType` and `isLoading`. Every setter overwrites one field.

Service calls are not executed. A handler returns the request it would send (`call`, or `None` when a local check refuses). What the service answers is an input: a task or task list, `None` for a failed request, or a `Reply` with a status and body, or with the server's field errors. Dates are whole day numbers, and "today" is a parameter. A date string that does not parse (the empty string, say) is `None`. The JavaScript comparison of such an invalid date with today is false, so that date passes the due-date check.

Files: `wrappers.dfy` (Option), `seqs.dfy` (`Array.prototype.filter`), `text.dfy` (`String.prototype.trim`), `feedback.dfy` (form errors, replies, first-error selection), `tasks.dfy` (the task, list transforms, prune rule, display choice, create/edit checks), `task_store.dfy`, `auth_store.dfy`, `task_board.dfy` (the task page), `register.dfy`, `login.dfy`, `update_profile.dfy`.

`task_board.dfy` models both versions of the page with one class. The rendering of the two differs widely (the newer one adds a menu and messages for empty lists, for instance), but their handlers and effects differ at three points only (the newer page also keeps an `isMenuOpen` flag for its menu, which only the rendering reads):

- the newer one runs the field and date checks before create and edit (`HandleSubmitChecked`, `HandleEditSubmitChecked`);
- its create and edit failures are reported with toasts; the other handlers still log to the console;
- it reads the status reply from another place (see Findings).

The partitions never drift from the list for long. The effect on `[tasks]` re-derives both partitions after every `setTasks`, which overwrites whatever `updateFilteredTasks` pruned. `HandleEditSubmit` and the other handlers state the intermediate state (list set, partitions pruned). `Dispatch` states the final state: the request sent is `Request` of the event, the list is the one `ListAfter` gives whenever the handler sets it, and the partitions are those of the list.

Every request resolves with a status from 200 to 299 or fails: axios rejects any other status, so it reaches the `catch` block as a failure.

## Model

| member | source | states |
|---|---|---|
| Seqs.Filter | frontend/src/pages/mainComponent.jsx:83-84 | the filtered list holds exactly the elements that pass, each as often as in the input, and is never longer |
| Seqs.FilterConcat | frontend/src/pages/mainComponent.jsx:311 | filtering distributes over concatenation, so the kept elements stay in their original order |
| Text.Trim | frontend/src/pages/mainComponent.jsx:108-109 | trim returns the slice after the leading white space, which neither starts nor ends with white space and has only white space after it; it is empty exactly when the string is blank |
| Feedback.FirstError | src/pages/register.jsx:100-107 | the description is the message of the first key present (non-empty) in `errors`, with no earlier key present, or the empty string exactly when no key is present |
| Feedback.FirstOfThree | src/pages/register.jsx:101-107 | over three keys, the description is the first key's message when present, else the second's, else the third's, else empty: the `if`/`else if` chain of the register and update-profile handlers |
| Feedback.FirstErrorReadsOnlyKeys | frontend/src/pages/login.jsx:89-94 | two error objects that agree on the consulted keys give the same description |
| Tasks.CompletedOf | frontend/src/pages/mainComponent.jsx:83 | the completed filter holds exactly the list's completed tasks, each as often as the list holds it |
| Tasks.IncompleteOf | frontend/src/pages/mainComponent.jsx:84 | the incomplete filter holds exactly the list's incomplete tasks, each as often as the list holds it |
| Tasks.WithoutId | frontend/src/pages/mainComponent.jsx:311 | the delete filter holds exactly the tasks whose id differs, each as often as before, and is never longer |
| Tasks.ReplaceById | frontend/src/pages/mainComponent.jsx:221-224 | the result has the same length; each position holds the reply if its id matches and the old task otherwise |
| Tasks.ReplaceByAbsentId | src/pages/mainComponent.jsx:134-137 | replacing by an id no task carries leaves the list unchanged |
| Tasks.ReplaceByIdTwice | frontend/src/pages/mainComponent.jsx:284-301 | two status replies for the same id leave what the second one alone leaves |
| Tasks.WithoutIdKeepsOthers | src/pages/mainComponent.jsx:216-219 | delete keeps the other tasks in their order (it distributes over concatenation); deleting again changes nothing |
| Tasks.PartitionCovers | src/pages/mainComponent.jsx:72-78 | completed holds exactly the completed tasks and incomplete the others; the two are disjoint, their multisets add up to the list's, and their lengths sum to its length |
| Tasks.PartitionOf | frontend/src/pages/mainComponent.jsx:81-87 | the derived partitions hold the completed and the incomplete tasks of the list, and their multisets add up to the list's |
| Tasks.Prune | src/pages/mainComponent.jsx:112-124 | the prune only removes, changes at most one partition, and changes completed only for a completed task with that view off and incomplete only for an incomplete task with that view off; the pruned partition is the delete filter of the old one by that id, so it keeps the others in order and as often as before |
| Tasks.PruneOnDelete | frontend/src/pages/mainComponent.jsx:313 | the delete prune never touches the completed partition, and with the incomplete view on it changes nothing |
| Tasks.Shown | frontend/src/pages/mainComponent.jsx:422-427 | the completed view is shown when on, whatever the other flag; else the incomplete view when on; else the whole list |
| Tasks.ShownWhenDerived | src/pages/mainComponent.jsx:307-312 | with derived partitions, the screen shows the list's tasks of the active view (completed first, then incomplete, else all) and nothing outside the list |
| Tasks.CheckFields | frontend/src/pages/mainComponent.jsx:108-140 | a title or description of white space only is a data error; otherwise a due day before today is a date error; it passes exactly when both are non-blank and the day is today or later (or unparsed) |
| Tasks.BlankTitleRefused | frontend/src/pages/mainComponent.jsx:108-121 | an example of the first clause of `CheckFields`: a two-space title is refused as a data error whatever the description, the due date and the day |
| Tasks.CheckFieldsByTrim | frontend/src/pages/mainComponent.jsx:108-140 | the page's own form of the checks (trim the title and the description, compare them with the empty string, then compare the due date) gives exactly the verdict of `CheckFields` |
| TaskStore.WithTasks | src/taskStore.jsx:8-12 | `setTasks` sets `tasks` and keeps `tasksType` and `isLoading` |
| TaskStore.WithTasksType | src/taskStore.jsx:13-17 | `setTasksType` changes only `tasksType` |
| TaskStore.WithIsLoading | src/taskStore.jsx:19 | `setIsLoading` changes only `isLoading` |
| TaskStore.LastWriteWins | src/taskStore.jsx:8-19 | for each setter, two writes equal the second write alone |
| TaskStore.SettersCommute | src/taskStore.jsx:8-19 | setters of different fields commute |
| TaskStore.Store.constructor | src/taskStore.jsx:4-6 | the store starts with no tasks, type "all", not loading |
| TaskStore.Store.SetTasks | src/taskStore.jsx:8-12 | the new state is the old one with `tasks` replaced |
| TaskStore.Store.SetTasksType | src/taskStore.jsx:13-17 | the new state is the old one with `tasksType` replaced |
| TaskStore.Store.SetIsLoading | src/taskStore.jsx:19 | the new state is the old one with `isLoading` replaced |
| AuthStore.Authenticated | src/authStore.jsx:11-15 | `addAuth` sets `isAuth` and keeps name and email |
| AuthStore.Unauthenticated | src/authStore.jsx:16-20 | `removeAuth` clears `isAuth` and keeps name and email |
| AuthStore.WithUserName | src/authStore.jsx:21-25 | `setUserName` changes only `userName` |
| AuthStore.WithUserEmail | src/authStore.jsx:26-30 | `setUserEmail` changes only `userEmail` |
| AuthStore.AuthFlagIdempotent | src/authStore.jsx:11-20 | `addAuth` and `removeAuth` are idempotent, and the later of the two decides the flag |
| AuthStore.SettersCommute | src/authStore.jsx:11-30 | setters of different fields commute |
| AuthStore.Store.constructor | src/authStore.jsx:7-9 | the store starts with empty name and email, not authenticated |
| AuthStore.Store.AddAuth | src/authStore.jsx:11-15 | the new state is the old one authenticated |
| AuthStore.Store.RemoveAuth | src/authStore.jsx:16-20 | the new state is the old one not authenticated |
| AuthStore.Store.SetUserName | src/authStore.jsx:21-25 | the new state is the old one with `userName` replaced |
| AuthStore.Store.SetUserEmail | src/authStore.jsx:26-30 | the new state is the old one with `userEmail` replaced |
| TaskBoard.MainComponent.constructor | frontend/src/pages/mainComponent.jsx:42-53 | empty form, no task being edited, both views off, empty partitions, flags exclusive |
| TaskBoard.MainComponent.Displayed | frontend/src/pages/mainComponent.jsx:422-427 | with derived partitions, the list on screen holds the list's tasks of the active view |
| TaskBoard.MainComponent.TasksChanged | frontend/src/pages/mainComponent.jsx:81-87 | afterwards the partitions are the completed and incomplete filters of the list |
| TaskBoard.MainComponent.Mount | frontend/src/pages/mainComponent.jsx:69-87 | fetches all tasks; a reply replaces the list; the partitions end up derived from the list either way |
| TaskBoard.MainComponent.UpdateFilteredTasks | frontend/src/pages/mainComponent.jsx:165-177 | the partitions become `Prune` of the old ones under the current view flags |
| TaskBoard.MainComponent.HandleSubmit | src/pages/mainComponent.jsx:96-110 | sends the form unchecked; a created task is appended to the end and the form reset; a failure changes nothing |
| TaskBoard.MainComponent.HandleSubmitChecked | frontend/src/pages/mainComponent.jsx:105-161 | a refusal by `CheckFields` sends nothing and changes nothing; otherwise as `HandleSubmit`: append and reset on success, nothing on failure |
| TaskBoard.MainComponent.OpenEditTaskModal | frontend/src/pages/mainComponent.jsx:319-322 | the task becomes the one being edited |
| TaskBoard.MainComponent.CloseModal | frontend/src/pages/mainComponent.jsx:329-334 | no task is being edited |
| TaskBoard.MainComponent.HandleEditSubmit | src/pages/mainComponent.jsx:126-144 | sends the edited fields; on a reply, every task with the edited id becomes the reply, the partitions are pruned by the reply and the edit is closed; a failure changes nothing |
| TaskBoard.MainComponent.HandleEditSubmitChecked | frontend/src/pages/mainComponent.jsx:179-238 | the create checks on the edited fields first, and a refusal sends nothing and changes nothing; otherwise as `HandleEditSubmit` |
| TaskBoard.MainComponent.ToggleCompletedTasks | frontend/src/pages/mainComponent.jsx:240-258 | flips the completed view and clears the other; fetches completed tasks if the view was off, all tasks if it was on; a reply replaces the list |
| TaskBoard.MainComponent.ToggleIncompletedTasks | frontend/src/pages/mainComponent.jsx:260-278 | flips the incomplete view and clears the other; fetches incomplete tasks if the view was off, all tasks if it was on; a reply replaces the list |
| TaskBoard.MainComponent.MarkStatus | src/pages/mainComponent.jsx:186-212 | sends only the id; on a reply, every task whose id matches the reply's becomes the reply and the partitions are pruned by it; a failure changes nothing |
| TaskBoard.MainComponent.MarkStatusAsWritten | frontend/src/pages/mainComponent.jsx:280-306 | the newer status handlers never change the list's contents, whatever the service answers |
| TaskBoard.StatusReplyLost | frontend/src/pages/mainComponent.jsx:283-287 | over a one-task list, a reply that flips the task's flag should replace it, and the result differs from the unchanged list |
| TaskBoard.MainComponent.HandleDelete | frontend/src/pages/mainComponent.jsx:308-317 | on success keeps the tasks whose id differs and prunes as for an incomplete task with that id; a failure changes nothing |
| TaskBoard.ShowCompletedAndBack | frontend/src/pages/mainComponent.jsx:240-258 | showing completed tasks and then all tasks fetches the completed ones, then all; the page ends in the all-tasks view showing the second reply, with derived partitions |
| TaskBoard.Refusal | frontend/src/pages/mainComponent.jsx:105-238 | a refusal only ever comes from the checked create, or from the checked edit while a task is being edited; no other event is refused |
| TaskBoard.Request | frontend/src/pages/mainComponent.jsx:105-317 | a request is sent exactly when the form is not refused; a toggle fetches all tasks when its view was on and that view's tasks otherwise; a status change sends its id |
| TaskBoard.ListAfter | frontend/src/pages/mainComponent.jsx:105-317 | a failed request sets no list; a create appends the reply at the end; an edit or status reply keeps the length and replaces exactly the tasks with its id; a delete gives exactly the delete filter `WithoutId` of the list (order and repetitions kept); a toggle takes the fetched list |
| TaskBoard.MainComponent.Dispatch | frontend/src/pages/mainComponent.jsx:81-317 | after a handler and the effect it triggers: the request is `Request` of the event; the list is set exactly when the form is not refused and `ListAfter` gives a list, and then it is that list and the partitions are derived from it; otherwise neither list nor partitions change; the view flags stay exclusive; the rest of the page is as `RestAfter` says: the store's `tasksType` and `isLoading` are kept, a toggle flips its own view and turns the other off, any other event keeps both flags, the form is reset only by a create that set the list and the edit is closed only by an edit that set the list |
| TaskBoard.DeleteLeavesScreen | frontend/src/pages/mainComponent.jsx:308-317 | after a successful delete and its effect, no task with that id is on screen in any view, and the list keeps every other task |
| Register.CheckRegistration | src/pages/register.jsx:47-82 | any empty field is a data error (no trimming); only with all fields filled is a differing confirmation a mismatch; the form is accepted exactly when all fields are filled and the confirmation matches, with name, email and password as the payload |
| Register.OnSubmit | src/pages/register.jsx:44-118 | a refused form sends nothing; status 201 sets name and email from the reply and authenticates; another status or a failure leaves the store unchanged; a failure shows the first of username, email, password |
| Login.CheckLogin | frontend/src/pages/login.jsx:47-68 | an empty username or password is a data error, reported before the logged-in refusal; a logged-in user is refused otherwise; the form is accepted exactly when both fields are filled and no user is logged in, with both as the payload |
| Login.EmailErrorNeverShown | frontend/src/pages/login.jsx:89-94 | the email message never changes the login error description |
| Login.OnSubmit | frontend/src/pages/login.jsx:41-105 | a refused form sends nothing; status 200 authenticates and takes name and email from the reply; another status or a failure leaves the store unchanged; a failure shows the username, else the password message |
| UpdateProfile.CollectUpdates | frontend/src/pages/update-profile.jsx:42-80 | a non-empty differing password is refused first, and an empty update is refused; every other form is accepted; username and email are sent exactly when non-empty, with the entered values; the password is sent exactly when non-empty, equal to its confirmation |
| UpdateProfile.OnSubmit | frontend/src/pages/update-profile.jsx:40-120 | the update is sent exactly when the form is neither a password mismatch nor empty, with each entered non-empty field at its value; a refused form sends nothing; status 200 sets the name and the email only when the reply carries them; a failure leaves the store unchanged and shows the first of username, email, password |

## Left out

- The HTTP wrappers in `src/utils/apis.js` and `frontend/src/utils/apis.js`: each call is an abstract request, and its reply is an input. `updateTaskStatus` does not send the requested flag, so the status handlers take the returned task as a free input.
- The older page reads the status reply at `response.data.task` (src/pages/mainComponent.jsx:189), while its `updateTaskStatus` already returns the response body. Whether that is right depends on the body the service sends, and the service is not part of this model. `MarkStatus` takes the returned task as given.
- Rendering, Chakra modals, menus and toasts, navigation and routing (`src/App.jsx`), and both navbar components. The navbar logout is a sequence of auth-store setters already modelled.
- The `loading` and `showPassword` component flags, `handleChange` and `handleEditChange` (they copy input values into the form), and `formatDate` and `formatDateTime`.
- Date parsing, time zones and `setHours`. A due date is the day number the page compares, and today is a parameter. A "YYYY-MM-DD" string parsed as UTC can land on the previous local day, and that shift is not modelled.
- The created-at and updated-at timestamps of a task: the client never reads them.
- Asynchronous ordering. Each handler runs to completion on the list it sees. Stale closures, overlapping requests and the race between uncancelled toggles are not modelled, and neither is React render timing beyond the explicit "tasks changed" step.
- A failed request whose error carries no `response.data.errors`: the handler's `catch` block would itself throw. Every failure here carries a field-error map.
- The sessionStorage persistence of the auth store.
- The profile page imports `updateProfile` from frontend/src/utils/apis.js, which exports no such function (lines 1-46); only src/utils/apis.js:56 defines it. With the file as shipped, the import is undefined and the page cannot send its update. `UpdateProfile.OnSubmit` models the handler as if the import resolved to the older file's `updateProfile`.

## Findings

| source | as written | input that shows it | evidently intended | confidence | as-written member | corrected member |
|---|---|---|---|---|---|---|
| frontend/src/pages/mainComponent.jsx:280-306 | the status handlers take the updated task from `response.task`, but `updateTaskStatus` (frontend/src/utils/apis.js:39-41) resolves to the HTTP response, whose task is under `data`; reading `_id` of undefined throws, the catch swallows it, and the list is never updated | a list with one incomplete task and a successful "mark as complete" whose reply is that task completed | replace the task by the reply and prune the partitions, as the older page's code intends | high; not executed | TaskBoard.MainComponent.MarkStatusAsWritten, TaskBoard.StatusReplyLost | TaskBoard.MainComponent.MarkStatus |
