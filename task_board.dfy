/**
 * The task page (`MainComponent`, in both versions of the repository): its state, its event
 * handlers, the effect that re-derives the two partitions whenever the task list changes,
 * and the choice of the list on screen.
 *
 * A service call is an out-parameter (`call`, or None when no request is sent) and what the
 * service answers is an input: a task or a task list, or None for a failed request. The
 * out-parameter `tasksSet` tells whether the handler called `setTasks`: only then does the
 * "tasks changed" effect follow.
 */
module TaskBoard {
  import opened Wrappers
  import opened Feedback
  import opened Tasks
  import TaskStore

  /** The requests the page sends to the task service. */
  datatype Call =
    | FetchAll
    | FetchCompleted
    | FetchIncomplete
    | CreateTask(form: TaskForm)
    | UpdateContent(id: string, title: string, description: string, dueDate: DueDate)
    | UpdateStatus(id: string)  // the requested completed flag is not sent
    | DeleteTask(id: string)

  /** A user action together with what the service answers to it. */
  datatype Event =
    | Submit(created: Option<Task>)
    | SubmitChecked(today: Day, created: Option<Task>)
    | EditSubmit(edited: Option<Task>)
    | EditSubmitChecked(today: Day, edited: Option<Task>)
    | MarkComplete(id: string, updated: Option<Task>)
    | MarkIncomplete(id: string, updated: Option<Task>)
    | Delete(id: string, deleted: bool)
    | ToggleCompleted(fetched: Option<seq<Task>>)
    | ToggleIncomplete(fetched: Option<seq<Task>>)

  /**
   * What the status handlers of the newer page lose: over a list holding one task, a reply
   * that flips its flag should replace it, yet `MarkStatusAsWritten` keeps the list as it was.
   */
  lemma StatusReplyLost(t0: Task, t1: Task)
    requires t0.id == t1.id && t0.completed != t1.completed
    ensures ReplaceById([t0], t1.id, t1) == [t1] && [t1] != [t0]
  {
    assert ReplaceById([t0], t1.id, t1)[0] == t1;
  }

  /** The service answered the event's request with a failure (no task, no list, no deletion). */
  predicate RequestFailed(e: Event) {
    match e
    case Submit(created) => created.None?
    case SubmitChecked(_, created) => created.None?
    case EditSubmit(edited) => edited.None?
    case EditSubmitChecked(_, edited) => edited.None?
    case MarkComplete(_, updated) => updated.None?
    case MarkIncomplete(_, updated) => updated.None?
    case Delete(_, deleted) => !deleted
    case ToggleCompleted(fetched) => fetched.None?
    case ToggleIncomplete(fetched) => fetched.None?
  }

  /**
   * The verdict of the newer page's checks before a create or an edit: `CheckFields` on the
   * form, or on the task being edited. The other events are not checked.
   */
  function Refusal(e: Event, form: TaskForm, editing: Option<Task>): (r: Option<FormError>)
    ensures r.Some? ==> e.SubmitChecked? || (e.EditSubmitChecked? && editing.Some?)
  {
    if e.SubmitChecked? then CheckFields(form.title, form.description, form.dueDate, e.today)
    else if e.EditSubmitChecked? && editing.Some? then
      CheckFields(editing.value.title, editing.value.description, editing.value.dueDate, e.today)
    else None
  }

  /**
   * The request a handler sends: the form for a create, the edited task's content for an
   * edit, the id for a status change or a delete, and for a view toggle all tasks when that
   * view was on, else the tasks of that view. A refused form sends nothing.
   */
  function Request(e: Event, form: TaskForm, editing: Option<Task>, showCompleted: bool, showIncomplete: bool): (r: Option<Call>)
    requires (e.EditSubmit? || e.EditSubmitChecked?) ==> editing.Some?
    ensures r.None? <==> Refusal(e, form, editing).Some?
    ensures e.ToggleCompleted? ==> r == Some(if showCompleted then FetchAll else FetchCompleted)
    ensures e.ToggleIncomplete? ==> r == Some(if showIncomplete then FetchAll else FetchIncomplete)
    ensures r.Some? && (e.MarkComplete? || e.MarkIncomplete?) ==> r.value == UpdateStatus(e.id)
  {
    if Refusal(e, form, editing).Some? then None
    else
      match e
      case Submit(_) => Some(CreateTask(form))
      case SubmitChecked(_, _) => Some(CreateTask(form))
      case EditSubmit(_) =>
        Some(UpdateContent(editing.value.id, editing.value.title, editing.value.description, editing.value.dueDate))
      case EditSubmitChecked(_, _) =>
        Some(UpdateContent(editing.value.id, editing.value.title, editing.value.description, editing.value.dueDate))
      case MarkComplete(id, _) => Some(UpdateStatus(id))
      case MarkIncomplete(id, _) => Some(UpdateStatus(id))
      case Delete(id, _) => Some(DeleteTask(id))
      case ToggleCompleted(_) => Some(if showCompleted then FetchAll else FetchCompleted)
      case ToggleIncomplete(_) => Some(if showIncomplete then FetchAll else FetchIncomplete)
  }

  /**
   * The task list a handler passes to `setTasks` once its request is sent, or None when it
   * does not call it: a created task is appended; an edit or status reply replaces every
   * task with its id (the edited task's id for an edit, the reply's own id for a status
   * change); a delete keeps the tasks whose id differs; a view toggle takes the fetched list;
   * a failed request sets nothing.
   */
  function ListAfter(e: Event, ts: seq<Task>, editing: Option<Task>): (r: Option<seq<Task>>)
    ensures RequestFailed(e) ==> r.None?
    ensures r.Some? && (e.Submit? || e.SubmitChecked?) ==>
              e.created.Some? && |r.value| == |ts| + 1 && r.value[..|ts|] == ts && r.value[|ts|] == e.created.value
    ensures r.Some? && (e.EditSubmit? || e.EditSubmitChecked?) ==>
              && editing.Some? && e.edited.Some? && |r.value| == |ts|
              && forall i :: 0 <= i < |ts| ==> r.value[i] == if ts[i].id == editing.value.id then e.edited.value else ts[i]
    ensures r.Some? && (e.MarkComplete? || e.MarkIncomplete?) ==>
              && e.updated.Some? && |r.value| == |ts|
              && forall i :: 0 <= i < |ts| ==> r.value[i] == if ts[i].id == e.updated.value.id then e.updated.value else ts[i]
    ensures r.Some? && e.Delete? ==> r.value == WithoutId(ts, e.id)
    ensures (e.ToggleCompleted? || e.ToggleIncomplete?) ==> r == e.fetched
  {
    match e
    case Submit(created) =>
      if created.Some? then Some(ts + [created.value]) else None
    case SubmitChecked(_, created) =>
      if created.Some? then Some(ts + [created.value]) else None
    case EditSubmit(edited) =>
      if editing.Some? && edited.Some? then Some(ReplaceById(ts, editing.value.id, edited.value)) else None
    case EditSubmitChecked(_, edited) =>
      if editing.Some? && edited.Some? then Some(ReplaceById(ts, editing.value.id, edited.value)) else None
    case MarkComplete(_, updated) =>
      if updated.Some? then Some(ReplaceById(ts, updated.value.id, updated.value)) else None
    case MarkIncomplete(_, updated) =>
      if updated.Some? then Some(ReplaceById(ts, updated.value.id, updated.value)) else None
    case Delete(id, deleted) =>
      if deleted then Some(WithoutId(ts, id)) else None
    case ToggleCompleted(fetched) => fetched
    case ToggleIncomplete(fetched) => fetched
  }

  /**
   * The page state an event can touch besides the list and the partitions: the store's
   * `tasksType` and `isLoading`, the two view flags, the new-task form and the task being edited.
   */
  datatype PageRest = PageRest(tasksType: string, isLoading: bool, showCompleted: bool, showIncomplete: bool,
                               newTask: TaskForm, editingTask: Option<Task>)

  /**
   * The rest of the page after an event: the store's `tasksType` and `isLoading` are kept; a
   * toggle flips its own view and turns the other off, and any other event keeps both flags;
   * the new-task form is reset only by a create that set the list, and the edit is closed
   * only by an edit that set the list.
   */
  predicate RestAfter(e: Event, tasksSet: bool, before: PageRest, after: PageRest) {
    && after.tasksType == before.tasksType && after.isLoading == before.isLoading
    && (if e.ToggleCompleted? then after.showCompleted == !before.showCompleted && !after.showIncomplete
        else if e.ToggleIncomplete? then after.showIncomplete == !before.showIncomplete && !after.showCompleted
        else after.showCompleted == before.showCompleted && after.showIncomplete == before.showIncomplete)
    && after.newTask == (if (e.Submit? || e.SubmitChecked?) && tasksSet then EmptyForm else before.newTask)
    && after.editingTask == (if (e.EditSubmit? || e.EditSubmitChecked?) && tasksSet then None else before.editingTask)
  }

  class MainComponent {
    /** The shared task store that holds `tasks`. */
    const store: TaskStore.Store
    var newTask: TaskForm
    var editingTask: Option<Task>
    var showCompletedTasks: bool
    var showIncompletedTasks: bool
    var completedTasks: seq<Task>
    var incompleteTasks: seq<Task>

    /** At most one filtered view is on. */
    ghost predicate Valid()
      reads this
    {
      !(showCompletedTasks && showIncompletedTasks)
    }

    function Partition(): Partitions
      reads this
    {
      Partitions(completedTasks, incompleteTasks)
    }

    /** The partitions are those of the current task list. */
    ghost predicate Derived()
      reads this, store
    {
      Partition() == PartitionOf(store.tasks)
    }

    /** The list on screen. With derived partitions: the tasks of the active view, taken from the list. */
    function Displayed(): (r: seq<Task>)
      reads this, store
      ensures Derived() ==>
                forall t :: t in r <==> t in store.tasks && (showCompletedTasks ==> t.completed)
                                        && (!showCompletedTasks && showIncompletedTasks ==> !t.completed)
    {
      ShownWhenDerived(store.tasks, showCompletedTasks, showIncompletedTasks);
      Shown(store.tasks, Partition(), showCompletedTasks, showIncompletedTasks)
    }

    constructor (store: TaskStore.Store)
      ensures this.store == store && Valid()
      ensures newTask == EmptyForm && editingTask == None
      ensures !showCompletedTasks && !showIncompletedTasks
      ensures completedTasks == [] && incompleteTasks == []
    {
      this.store := store;
      newTask := EmptyForm;
      editingTask := None;
      showCompletedTasks, showIncompletedTasks := false, false;
      completedTasks, incompleteTasks := [], [];
    }

    /** The effect on `[tasks]`: both partitions are derived again from the list. */
    method TasksChanged()
      modifies this`completedTasks, this`incompleteTasks
      ensures Derived()
    {
      completedTasks := CompletedOf(store.tasks);
      incompleteTasks := IncompleteOf(store.tasks);
    }

    /** The mount: the effect runs on the first render, then the fetch of all tasks settles. */
    method Mount(fetched: Option<seq<Task>>) returns (call: Call)
      modifies this`completedTasks, this`incompleteTasks, store
      ensures call == FetchAll && Derived()
      ensures store.Current() == if fetched.Some? then TaskStore.WithTasks(old(store.Current()), fetched.value)
                                 else old(store.Current())
    {
      call := FetchAll;
      TasksChanged();
      if fetched.Some? {
        store.SetTasks(fetched.value);
        TasksChanged();
      }
    }

    /** `updateFilteredTasks`: prunes one partition by id, never adds to either. */
    method UpdateFilteredTasks(id: string, completed: bool)
      modifies this`completedTasks, this`incompleteTasks
      ensures Partition() == Prune(old(Partition()), showCompletedTasks, showIncompletedTasks, id, completed)
    {
      if completed && !showCompletedTasks {
        completedTasks := WithoutId(completedTasks, id);
      } else if !completed && !showIncompletedTasks {
        incompleteTasks := WithoutId(incompleteTasks, id);
      }
    }

    /** `handleSubmit` of the older page: no local checks; a created task is appended and the form reset. */
    method HandleSubmit(created: Option<Task>) returns (call: Call, tasksSet: bool)
      modifies this`newTask, store
      ensures call == CreateTask(old(newTask)) && tasksSet == created.Some?
      ensures created.Some? ==> store.Current() == TaskStore.WithTasks(old(store.Current()), old(store.tasks) + [created.value])
                                && newTask == EmptyForm
      ensures created.None? ==> store.Current() == old(store.Current()) && newTask == old(newTask)
    {
      call := CreateTask(newTask);
      tasksSet := false;
      if created.Some? {
        store.SetTasks(store.tasks + [created.value]);
        tasksSet := true;
        newTask := EmptyForm;
      }
    }

    /** `handleSubmit` of the newer page: the field and date checks first; a refusal sends nothing. */
    method HandleSubmitChecked(today: Day, created: Option<Task>) returns (call: Option<Call>, error: Option<FormError>, tasksSet: bool)
      modifies this`newTask, store
      ensures error == CheckFields(old(newTask.title), old(newTask.description), old(newTask.dueDate), today)
      ensures error.Some? ==> call == None && !tasksSet && store.Current() == old(store.Current()) && newTask == old(newTask)
      ensures error.None? ==> call == Some(CreateTask(old(newTask))) && tasksSet == created.Some?
      ensures error.None? && created.Some? ==>
                store.Current() == TaskStore.WithTasks(old(store.Current()), old(store.tasks) + [created.value])
                && newTask == EmptyForm
      ensures created.None? ==> store.Current() == old(store.Current()) && newTask == old(newTask)
    {
      call, tasksSet := None, false;
      var trimmedTitle := Text.Trim(newTask.title);
      var trimmedDescription := Text.Trim(newTask.description);
      if trimmedTitle == "" || trimmedDescription == "" {
        error := Some(DataError);
        return;
      }
      if newTask.dueDate.Some? && newTask.dueDate.value < today {
        error := Some(DateError);
        return;
      }
      error := None;
      var c;
      c, tasksSet := HandleSubmit(created);
      call := Some(c);
    }

    method OpenEditTaskModal(t: Task)
      modifies this`editingTask
      ensures editingTask == Some(t)
    {
      editingTask := Some(t);
    }

    method CloseModal()
      modifies this`editingTask
      ensures editingTask == None
    {
      editingTask := None;
    }

    /**
     * `handleEditSubmit` of the older page: every task with the edited id becomes the reply,
     * the partitions are pruned by the reply, and the edit form is closed.
     */
    method HandleEditSubmit(edited: Option<Task>) returns (call: Call, tasksSet: bool)
      requires editingTask.Some?
      modifies this`editingTask, this`completedTasks, this`incompleteTasks, store
      ensures var e := old(editingTask.value);
              call == UpdateContent(e.id, e.title, e.description, e.dueDate)
      ensures tasksSet == edited.Some?
      ensures edited.Some? ==>
                && store.Current() == TaskStore.WithTasks(old(store.Current()), ReplaceById(old(store.tasks), old(editingTask.value.id), edited.value))
                && Partition() == Prune(old(Partition()), showCompletedTasks, showIncompletedTasks, edited.value.id, edited.value.completed)
                && editingTask == None
      ensures edited.None? ==>
                store.Current() == old(store.Current()) && Partition() == old(Partition()) && editingTask == old(editingTask)
    {
      var e := editingTask.value;
      call := UpdateContent(e.id, e.title, e.description, e.dueDate);
      tasksSet := false;
      if edited.Some? {
        store.SetTasks(ReplaceById(store.tasks, e.id, edited.value));
        tasksSet := true;
        UpdateFilteredTasks(edited.value.id, edited.value.completed);
        editingTask := None;
      }
    }

    /** `handleEditSubmit` of the newer page: the create checks on the edited fields come first. */
    method HandleEditSubmitChecked(today: Day, edited: Option<Task>) returns (call: Option<Call>, error: Option<FormError>, tasksSet: bool)
      requires editingTask.Some?
      modifies this`editingTask, this`completedTasks, this`incompleteTasks, store
      ensures var e := old(editingTask.value);
              error == CheckFields(e.title, e.description, e.dueDate, today)
      ensures error.Some? ==>
                && call == None && !tasksSet
                && store.Current() == old(store.Current()) && Partition() == old(Partition()) && editingTask == old(editingTask)
      ensures error.None? ==>
                var e := old(editingTask.value);
                call == Some(UpdateContent(e.id, e.title, e.description, e.dueDate)) && tasksSet == edited.Some?
      ensures error.None? && edited.Some? ==>
                && store.Current() == TaskStore.WithTasks(old(store.Current()), ReplaceById(old(store.tasks), old(editingTask.value.id), edited.value))
                && Partition() == Prune(old(Partition()), showCompletedTasks, showIncompletedTasks, edited.value.id, edited.value.completed)
                && editingTask == None
      ensures edited.None? ==>
                store.Current() == old(store.Current()) && Partition() == old(Partition()) && editingTask == old(editingTask)
    {
      call, tasksSet := None, false;
      var e := editingTask.value;
      var trimmedTitle := Text.Trim(e.title);
      var trimmedDescription := Text.Trim(e.description);
      if trimmedTitle == "" || trimmedDescription == "" {
        error := Some(DataError);
        return;
      }
      if e.dueDate.Some? && e.dueDate.value < today {
        error := Some(DateError);
        return;
      }
      error := None;
      var c;
      c, tasksSet := HandleEditSubmit(edited);
      call := Some(c);
    }

    /**
     * `toggleCompletedTasks`: flips the completed view and turns the incomplete view off; while
     * the view was off it fetches the completed tasks, while it was on it fetches all tasks.
     */
    method ToggleCompletedTasks(fetched: Option<seq<Task>>) returns (call: Call, tasksSet: bool)
      modifies this`showCompletedTasks, this`showIncompletedTasks, store
      ensures Valid()
      ensures showCompletedTasks == !old(showCompletedTasks) && !showIncompletedTasks
      ensures call == if old(showCompletedTasks) then FetchAll else FetchCompleted
      ensures tasksSet == fetched.Some?
      ensures store.Current() == if fetched.Some? then TaskStore.WithTasks(old(store.Current()), fetched.value)
                                 else old(store.Current())
    {
      var wasShown := showCompletedTasks;
      showCompletedTasks := !showCompletedTasks;
      showIncompletedTasks := false;
      call := if !wasShown then FetchCompleted else FetchAll;
      tasksSet := false;
      if fetched.Some? {
        store.SetTasks(fetched.value);
        tasksSet := true;
      }
    }

    /** `toggleIncompletedTasks`: the mirror image of `ToggleCompletedTasks`. */
    method ToggleIncompletedTasks(fetched: Option<seq<Task>>) returns (call: Call, tasksSet: bool)
      modifies this`showCompletedTasks, this`showIncompletedTasks, store
      ensures Valid()
      ensures showIncompletedTasks == !old(showIncompletedTasks) && !showCompletedTasks
      ensures call == if old(showIncompletedTasks) then FetchAll else FetchIncomplete
      ensures tasksSet == fetched.Some?
      ensures store.Current() == if fetched.Some? then TaskStore.WithTasks(old(store.Current()), fetched.value)
                                 else old(store.Current())
    {
      var wasShown := showIncompletedTasks;
      showIncompletedTasks := !showIncompletedTasks;
      showCompletedTasks := false;
      call := if !wasShown then FetchIncomplete else FetchAll;
      tasksSet := false;
      if fetched.Some? {
        store.SetTasks(fetched.value);
        tasksSet := true;
      }
    }

    /**
     * `markAsComplete` and `markAsIncomplete` reading the reply's task where the older page
     * does: the request carries only the id, every task with the reply's id becomes the reply,
     * and the partitions are pruned by it. `completed` is the flag the user asked for; it
     * never reaches the service.
     */
    method MarkStatus(id: string, completed: bool, updated: Option<Task>) returns (call: Call, tasksSet: bool)
      modifies this`completedTasks, this`incompleteTasks, store
      ensures call == UpdateStatus(id) && tasksSet == updated.Some?
      ensures updated.Some? ==>
                && store.Current() == TaskStore.WithTasks(old(store.Current()), ReplaceById(old(store.tasks), updated.value.id, updated.value))
                && Partition() == Prune(old(Partition()), showCompletedTasks, showIncompletedTasks, updated.value.id, updated.value.completed)
      ensures updated.None? ==> store.Current() == old(store.Current()) && Partition() == old(Partition())
    {
      call := UpdateStatus(id);
      tasksSet := false;
      if updated.Some? {
        var t := updated.value;
        store.SetTasks(ReplaceById(store.tasks, t.id, t));
        tasksSet := true;
        UpdateFilteredTasks(t.id, t.completed);
      }
    }

    /**
     * `markAsComplete` and `markAsIncomplete` of the newer page as written: they look for the
     * task at `response.task`, but the status request there resolves to the HTTP response,
     * which has no such field. Over a non-empty list the lookup of `_id` throws inside `map`;
     * over an empty one `setTasks([])` runs before `updateFilteredTasks` throws. Either way the
     * error is caught and the list keeps its contents, whatever the service answered.
     */
    method MarkStatusAsWritten(id: string, completed: bool, updated: Option<Task>) returns (call: Call, tasksSet: bool)
      modifies store
      ensures call == UpdateStatus(id)
      ensures tasksSet == (updated.Some? && old(store.tasks) == [])
      ensures store.Current() == old(store.Current())
    {
      call := UpdateStatus(id);
      tasksSet := false;
      if updated.Some? && store.tasks == [] {
        store.SetTasks([]);
        tasksSet := true;
      }
    }

    /**
     * `handleDelete`: keeps the tasks whose id differs and prunes the partitions as for an
     * incomplete task with that id.
     */
    method HandleDelete(id: string, deleted: bool) returns (call: Call, tasksSet: bool)
      modifies this`completedTasks, this`incompleteTasks, store
      ensures call == DeleteTask(id) && tasksSet == deleted
      ensures deleted ==>
                && store.Current() == TaskStore.WithTasks(old(store.Current()), WithoutId(old(store.tasks), id))
                && Partition() == Prune(old(Partition()), showCompletedTasks, showIncompletedTasks, id, false)
      ensures !deleted ==> store.Current() == old(store.Current()) && Partition() == old(Partition())
    {
      call := DeleteTask(id);
      tasksSet := false;
      if deleted {
        store.SetTasks(WithoutId(store.tasks, id));
        tasksSet := true;
        UpdateFilteredTasks(id, false);
      }
    }

    /** The rest of the page besides the list and the partitions. */
    function Rest(): PageRest
      reads this, store
    {
      PageRest(store.tasksType, store.isLoading, showCompletedTasks, showIncompletedTasks, newTask, editingTask)
    }

    /**
     * The handler of one user action, without the effect that follows it: a handler that
     * does not set the list changes neither the list nor the partitions, and every handler
     * keeps the view flags exclusive.
     */
    method Handle(e: Event) returns (call: Option<Call>, tasksSet: bool)
      requires Valid()
      requires (e.EditSubmit? || e.EditSubmitChecked?) ==> editingTask.Some?
      modifies this, store
      ensures Valid()
      ensures !tasksSet ==> store.tasks == old(store.tasks) && Partition() == old(Partition())
      ensures var next := ListAfter(e, old(store.tasks), old(editingTask));
              && (tasksSet <==> Refusal(e, old(newTask), old(editingTask)).None? && next.Some?)
              && (tasksSet ==> store.tasks == next.value)
      ensures call == Request(e, old(newTask), old(editingTask), old(showCompletedTasks), old(showIncompletedTasks))
      ensures RestAfter(e, tasksSet, old(Rest()), Rest())
    {
      if e.Submit? || e.EditSubmit? {
        call, tasksSet := HandleForm(e);
      } else if e.SubmitChecked? {
        call, tasksSet := HandleCreateChecked(e);
      } else if e.EditSubmitChecked? {
        call, tasksSet := HandleEditChecked(e);
      } else if e.MarkComplete? || e.MarkIncomplete? {
        call, tasksSet := HandleMark(e);
      } else if e.Delete? {
        call, tasksSet := HandleDeleteEvent(e);
      } else {
        call, tasksSet := HandleToggle(e);
      }
    }

    /** `Handle` for the create and edit forms of the older page. */
    method HandleForm(e: Event) returns (call: Option<Call>, tasksSet: bool)
      requires e.Submit? || e.EditSubmit?
      requires e.EditSubmit? ==> editingTask.Some?
      modifies this`newTask, this`editingTask, this`completedTasks, this`incompleteTasks, store
      ensures !tasksSet ==> store.tasks == old(store.tasks) && Partition() == old(Partition())
      ensures var next := ListAfter(e, old(store.tasks), old(editingTask));
              && (tasksSet <==> Refusal(e, old(newTask), old(editingTask)).None? && next.Some?)
              && (tasksSet ==> store.tasks == next.value)
      ensures call == Request(e, old(newTask), old(editingTask), old(showCompletedTasks), old(showIncompletedTasks))
      ensures RestAfter(e, tasksSet, old(Rest()), Rest())
    {
      var c;
      if e.Submit? {
        c, tasksSet := HandleSubmit(e.created);
      } else {
        c, tasksSet := HandleEditSubmit(e.edited);
      }
      call := Some(c);
    }

    /** `Handle` for the create form of the newer page, which checks the fields first. */
    method HandleCreateChecked(e: Event) returns (call: Option<Call>, tasksSet: bool)
      requires e.SubmitChecked?
      modifies this`newTask, this`editingTask, this`completedTasks, this`incompleteTasks, store
      ensures !tasksSet ==> store.tasks == old(store.tasks) && Partition() == old(Partition())
      ensures var next := ListAfter(e, old(store.tasks), old(editingTask));
              && (tasksSet <==> Refusal(e, old(newTask), old(editingTask)).None? && next.Some?)
              && (tasksSet ==> store.tasks == next.value)
      ensures call == Request(e, old(newTask), old(editingTask), old(showCompletedTasks), old(showIncompletedTasks))
      ensures RestAfter(e, tasksSet, old(Rest()), Rest())
    {
      ghost var verdict := Refusal(e, newTask, editingTask);
      assert verdict == CheckFields(newTask.title, newTask.description, newTask.dueDate, e.today);
      var refusal;
      call, refusal, tasksSet := HandleSubmitChecked(e.today, e.created);
      assert refusal == verdict;
    }

    /** `Handle` for the edit form of the newer page, which checks the fields first. */
    method HandleEditChecked(e: Event) returns (call: Option<Call>, tasksSet: bool)
      requires e.EditSubmitChecked? && editingTask.Some?
      modifies this`newTask, this`editingTask, this`completedTasks, this`incompleteTasks, store
      ensures !tasksSet ==> store.tasks == old(store.tasks) && Partition() == old(Partition())
      ensures var next := ListAfter(e, old(store.tasks), old(editingTask));
              && (tasksSet <==> Refusal(e, old(newTask), old(editingTask)).None? && next.Some?)
              && (tasksSet ==> store.tasks == next.value)
      ensures call == Request(e, old(newTask), old(editingTask), old(showCompletedTasks), old(showIncompletedTasks))
      ensures RestAfter(e, tasksSet, old(Rest()), Rest())
    {
      ghost var verdict := Refusal(e, newTask, editingTask);
      assert verdict == CheckFields(editingTask.value.title, editingTask.value.description, editingTask.value.dueDate, e.today);
      var refusal;
      call, refusal, tasksSet := HandleEditSubmitChecked(e.today, e.edited);
      assert refusal == verdict;
    }

    /** `Handle` for the two status buttons. */
    method HandleMark(e: Event) returns (call: Option<Call>, tasksSet: bool)
      requires e.MarkComplete? || e.MarkIncomplete?
      modifies this`completedTasks, this`incompleteTasks, store
      ensures !tasksSet ==> store.tasks == old(store.tasks) && Partition() == old(Partition())
      ensures var next := ListAfter(e, old(store.tasks), old(editingTask));
              && (tasksSet <==> Refusal(e, old(newTask), old(editingTask)).None? && next.Some?)
              && (tasksSet ==> store.tasks == next.value)
      ensures call == Request(e, old(newTask), old(editingTask), old(showCompletedTasks), old(showIncompletedTasks))
      ensures RestAfter(e, tasksSet, old(Rest()), Rest())
    {
      ghost var rest := Rest();
      assert Refusal(e, newTask, editingTask) == None;
      assert ListAfter(e, store.tasks, editingTask)
          == if e.updated.Some? then Some(ReplaceById(store.tasks, e.updated.value.id, e.updated.value)) else None;
      var c;
      c, tasksSet := MarkStatus(e.id, e.MarkComplete?, e.updated);
      assert Rest() == rest;
      call := Some(c);
    }

    /** `Handle` for the delete button. */
    method HandleDeleteEvent(e: Event) returns (call: Option<Call>, tasksSet: bool)
      requires e.Delete?
      modifies this`completedTasks, this`incompleteTasks, store
      ensures !tasksSet ==> store.tasks == old(store.tasks) && Partition() == old(Partition())
      ensures var next := ListAfter(e, old(store.tasks), old(editingTask));
              && (tasksSet <==> Refusal(e, old(newTask), old(editingTask)).None? && next.Some?)
              && (tasksSet ==> store.tasks == next.value)
      ensures call == Request(e, old(newTask), old(editingTask), old(showCompletedTasks), old(showIncompletedTasks))
      ensures RestAfter(e, tasksSet, old(Rest()), Rest())
    {
      ghost var rest := Rest();
      assert Refusal(e, newTask, editingTask) == None;
      assert ListAfter(e, store.tasks, editingTask) == if e.deleted then Some(WithoutId(store.tasks, e.id)) else None;
      var c;
      c, tasksSet := HandleDelete(e.id, e.deleted);
      assert Rest() == rest;
      call := Some(c);
    }

    /** `Handle` for the two view toggles. */
    method HandleToggle(e: Event) returns (call: Option<Call>, tasksSet: bool)
      requires e.ToggleCompleted? || e.ToggleIncomplete?
      modifies this`showCompletedTasks, this`showIncompletedTasks, store
      ensures Valid()
      ensures !tasksSet ==> store.tasks == old(store.tasks) && Partition() == old(Partition())
      ensures var next := ListAfter(e, old(store.tasks), old(editingTask));
              && (tasksSet <==> Refusal(e, old(newTask), old(editingTask)).None? && next.Some?)
              && (tasksSet ==> store.tasks == next.value)
      ensures call == Request(e, old(newTask), old(editingTask), old(showCompletedTasks), old(showIncompletedTasks))
      ensures RestAfter(e, tasksSet, old(Rest()), Rest())
    {
      var c;
      if e.ToggleCompleted? {
        c, tasksSet := ToggleCompletedTasks(e.fetched);
      } else {
        c, tasksSet := ToggleIncompletedTasks(e.fetched);
      }
      call := Some(c);
    }

    /**
     * One user action as the page runs it: the handler, then the "tasks changed" effect when
     * the handler set the list. Whatever the handler pruned is then replaced by the derived
     * partitions; a failed request changes neither the list nor the partitions; and the
     * rest of the page is as `RestAfter` says.
     */
    method Dispatch(e: Event) returns (call: Option<Call>, tasksSet: bool)
      requires Valid()
      requires (e.EditSubmit? || e.EditSubmitChecked?) ==> editingTask.Some?
      modifies this, store
      ensures Valid()
      ensures tasksSet ==> Derived()
      ensures !tasksSet ==> store.tasks == old(store.tasks) && Partition() == old(Partition())
      ensures old(Derived()) ==> Derived()
      ensures var next := ListAfter(e, old(store.tasks), old(editingTask));
              && (tasksSet <==> Refusal(e, old(newTask), old(editingTask)).None? && next.Some?)
              && (tasksSet ==> store.tasks == next.value)
      ensures call == Request(e, old(newTask), old(editingTask), old(showCompletedTasks), old(showIncompletedTasks))
      ensures RestAfter(e, tasksSet, old(Rest()), Rest())
    {
      call, tasksSet := Handle(e);
      if tasksSet {
        ghost var rest, tasks := Rest(), store.tasks;
        TasksChanged();
        assert Rest() == rest && store.tasks == tasks;
      }
    }
  }

  /**
   * All tasks, then the completed view, then all tasks again: two fetches, the completed ones
   * and then all, and the page ends in the all-tasks view showing the second reply, with its
   * partitions derived from it whatever the first reply was.
   */
  method ShowCompletedAndBack(board: MainComponent, first: seq<Task>, second: seq<Task>) returns (calls: seq<Call>)
    requires !board.showCompletedTasks && !board.showIncompletedTasks
    modifies board, board.store
    ensures calls == [FetchCompleted, FetchAll]
    ensures !board.showCompletedTasks && !board.showIncompletedTasks
    ensures board.store.tasks == second && board.Derived()
    ensures board.Displayed() == second
  {
    var c1, set1 := board.ToggleCompletedTasks(Some(first));
    board.TasksChanged();
    var c2, set2 := board.ToggleCompletedTasks(Some(second));
    board.TasksChanged();
    calls := [c1, c2];
  }

  /**
   * A successful delete, handler and effect together: whichever view is on, no task with
   * the deleted id is left on screen, and the list keeps every other task.
   */
  method DeleteLeavesScreen(board: MainComponent, id: string) returns (call: Option<Call>)
    requires board.Valid()
    modifies board, board.store
    ensures call == Some(DeleteTask(id))
    ensures forall t :: t in board.Displayed() ==> t.id != id
    ensures forall t :: t in board.store.tasks <==> t in old(board.store.tasks) && t.id != id
  {
    ghost var before := board.store.tasks;
    var tasksSet;
    call, tasksSet := board.Dispatch(Delete(id, true));
    assert board.store.tasks == WithoutId(before, id);
    assert board.Derived();
  }
}
