/**
 * The to-do item and the pure list transforms the task page performs on it: append,
 * replace by id, remove by id, the completed/incomplete partition, the prune rule of
 * `updateFilteredTasks`, the choice of the displayed list, and the create/edit checks.
 */
module Tasks {
  import opened Wrappers
  import opened Seqs
  import Text
  import opened Feedback

  /** A calendar day, counted in whole days; time of day plays no part. */
  type Day = int

  /**
   * A due date as the page compares it: the day a date string denotes, or None for a
   * string that does not parse to a date (the empty string among them).
   */
  type DueDate = Option<Day>

  /** A task as the service returns it. The server's timestamps are never read here. */
  datatype Task = Task(id: string, title: string, description: string, dueDate: DueDate, completed: bool)

  /** The contents of the "new task" form. */
  datatype TaskForm = TaskForm(title: string, description: string, completed: bool, dueDate: DueDate)

  /** The form after a successful create: empty title, description and due date, not completed. */
  const EmptyForm := TaskForm("", "", false, None)

  predicate IsDone(t: Task) { t.completed }

  predicate IsPending(t: Task) { !t.completed }

  /** `tasks.filter((task) => task.completed)`: the completed tasks, each as often as in the list. */
  function CompletedOf(ts: seq<Task>): (r: seq<Task>)
    ensures forall t :: t in r <==> t in ts && t.completed
    ensures forall t :: multiset(r)[t] == if t.completed then multiset(ts)[t] else 0
  {
    Filter(ts, IsDone)
  }

  /** `tasks.filter((task) => !task.completed)`: the incomplete tasks, each as often as in the list. */
  function IncompleteOf(ts: seq<Task>): (r: seq<Task>)
    ensures forall t :: t in r <==> t in ts && !t.completed
    ensures forall t :: multiset(r)[t] == if !t.completed then multiset(ts)[t] else 0
  {
    Filter(ts, IsPending)
  }

  /** `tasks.filter((task) => task._id !== id)`: the tasks whose id differs, each as often as before. */
  function WithoutId(ts: seq<Task>, id: string): (r: seq<Task>)
    ensures |r| <= |ts|
    ensures forall x :: x in r <==> x in ts && x.id != id
    ensures forall x :: multiset(r)[x] == if x.id != id then multiset(ts)[x] else 0
  {
    Filter(ts, (t: Task) => t.id != id)
  }

  /** `tasks.map((task) => task._id === id ? t : task)`: every task with this id becomes `t`. */
  function ReplaceById(ts: seq<Task>, id: string, t: Task): (r: seq<Task>)
    ensures |r| == |ts|
    ensures forall i :: 0 <= i < |ts| ==> r[i] == if ts[i].id == id then t else ts[i]
  {
    if ts == [] then []
    else [if ts[0].id == id then t else ts[0]] + ReplaceById(ts[1..], id, t)
  }

  /** A replace by an id no task carries changes nothing. */
  lemma ReplaceByAbsentId(ts: seq<Task>, id: string, t: Task)
    requires forall i :: 0 <= i < |ts| ==> ts[i].id != id
    ensures ReplaceById(ts, id, t) == ts
  {
  }

  /**
   * Two replies for the same id, applied in turn, leave what the second alone leaves:
   * marking complete and then incomplete restores every task with that id to the second
   * reply, and the others are never touched.
   */
  lemma ReplaceByIdTwice(ts: seq<Task>, id: string, t1: Task, t2: Task)
    requires t1.id == id
    ensures ReplaceById(ReplaceById(ts, id, t1), id, t2) == ReplaceById(ts, id, t2)
  {
  }

  /**
   * Delete keeps the tasks whose id differs in their original order (it distributes over
   * concatenation); deleting the same id again changes nothing.
   */
  lemma WithoutIdKeepsOthers(ts: seq<Task>, id: string, a: seq<Task>, b: seq<Task>)
    ensures WithoutId(a + b, id) == WithoutId(a, id) + WithoutId(b, id)
    ensures WithoutId(WithoutId(ts, id), id) == WithoutId(ts, id)
  {
    FilterConcat(a, b, (t: Task) => t.id != id);
    FilterIdempotent(ts, (t: Task) => t.id != id);
  }

  /**
   * The partitions are complementary: no task is in both, each one is in the partition its
   * flag selects, and together they hold every task of the list exactly as often as the list does.
   */
  lemma {:induction false} PartitionCovers(ts: seq<Task>)
    ensures forall t :: t in CompletedOf(ts) <==> t in ts && t.completed
    ensures forall t :: t in IncompleteOf(ts) <==> t in ts && !t.completed
    ensures multiset(CompletedOf(ts)) + multiset(IncompleteOf(ts)) == multiset(ts)
    ensures |CompletedOf(ts)| + |IncompleteOf(ts)| == |ts|
  {
    var c, p := CompletedOf(ts), IncompleteOf(ts);
    assert forall t :: multiset(c)[t] + multiset(p)[t] == multiset(ts)[t];
    assert multiset(c) + multiset(p) == multiset(ts);
    assert |multiset(c) + multiset(p)| == |c| + |p|;
  }

  /** The two local views the page keeps besides the task list. */
  datatype Partitions = Partitions(completed: seq<Task>, incomplete: seq<Task>)

  /**
   * The partitions the "tasks changed" step derives from a task list: the completed and the
   * incomplete tasks, which together hold every task of the list exactly as often as the list.
   */
  function PartitionOf(ts: seq<Task>): (r: Partitions)
    ensures forall t :: t in r.completed <==> t in ts && t.completed
    ensures forall t :: t in r.incomplete <==> t in ts && !t.completed
    ensures multiset(r.completed) + multiset(r.incomplete) == multiset(ts)
  {
    PartitionCovers(ts);
    Partitions(CompletedOf(ts), IncompleteOf(ts))
  }

  /**
   * `updateFilteredTasks(updated)`: a completed task leaves the completed view when that view
   * is off; otherwise an incomplete task leaves the incomplete view when that view is off;
   * otherwise nothing changes. It only ever removes, and touches at most one of the two lists.
   */
  function Prune(p: Partitions, showCompleted: bool, showIncomplete: bool, id: string, completed: bool): (r: Partitions)
    ensures r.completed == p.completed || r.incomplete == p.incomplete
    ensures multiset(r.completed) <= multiset(p.completed) && multiset(r.incomplete) <= multiset(p.incomplete)
    ensures r.completed != p.completed ==> completed && !showCompleted
    ensures r.incomplete != p.incomplete ==> !completed && !showIncomplete
    ensures completed && !showCompleted ==>
              r.incomplete == p.incomplete && forall x :: x in r.completed <==> x in p.completed && x.id != id
    ensures !completed && !showIncomplete ==>
              r.completed == p.completed && forall x :: x in r.incomplete <==> x in p.incomplete && x.id != id
    ensures completed && !showCompleted ==> r.completed == WithoutId(p.completed, id)
    ensures !completed && !showIncomplete ==> r.incomplete == WithoutId(p.incomplete, id)
  {
    if completed && !showCompleted then
      Partitions(WithoutId(p.completed, id), p.incomplete)
    else if !completed && !showIncomplete then
      Partitions(p.completed, WithoutId(p.incomplete, id))
    else
      p
  }

  /** Delete prunes as an incomplete task: the completed view is never touched. */
  lemma PruneOnDelete(p: Partitions, showCompleted: bool, showIncomplete: bool, id: string)
    ensures Prune(p, showCompleted, showIncomplete, id, false).completed == p.completed
    ensures showIncomplete ==> Prune(p, showCompleted, showIncomplete, id, false) == p
  {
  }

  /**
   * The list on screen: the completed view when it is on (whatever the other flag), else the
   * incomplete view when it is on, else all tasks.
   */
  function Shown(ts: seq<Task>, p: Partitions, showCompleted: bool, showIncomplete: bool): (r: seq<Task>)
    ensures showCompleted ==> r == p.completed
    ensures !showCompleted && showIncomplete ==> r == p.incomplete
    ensures !showCompleted && !showIncomplete ==> r == ts
  {
    if showCompleted then p.completed else if showIncomplete then p.incomplete else ts
  }

  /**
   * Once the partitions are derived from the list, the screen shows the tasks of the active
   * view and only tasks of the list, each at most as often as the list holds it.
   */
  lemma ShownWhenDerived(ts: seq<Task>, showCompleted: bool, showIncomplete: bool)
    ensures var r := Shown(ts, PartitionOf(ts), showCompleted, showIncomplete);
            && (forall t :: t in r <==> t in ts && (showCompleted ==> t.completed)
                                         && (!showCompleted && showIncomplete ==> !t.completed))
            && multiset(r) <= multiset(ts)
  {
    PartitionCovers(ts);
  }

  /**
   * The create and edit checks of the newer page: a title or description of white space
   * only is a data error; otherwise a due date strictly before today is a date error.
   * A due day equal to today passes, and so does a date that does not parse.
   */
  function CheckFields(title: string, description: string, dueDate: DueDate, today: Day): (r: Option<FormError>)
    ensures r == Some(DataError) <==> Text.IsBlank(title) || Text.IsBlank(description)
    ensures r == Some(DateError) <==>
              !Text.IsBlank(title) && !Text.IsBlank(description) && dueDate.Some? && dueDate.value < today
    ensures r == None <==>
              !Text.IsBlank(title) && !Text.IsBlank(description) && (dueDate.Some? ==> today <= dueDate.value)
  {
    if Text.IsBlank(title) || Text.IsBlank(description) then Some(DataError)
    else if dueDate.Some? && dueDate.value < today then Some(DateError)
    else None
  }

  /**
   * The checks as the page writes them, comparing the trimmed title and description with the
   * empty string before comparing the due date, give the verdict of `CheckFields`.
   */
  lemma CheckFieldsByTrim(title: string, description: string, dueDate: DueDate, today: Day)
    ensures CheckFields(title, description, dueDate, today) ==
              if Text.Trim(title) == "" || Text.Trim(description) == "" then Some(DataError)
              else if dueDate.Some? && dueDate.value < today then Some(DateError)
              else None
  {
    var t, d := Text.Trim(title), Text.Trim(description);
    assert t == "" <==> Text.IsBlank(title);
    assert d == "" <==> Text.IsBlank(description);
  }

  /**
   * An example of the first clause of `CheckFields`, which it restates for any blank title
   * or description: a title of two spaces is refused as a data error, whatever the
   * description, the due date and the day.
   */
  lemma BlankTitleRefused(title: string, description: string, dueDate: DueDate, today: Day)
    requires Text.IsBlank(title) || Text.IsBlank(description)
    ensures CheckFields(title, description, dueDate, today) == Some(DataError)
    ensures CheckFields("  ", description, dueDate, today) == Some(DataError)
  {
    assert Text.IsBlank("  ");
  }
}
