/**
 * The task store: a record of `tasks`, `tasksType` and `isLoading` whose setters each
 * overwrite one field of the state through `set((state) => ({ ...state, field }))`.
 */
module TaskStore {
  import opened Tasks

  datatype State = State(tasks: seq<Task>, tasksType: string, isLoading: bool)

  /** The state the store is created with. */
  const Initial := State([], "all", false)

  /** The updater `setTasks` passes to `set`: `tasks` becomes `t`, the rest stays. */
  function WithTasks(s: State, t: seq<Task>): (r: State)
    ensures r.tasks == t && r.tasksType == s.tasksType && r.isLoading == s.isLoading
  {
    s.(tasks := t)
  }

  /** The updater of `setTasksType`. */
  function WithTasksType(s: State, k: string): (r: State)
    ensures r.tasksType == k && r.tasks == s.tasks && r.isLoading == s.isLoading
  {
    s.(tasksType := k)
  }

  /** The updater of `setIsLoading`. */
  function WithIsLoading(s: State, b: bool): (r: State)
    ensures r.isLoading == b && r.tasks == s.tasks && r.tasksType == s.tasksType
  {
    s.(isLoading := b)
  }

  /** Every setter is last-write-wins: two writes equal the second one alone. */
  lemma LastWriteWins(s: State, t1: seq<Task>, t2: seq<Task>, k1: string, k2: string, b1: bool, b2: bool)
    ensures WithTasks(WithTasks(s, t1), t2) == WithTasks(s, t2)
    ensures WithTasksType(WithTasksType(s, k1), k2) == WithTasksType(s, k2)
    ensures WithIsLoading(WithIsLoading(s, b1), b2) == WithIsLoading(s, b2)
  {
  }

  /** Setters of different fields commute. */
  lemma SettersCommute(s: State, t: seq<Task>, k: string, b: bool)
    ensures WithTasks(WithTasksType(s, k), t) == WithTasksType(WithTasks(s, t), k)
    ensures WithTasks(WithIsLoading(s, b), t) == WithIsLoading(WithTasks(s, t), b)
    ensures WithTasksType(WithIsLoading(s, b), k) == WithIsLoading(WithTasksType(s, k), b)
  {
  }

  class Store {
    var tasks: seq<Task>
    var tasksType: string
    var isLoading: bool

    function Current(): State
      reads this
    {
      State(tasks, tasksType, isLoading)
    }

    constructor ()
      ensures Current() == Initial
    {
      tasks, tasksType, isLoading := [], "all", false;
    }

    method SetTasks(t: seq<Task>)
      modifies this
      ensures Current() == WithTasks(old(Current()), t)
    {
      tasks := t;
    }

    method SetTasksType(k: string)
      modifies this
      ensures Current() == WithTasksType(old(Current()), k)
    {
      tasksType := k;
    }

    method SetIsLoading(b: bool)
      modifies this
      ensures Current() == WithIsLoading(old(Current()), b)
    {
      isLoading := b;
    }
  }
}
