/** The owner-scoped task table behind TaskController, stated on the table as a
    value. Users are identified by their id; the current user is a parameter. */
module Tasks {
  import opened Outcomes

  /** The Task entity: generated id, title, done flag, owning user's id. */
  datatype Task = Task(id: int, title: string, status: bool, owner: int)

  /** The task table, keyed by id. */
  type TaskTable = map<int, Task>

  /** TaskNotFoundException("Task not found with id [" + id + "]"): the exception
      carries the id and nothing else. */
  datatype TaskError = TaskNotFound(id: int)

  /** Rows are stored under their own id, and the identity generator's next
      value lies above every id in use. */
  predicate Valid(tasks: TaskTable, nextId: int) {
    && 1 <= nextId
    && forall id :: id in tasks ==> tasks[id].id == id && 1 <= id < nextId
  }

  /** ownedTaskOrThrow: the task with this id if the current user owns it;
      otherwise one and the same not-found error, whether the id is missing or
      the task belongs to someone else. */
  function OwnedTask(tasks: TaskTable, id: int, user: int): (r: Result<Task, TaskError>)
    ensures r.Ok? <==> id in tasks && tasks[id].owner == user
    ensures r.Ok? ==> r.value == tasks[id]
    ensures r.Err? ==> r.error == TaskNotFound(id)
  {
    if id !in tasks then Err(TaskNotFound(id))
    else if tasks[id].owner != user then Err(TaskNotFound(id))
    else Ok(tasks[id])
  }

  /** findByUser: the tasks the user owns. */
  function TasksOf(tasks: TaskTable, user: int): (r: set<Task>)
    ensures forall t :: t in r ==> t.owner == user && t in tasks.Values
    ensures forall id :: id in tasks && tasks[id].owner == user ==> tasks[id] in r
  {
    set id | id in tasks && tasks[id].owner == user :: tasks[id]
  }

  /** add: a new row under the generator's next id, titled as given, not done,
      owned by the current user. */
  function AddTask(tasks: TaskTable, nextId: int, title: string, user: int): (r: TaskTable)
    requires Valid(tasks, nextId)
    ensures nextId !in tasks
    ensures r.Keys == tasks.Keys + {nextId} && |r| == |tasks| + 1
    ensures r[nextId] == Task(nextId, title, false, user)
    ensures forall id :: id in tasks ==> r[id] == tasks[id]
    ensures Valid(r, nextId + 1)
  {
    tasks[nextId := Task(nextId, title, false, user)]
  }

  /** update: flip the status of an owned task. */
  function Toggle(tasks: TaskTable, id: int, user: int): (r: Result<TaskTable, TaskError>)
    ensures r.Ok? <==> OwnedTask(tasks, id, user).Ok?
    ensures r.Err? ==> r.error == TaskNotFound(id)
    ensures r.Ok? ==> && r.value.Keys == tasks.Keys
                      && r.value[id].status == !tasks[id].status
                      && r.value[id].(status := tasks[id].status) == tasks[id]
                      && (forall k :: k in tasks && k != id ==> r.value[k] == tasks[k])
  {
    match OwnedTask(tasks, id, user)
    case Err(e) => Err(e)
    case Ok(task) => Ok(tasks[id := task.(status := !task.status)])
  }

  /** delete: remove an owned task. */
  function Delete(tasks: TaskTable, id: int, user: int): (r: Result<TaskTable, TaskError>)
    ensures r.Ok? <==> OwnedTask(tasks, id, user).Ok?
    ensures r.Err? ==> r.error == TaskNotFound(id)
    ensures r.Ok? ==> && r.value.Keys == tasks.Keys - {id}
                      && |r.value| == |tasks| - 1
                      && (forall k :: k in r.value ==> r.value[k] == tasks[k])
  {
    match OwnedTask(tasks, id, user)
    case Err(e) => Err(e)
    case Ok(_) => Ok(tasks - {id})
  }

  // ---------------------------------------------------------------------------

  /** Information hiding: a task that belongs to someone else looks exactly like
      a task that does not exist. */
  lemma ForeignLooksMissing(tasks: TaskTable, id: int, user: int)
    requires id in tasks && tasks[id].owner != user
    ensures OwnedTask(tasks, id, user) == OwnedTask(tasks - {id}, id, user)
    ensures Toggle(tasks, id, user) == Toggle(tasks - {id}, id, user) == Err(TaskNotFound(id))
    ensures Delete(tasks, id, user) == Delete(tasks - {id}, id, user) == Err(TaskNotFound(id))
  {
  }

  /** The listing holds exactly the owned tasks: a task is listed exactly when
      the owner's lookup by its id finds it. */
  lemma ListedIffOwned(tasks: TaskTable, nextId: int, user: int, id: int)
    requires Valid(tasks, nextId)
    ensures (exists t :: t in TasksOf(tasks, user) && t.id == id) <==> OwnedTask(tasks, id, user).Ok?
    ensures OwnedTask(tasks, id, user).Ok? ==> OwnedTask(tasks, id, user).value in TasksOf(tasks, user)
  {
  }

  /** Toggling twice gives back the original table. */
  lemma {:induction false} ToggleTwice(tasks: TaskTable, id: int, user: int)
    requires Toggle(tasks, id, user).Ok?
    ensures Toggle(Toggle(tasks, id, user).value, id, user) == Ok(tasks)
  {
    var once := Toggle(tasks, id, user).value;
    var twice := Toggle(once, id, user);
    assert twice.Ok?;
    assert twice.value == tasks by {
      assert twice.value.Keys == tasks.Keys;
      forall k | k in tasks ensures twice.value[k] == tasks[k] {
      }
    }
  }

  lemma ToggleKeepsValid(tasks: TaskTable, nextId: int, id: int, user: int)
    requires Valid(tasks, nextId) && Toggle(tasks, id, user).Ok?
    ensures Valid(Toggle(tasks, id, user).value, nextId)
  {
  }

  lemma DeleteKeepsValid(tasks: TaskTable, nextId: int, id: int, user: int)
    requires Valid(tasks, nextId) && Delete(tasks, id, user).Ok?
    ensures Valid(Delete(tasks, id, user).value, nextId)
  {
  }

  /** After add, the adder's listing gains exactly the new task and every other
      user's listing is unchanged. */
  lemma ListingAfterAdd(tasks: TaskTable, nextId: int, title: string, user: int, other: int)
    requires Valid(tasks, nextId)
    requires other != user
    ensures TasksOf(AddTask(tasks, nextId, title, user), user)
            == TasksOf(tasks, user) + {Task(nextId, title, false, user)}
    ensures TasksOf(AddTask(tasks, nextId, title, user), other) == TasksOf(tasks, other)
  {
  }

  /** After delete, the owner's listing loses exactly that task and every other
      user's listing is unchanged. */
  lemma ListingAfterDelete(tasks: TaskTable, nextId: int, id: int, user: int, other: int)
    requires Valid(tasks, nextId)
    requires Delete(tasks, id, user).Ok?
    requires other != user
    ensures TasksOf(Delete(tasks, id, user).value, user) == TasksOf(tasks, user) - {tasks[id]}
    ensures TasksOf(Delete(tasks, id, user).value, other) == TasksOf(tasks, other)
  {
  }

  /** After update, the owner's listing has the flipped task in place of the
      original and every other user's listing is unchanged. */
  lemma ListingAfterToggle(tasks: TaskTable, nextId: int, id: int, user: int, other: int)
    requires Valid(tasks, nextId)
    requires Toggle(tasks, id, user).Ok?
    requires other != user
    ensures var after := Toggle(tasks, id, user).value;
            TasksOf(after, user) == TasksOf(tasks, user) - {tasks[id]} + {after[id]}
    ensures TasksOf(Toggle(tasks, id, user).value, other) == TasksOf(tasks, other)
  {
  }
}
