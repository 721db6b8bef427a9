/** TaskController as the Java class is: it reads, saves and deletes
    rows of the task table, and the current user's id comes in as a parameter.
    Each method's contract ties the table it leaves behind to module Tasks. */
module TaskControl {
  import opened Outcomes
  import opened Tasks

  class TaskController {
    /** The task table behind the repository. */
    var tasks: TaskTable
    /** The next value of the table's identity column. */
    var nextId: int

    predicate Valid()
      reads this
    {
      Tasks.Valid(tasks, nextId)
    }

    constructor ()
      ensures Valid() && tasks == map[]
    {
      tasks := map[];
      nextId := 1;
    }

    /** ownedTaskOrThrow: look the id up, then compare the owner with the current user. */
    method OwnedTaskOrThrow(id: int, currentUser: int) returns (r: Result<Task, TaskError>)
      ensures r == OwnedTask(tasks, id, currentUser)
      ensures r.Ok? ==> id in tasks && r.value == tasks[id] && r.value.owner == currentUser
      ensures r.Err? ==> r == Err(TaskNotFound(id))
    {
      if id !in tasks {
        return Err(TaskNotFound(id));
      }
      var task := tasks[id];
      if task.owner != currentUser {
        return Err(TaskNotFound(id));
      }
      return Ok(task);
    }

    /** showHomePage: the tasks listed on the page. */
    method ShowHomePage(currentUser: int) returns (listed: set<Task>)
      ensures listed == TasksOf(tasks, currentUser)
      ensures forall t :: t in listed ==> t.owner == currentUser
    {
      listed := TasksOf(tasks, currentUser);
    }

    /** add: build a task that is not done and owned by the current user, and save it. */
    method Add(title: string, currentUser: int)
      requires Valid()
      modifies this
      ensures Valid()
      ensures tasks == AddTask(old(tasks), old(nextId), title, currentUser)
      ensures nextId == old(nextId) + 1
    {
      var task := Task(nextId, title, false, currentUser);
      tasks := tasks[task.id := task];
      nextId := nextId + 1;
    }

    /** update: flip the status of an owned task and save it. */
    method Update(id: int, currentUser: int) returns (r: Outcome<TaskError>)
      requires Valid()
      modifies this`tasks
      ensures Valid()
      ensures match Toggle(old(tasks), id, currentUser)
              case Ok(next) => r == Pass && tasks == next
              case Err(e) => r == Fail(e) && tasks == old(tasks)
    {
      var found := OwnedTaskOrThrow(id, currentUser);
      if found.Err? {
        return Fail(found.error);
      }
      var task := found.value;
      task := task.(status := !task.status);
      tasks := tasks[task.id := task];
      r := Pass;
    }

    /** delete: remove an owned task. */
    method Delete(id: int, currentUser: int) returns (r: Outcome<TaskError>)
      requires Valid()
      modifies this`tasks
      ensures Valid()
      ensures match Tasks.Delete(old(tasks), id, currentUser)
              case Ok(next) => r == Pass && tasks == next
              case Err(e) => r == Fail(e) && tasks == old(tasks)
    {
      var found := OwnedTaskOrThrow(id, currentUser);
      if found.Err? {
        return Fail(found.error);
      }
      tasks := tasks - {found.value.id};
      r := Pass;
    }
  }

  /** Two users sharing the controller: neither can touch the other's task, and
      a toggle undone by a second toggle leaves the table as it was. */
  method TwoUsers(controller: TaskController, ann: int, bob: int)
    requires controller.Valid() && controller.tasks == map[]
    requires ann != bob
    modifies controller
  {
    var id := controller.nextId;
    controller.Add("buy milk", ann);
    var listed := controller.ShowHomePage(ann);
    assert Task(id, "buy milk", false, ann) in listed;
    var byBob := controller.Update(id, bob);
    assert byBob == Fail(TaskNotFound(id));
    var before := controller.tasks;
    var first := controller.Update(id, ann);
    assert controller.tasks[id].status;
    var second := controller.Update(id, ann);
    assert first == Pass && second == Pass;
    ToggleTwice(before, id, ann);
    assert controller.tasks == before;
    var removed := controller.Delete(id, bob);
    assert removed == Fail(TaskNotFound(id)) && controller.tasks == before;
    removed := controller.Delete(id, ann);
    assert removed == Pass && id !in controller.tasks;
  }
}
