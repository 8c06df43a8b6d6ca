/** The task repository of the API (Repositories/Implementation/TaskRepository.cs). */
module TaskRepository {
  import opened Wrappers
  import opened Tables
  import opened Schema
  import opened TaskPolicy

  function CreatedAtOf(t: TaskRow): int { t.createdAt }

  function AssignedToTwo(t: TaskRow): bool { t.assignedTo == Some(2) }

  /** The list query: the tasks assigned to user 2, newest creation first. */
  function TaskList(tasks: seq<TaskRow>): seq<TaskRow>
  {
    SortDesc(Where(tasks, AssignedToTwo), CreatedAtOf)
  }

  /**
   * The list holds exactly the stored tasks assigned to user 2, each as often as stored, with
   * creation times never increasing.
   */
  lemma TaskListFacts(tasks: seq<TaskRow>)
    ensures multiset(TaskList(tasks)) == multiset(Where(tasks, AssignedToTwo))
    ensures forall t :: t in TaskList(tasks) <==> t in tasks && t.assignedTo == Some(2)
    ensures SortedDesc(TaskList(tasks), CreatedAtOf)
  {
    var w := Where(tasks, AssignedToTwo);
    SortDescFacts(w, CreatedAtOf);
    WhereAll(tasks, AssignedToTwo);
    forall t ensures t in TaskList(tasks) <==> t in w {
      assert t in TaskList(tasks) <==> t in multiset(TaskList(tasks));
      assert t in w <==> t in multiset(w);
    }
  }

  class TaskRepository {
    const db: Database

    constructor (db: Database)
      ensures this.db == db
    {
      this.db := db;
    }

    /** The list query read row by row; a row with a NULL column throws. */
    method GetAllTasks() returns (r: Outcome<seq<TaskRow>>)
      ensures var rows := TaskList(db.tasks);
        && (r.Returned? <==> Readable(rows))
        && (r.Returned? ==> r.value == rows)
        && (r.Threw? ==> r == Threw(NullColumn))
    {
      r := ReadTaskList(TaskList(db.tasks));
    }

    /** Inserts the task with the table's defaults and returns the stored row. */
    method AddTask(task: TaskRow, now: int) returns (r: Option<TaskRow>)
      modifies db
      ensures r == Some(NewTask(task, old(db.nextTaskId), now))
      ensures db.tasks == old(db.tasks) + [r.value]
      ensures db.nextTaskId == old(db.nextTaskId) + 1
      ensures db.users == old(db.users) && db.sessions == old(db.sessions) && db.nextUserId == old(db.nextUserId)
      ensures old(db.Valid()) ==> db.Valid() && First(db.tasks, TaskIdIs(r.value.id)) == r
    {
      var row := InsertTask(db, task, now);
      r := Some(row);
    }

    /** Refuses admin-created tasks; otherwise deletes by id and reports whether a row went. */
    method DeleteTask(taskId: int) returns (ok: bool)
      modifies db
      ensures AdminCreated(old(db.tasks), old(db.users), taskId) ==> !ok && db.tasks == old(db.tasks)
      ensures !AdminCreated(old(db.tasks), old(db.users), taskId) ==>
                db.tasks == RemoveTask(old(db.tasks), taskId) && (ok <==> HasTask(old(db.tasks), taskId))
      ensures db.users == old(db.users) && db.sessions == old(db.sessions)
      ensures db.nextTaskId == old(db.nextTaskId) && db.nextUserId == old(db.nextUserId)
      ensures old(db.Valid()) ==> db.Valid()
    {
      ok := DeleteUnlessAdminCreated(db, taskId);
    }

    /** The role-dependent update; null when the task is absent. */
    method UpdateTask(task: TaskRow, now: int) returns (r: Outcome<Option<TaskRow>>)
      modifies db
      ensures var role := CreatorRoleOf(old(db.tasks), old(db.users), task.id);
        && (role.NoTask? ==> r == Returned(None) && db.tasks == old(db.tasks))
        && (role.NullRole? ==> r == Threw(NullColumn) && db.tasks == old(db.tasks))
        && (role.Role? ==>
              db.tasks == ReviseRows(old(db.tasks), task.id, task, now, IsAdminRole(role.name))
              && r == Returned(Some(Revised(First(old(db.tasks), TaskIdIs(task.id)).value, task, now, IsAdminRole(role.name)))))
      ensures db.users == old(db.users) && db.sessions == old(db.sessions)
      ensures db.nextTaskId == old(db.nextTaskId) && db.nextUserId == old(db.nextUserId)
      ensures old(db.Valid()) ==> db.Valid()
    {
      r := UpdateByCreatorRole(db, task, now);
    }
  }
}
