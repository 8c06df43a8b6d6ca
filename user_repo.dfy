/** The task repository of the user area (Repositories/Implementation/UserRepo/UserRepo.cs). */
module UserRepo {
  import opened Wrappers
  import opened Tables
  import opened Schema
  import opened TaskPolicy

  function AssignedToUser(id: int): TaskRow -> bool
  {
    (t: TaskRow) => t.assignedTo == Some(id)
  }

  /** The assignee filter selects exactly the stored tasks assigned to the user. */
  lemma AssignedToExactly(tasks: seq<TaskRow>, id: int)
    ensures forall t :: t in Where(tasks, AssignedToUser(id)) <==> t in tasks && t.assignedTo == Some(id)
  {
    WhereAll(tasks, AssignedToUser(id));
  }

  class UserRepo {
    const db: Database

    constructor (db: Database)
      ensures this.db == db
    {
      this.db := db;
    }

    /** The tasks assigned to user `id`, in table order; a row with a NULL column throws. */
    method GetAllTasks(id: int) returns (r: Outcome<seq<TaskRow>>)
      ensures var rows := Where(db.tasks, AssignedToUser(id));
        && (r.Returned? <==> Readable(rows))
        && (r.Returned? ==> r.value == rows)
        && (r.Threw? ==> r == Threw(NullColumn))
    {
      r := ReadTaskList(Where(db.tasks, AssignedToUser(id)));
    }

    /** Inserts the task with the table's defaults and returns the stored row. */
    method AddTask(task: TaskRow, now: int) returns (r: Option<TaskRow>)
      modifies db
      ensures r == Some(NewTask(task, old(db.nextTaskId), now))
      ensures db.tasks == old(db.tasks) + [r.value]
      ensures db.nextTaskId == old(db.nextTaskId) + 1
      ensures db.users == old(db.users) && db.sessions == old(db.sessions) && db.nextUserId == old(db.nextUserId)
      ensures old(db.Valid()) ==> db.Valid() && First(db.tasks, TaskIdIs(r.value.id)) == r
    {
      var row := InsertTask(db, task, now);
      r := Some(row);
    }

    /** Refuses admin-created tasks; otherwise deletes by id and reports whether a row went. */
    method DeleteTask(taskId: int) returns (ok: bool)
      modifies db
      ensures AdminCreated(old(db.tasks), old(db.users), taskId) ==> !ok && db.tasks == old(db.tasks)
      ensures !AdminCreated(old(db.tasks), old(db.users), taskId) ==>
                db.tasks == RemoveTask(old(db.tasks), taskId) && (ok <==> HasTask(old(db.tasks), taskId))
      ensures db.users == old(db.users) && db.sessions == old(db.sessions)
      ensures db.nextTaskId == old(db.nextTaskId) && db.nextUserId == old(db.nextUserId)
      ensures old(db.Valid()) ==> db.Valid()
    {
      ok := DeleteUnlessAdminCreated(db, taskId);
    }

    /**
     * The role-dependent update. The admin branch also logs the returned row's assignee and
     * creator with non-null getters, so a revised admin-created task without an assignee throws
     * after the update has been written.
     */
    method UpdateTask(task: TaskRow, now: int) returns (r: Outcome<Option<TaskRow>>)
      modifies db
      ensures var role := CreatorRoleOf(old(db.tasks), old(db.users), task.id);
        && (role.NoTask? ==> r == Returned(None) && db.tasks == old(db.tasks))
        && (role.NullRole? ==> r == Threw(NullColumn) && db.tasks == old(db.tasks))
        && (role.Role? ==>
              var admin := IsAdminRole(role.name);
              var row := Revised(First(old(db.tasks), TaskIdIs(task.id)).value, task, now, admin);
              && db.tasks == ReviseRows(old(db.tasks), task.id, task, now, admin)
              && r == if admin && (row.assignedTo.None? || row.createdBy.None?) then Threw(NullColumn)
                      else Returned(Some(row)))
      ensures db.users == old(db.users) && db.sessions == old(db.sessions)
      ensures db.nextTaskId == old(db.nextTaskId) && db.nextUserId == old(db.nextUserId)
      ensures old(db.Valid()) ==> db.Valid()
    {
      var admin := AdminCreated(db.tasks, db.users, task.id);
      r := UpdateByCreatorRole(db, task, now);
      if admin && r.Returned? && r.value.Some? {
        var row := r.value.value;
        if row.assignedTo.None? || row.createdBy.None? {
          r := Threw(NullColumn);
        }
      }
    }
  }
}
