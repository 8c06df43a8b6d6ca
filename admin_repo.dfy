/**
 * The admin data access (Repositories/Implementation/AdminRepo/AdminRepo.cs). Each operation
 * catches its own exceptions: the list readers return the rows read so far, the writers a
 * sentinel. `dbFault` stands for a failing connection or statement.
 */
module AdminRepo {
  import opened Wrappers
  import opened Tables
  import opened Schema
  import opened TaskPolicy

  /** `c_role = 'user'`. */
  function IsPlainUser(u: UserRow): bool { u.role == "user" }

  /** The user reader reads both names with a non-null getter. */
  function NamesSet(u: UserRow): bool { u.firstName.Some? && u.lastName.Some? }

  /** The task readers of this repository read the description with a non-null getter. */
  function DescriptionSet(t: TaskRow): bool { t.description.Some? }

  function CreatedByUser(userId: int): TaskRow -> bool
  {
    (t: TaskRow) => t.createdBy == Some(userId)
  }

  function CreatedByAndAssignedTo(createdBy: int, assignedTo: int): TaskRow -> bool
  {
    (t: TaskRow) => t.createdBy == Some(createdBy) && t.assignedTo == Some(assignedTo)
  }

  /** Listed users have the plain user role; all of them are listed when all have both names. */
  lemma UserListFacts(users: seq<UserRow>)
    ensures forall u :: u in ReadPrefix(Where(users, IsPlainUser), NamesSet) ==> u in users && u.role == "user"
    ensures (forall u :: u in users && u.role == "user" ==> NamesSet(u)) ==>
              ReadPrefix(Where(users, IsPlainUser), NamesSet) == Where(users, IsPlainUser)
  {
    ReadPrefixOfWhere(users, IsPlainUser, NamesSet);
  }

  /** Listed tasks were created by the user; all of them are listed when all have a description. */
  lemma CreatorListFacts(tasks: seq<TaskRow>, userId: int)
    ensures forall t :: t in ReadPrefix(Where(tasks, CreatedByUser(userId)), DescriptionSet) ==>
              t in tasks && t.createdBy == Some(userId)
    ensures (forall t :: t in tasks && t.createdBy == Some(userId) ==> t.description.Some?) ==>
              ReadPrefix(Where(tasks, CreatedByUser(userId)), DescriptionSet) == Where(tasks, CreatedByUser(userId))
  {
    ReadPrefixOfWhere(tasks, CreatedByUser(userId), DescriptionSet);
  }

  /** Listed tasks match both ids; all matching tasks are listed when all have a description. */
  lemma PairListFacts(tasks: seq<TaskRow>, createdBy: int, assignedTo: int)
    ensures forall t :: t in ReadPrefix(Where(tasks, CreatedByAndAssignedTo(createdBy, assignedTo)), DescriptionSet) ==>
              t in tasks && t.createdBy == Some(createdBy) && t.assignedTo == Some(assignedTo)
    ensures (forall t :: t in tasks && t.createdBy == Some(createdBy) && t.assignedTo == Some(assignedTo) ==> t.description.Some?) ==>
              ReadPrefix(Where(tasks, CreatedByAndAssignedTo(createdBy, assignedTo)), DescriptionSet)
              == Where(tasks, CreatedByAndAssignedTo(createdBy, assignedTo))
  {
    ReadPrefixOfWhere(tasks, CreatedByAndAssignedTo(createdBy, assignedTo), DescriptionSet);
  }

  /** The row `AssignTask` inserts: the caller's columns, timestamps included, under a new id. */
  function AssignedRow(task: TaskRow, id: int): TaskRow
  {
    task.(id := id)
  }

  /** The delete result: the deleted row's creator, assignee and title. */
  type DeleteResult = (int, int, string)

  const NotFound: DeleteResult := (-1, -1, "Not Found")
  const Failed: DeleteResult := (-1, -1, "Error")

  class AdminRepo {
    const db: Database

    constructor (db: Database)
      ensures this.db == db
    {
      this.db := db;
    }

    /** The users with the plain user role, read until a row with a NULL name. */
    method GetAllUsers(dbFault: bool) returns (r: seq<UserRow>)
      ensures r == if dbFault then [] else ReadPrefix(Where(db.users, IsPlainUser), NamesSet)
    {
      if dbFault {
        return [];
      }
      var complete;
      r, complete := ReadRows(Where(db.users, IsPlainUser), NamesSet);
    }

    /** The tasks the user created, read until a row with a NULL description. */
    method GetTasksByUserId(userId: int, dbFault: bool) returns (r: seq<TaskRow>)
      ensures r == if dbFault then [] else ReadPrefix(Where(db.tasks, CreatedByUser(userId)), DescriptionSet)
    {
      if dbFault {
        return [];
      }
      var complete;
      r, complete := ReadRows(Where(db.tasks, CreatedByUser(userId)), DescriptionSet);
    }

    /** The tasks a creator assigned to an assignee, read until a row with a NULL description. */
    method GetTasksByCreatorAndAssignee(createdBy: int, assignedTo: int, dbFault: bool) returns (r: seq<TaskRow>)
      ensures r == if dbFault then []
                   else ReadPrefix(Where(db.tasks, CreatedByAndAssignedTo(createdBy, assignedTo)), DescriptionSet)
    {
      if dbFault {
        return [];
      }
      var complete;
      r, complete := ReadRows(Where(db.tasks, CreatedByAndAssignedTo(createdBy, assignedTo)), DescriptionSet);
    }

    /**
     * Inserts the task with the caller's timestamps and returns the new id; -1 when the
     * statement fails, which a NULL description (passed as a bare null) makes it do.
     */
    method AssignTask(task: TaskRow, dbFault: bool) returns (id: int)
      modifies db
      ensures dbFault || task.description.None? ==> id == -1 && db.tasks == old(db.tasks) && db.nextTaskId == old(db.nextTaskId)
      ensures !dbFault && task.description.Some? ==>
                && id == old(db.nextTaskId)
                && db.tasks == old(db.tasks) + [AssignedRow(task, id)]
                && db.nextTaskId == old(db.nextTaskId) + 1
                && (old(db.Valid()) ==> db.Valid() && First(db.tasks, TaskIdIs(id)) == Some(AssignedRow(task, id)))
      ensures db.users == old(db.users) && db.sessions == old(db.sessions) && db.nextUserId == old(db.nextUserId)
    {
      if dbFault || task.description.None? {
        return -1;
      }
      var row := AssignedRow(task, db.nextTaskId);
      if db.Valid() {
        AppendedIsFirst(db.tasks, row);
      }
      db.tasks := db.tasks + [row];
      db.nextTaskId := db.nextTaskId + 1;
      id := row.id;
    }

    /**
     * Deletes the task and returns the first deleted row's creator, assignee and title;
     * "Not Found" when no row matched. Reading a NULL creator or assignee throws after the
     * delete has happened, so the row is gone and the answer is "Error".
     */
    method DeleteTaskAsync(taskId: int, dbFault: bool) returns (r: DeleteResult)
      modifies db
      ensures dbFault ==> r == Failed && db.tasks == old(db.tasks)
      ensures !dbFault && !HasTask(old(db.tasks), taskId) ==> r == NotFound && db.tasks == old(db.tasks)
      ensures !dbFault && HasTask(old(db.tasks), taskId) ==>
                var t := First(old(db.tasks), TaskIdIs(taskId)).value;
                && db.tasks == RemoveTask(old(db.tasks), taskId)
                && r == if t.createdBy.Some? && t.assignedTo.Some? then (t.createdBy.value, t.assignedTo.value, t.title)
                        else Failed
      ensures db.users == old(db.users) && db.sessions == old(db.sessions)
      ensures db.nextTaskId == old(db.nextTaskId) && db.nextUserId == old(db.nextUserId)
      ensures old(db.Valid()) ==> db.Valid()
    {
      if dbFault {
        return Failed;
      }
      var deleted := First(db.tasks, TaskIdIs(taskId));
      RemoveTaskFacts(db.tasks, taskId);
      if db.Valid() {
        TaskIdsBelowWhere(db.tasks, TaskIdIsNot(taskId), db.nextTaskId);
      }
      if deleted.None? {
        return NotFound;
      }
      db.tasks := RemoveTask(db.tasks, taskId);
      var t := deleted.value;
      if t.createdBy.None? || t.assignedTo.None? {
        return Failed;
      }
      r := (t.createdBy.value, t.assignedTo.value, t.title);
    }

    /**
     * Overwrites every editable field with no role check, stamps the update time and returns
     * the task id. No matching row leaves a null scalar whose cast throws, so that case, a
     * NULL description and a failing statement all end in -1 with nothing written.
     */
    method UpdateTask(task: TaskRow, now: int, dbFault: bool) returns (id: int)
      modifies db
      ensures dbFault || task.description.None? || !HasTask(old(db.tasks), task.id) ==>
                id == -1 && db.tasks == old(db.tasks)
      ensures !dbFault && task.description.Some? && HasTask(old(db.tasks), task.id) ==>
                id == task.id && db.tasks == ReviseRows(old(db.tasks), task.id, task, now, false)
      ensures db.users == old(db.users) && db.sessions == old(db.sessions)
      ensures db.nextTaskId == old(db.nextTaskId) && db.nextUserId == old(db.nextUserId)
      ensures old(db.Valid()) ==> db.Valid()
    {
      if dbFault || task.description.None? || !HasTask(db.tasks, task.id) {
        return -1;
      }
      if db.Valid() {
        ReviseRowsKeepsIdsBelow(db.tasks, task.id, task, now, false, db.nextTaskId);
      }
      db.tasks := ReviseRows(db.tasks, task.id, task, now, false);
      id := task.id;
    }
  }
}
