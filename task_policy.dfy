/**
 * The task access rule shared by the two task repositories
 * (Repositories/Implementation/UserRepo/UserRepo.cs and Repositories/Implementation/TaskRepository.cs):
 * a task whose creator has the admin role can never be deleted and can only have its status
 * changed; any other task is fully editable. Both repositories run the same statements on
 * `t_tasks`, so the statements are modelled once here and called from both.
 */
module TaskPolicy {
  import opened Wrappers
  import opened Tables
  import opened Text
  import opened Schema

  /** `creatorRole.ToLower() == "admin"`. */
  predicate IsAdminRole(role: string)
  {
    Lower(role) == "admin"
  }

  /**
   * The first row of the role lookup: no row when the task is absent, a NULL role when the
   * task has no creator or its creator is not a user, otherwise the creator's role.
   */
  datatype CreatorRole = NoTask | NullRole | Role(name: string)

  function CreatorRoleOf(tasks: seq<TaskRow>, users: seq<UserRow>, id: int): (r: CreatorRole)
    ensures r.NoTask? <==> !HasTask(tasks, id)
    ensures r.Role? ==> exists i, j :: 0 <= i < |tasks| && 0 <= j < |users| && tasks[i].id == id
                                      && tasks[i].createdBy == Some(users[j].id) && users[j].role == r.name
  {
    match First(tasks, TaskIdIs(id))
    case None => NoTask
    case Some(t) =>
      if t.createdBy.None? then NullRole
      else
        match First(users, UserIdIs(t.createdBy.value))
        case None => NullRole
        case Some(u) => Role(u.role)
  }

  /** The task was created by a user whose role reads "admin" in any letter case. */
  predicate AdminCreated(tasks: seq<TaskRow>, users: seq<UserRow>, id: int)
  {
    var r := CreatorRoleOf(tasks, users, id);
    r.Role? && IsAdminRole(r.name)
  }

  // ---------------------------------------------------------------- which fields an update may change

  /** The columns of `t_tasks` besides the id. */
  datatype Field = Title | Description | Status | Priority | DueDate | CreatedAt | UpdatedAt | CreatedBy | AssignedTo

  /** Rows `a` and `b` hold the same value in column `f`. */
  predicate Agrees(a: TaskRow, b: TaskRow, f: Field)
  {
    match f
    case Title => a.title == b.title
    case Description => a.description == b.description
    case Status => a.status == b.status
    case Priority => a.priority == b.priority
    case DueDate => a.dueDate == b.dueDate
    case CreatedAt => a.createdAt == b.createdAt
    case UpdatedAt => a.updatedAt == b.updatedAt
    case CreatedBy => a.createdBy == b.createdBy
    case AssignedTo => a.assignedTo == b.assignedTo
  }

  /** The columns an update takes from the caller: the status alone on an admin-created task. */
  function Editable(adminCreated: bool): set<Field>
  {
    if adminCreated then {Status} else {Title, Description, Status, Priority, DueDate, AssignedTo}
  }

  /** The row an update leaves: the admin branch sets the status, the other branch all six fields. */
  function Revised(row: TaskRow, edit: TaskRow, now: int, adminCreated: bool): TaskRow
  {
    if adminCreated then row.(status := edit.status, updatedAt := now)
    else row.(title := edit.title, description := edit.description, status := edit.status,
              priority := edit.priority, dueDate := edit.dueDate, assignedTo := edit.assignedTo,
              updatedAt := now)
  }

  /**
   * An update takes exactly the editable columns from the caller, stamps the update time and
   * keeps every other column, the id, the creator and the creation time included.
   */
  lemma RevisedFollowsPolicy(row: TaskRow, edit: TaskRow, now: int, adminCreated: bool)
    ensures Revised(row, edit, now, adminCreated).id == row.id
    ensures Revised(row, edit, now, adminCreated).updatedAt == now
    ensures forall f :: f in Editable(adminCreated) ==> Agrees(Revised(row, edit, now, adminCreated), edit, f)
    ensures forall f :: f !in Editable(adminCreated) && f != UpdatedAt ==> Agrees(Revised(row, edit, now, adminCreated), row, f)
  {
    var r := Revised(row, edit, now, adminCreated);
    forall f | f !in Editable(adminCreated) && f != UpdatedAt ensures Agrees(r, row, f) {
      if !adminCreated {
        assert f == CreatedAt || f == CreatedBy;
      }
    }
  }

  function Reviser(edit: TaskRow, now: int, adminCreated: bool): TaskRow -> TaskRow
  {
    (t: TaskRow) => Revised(t, edit, now, adminCreated)
  }

  /** `UPDATE t_tasks SET ... WHERE c_task_id = id`: every row with the id is revised. */
  function ReviseRows(tasks: seq<TaskRow>, id: int, edit: TaskRow, now: int, adminCreated: bool): seq<TaskRow>
  {
    UpdateWhere(tasks, TaskIdIs(id), Reviser(edit, now, adminCreated))
  }

  /** The update never sets the id, so the ids stay below the identity sequence. */
  lemma ReviseRowsKeepsIdsBelow(tasks: seq<TaskRow>, id: int, edit: TaskRow, now: int, adminCreated: bool, bound: int)
    requires TaskIdsBelow(tasks, bound)
    ensures TaskIdsBelow(ReviseRows(tasks, id, edit, now, adminCreated), bound)
  {
    TaskIdsBelowUpdate(tasks, TaskIdIs(id), Reviser(edit, now, adminCreated), bound);
  }

  /**
   * The update leaves rows with other ids alone, and the row it returns is the first row with
   * the id, revised.
   */
  lemma ReviseRowsFacts(tasks: seq<TaskRow>, id: int, edit: TaskRow, now: int, adminCreated: bool)
    requires HasTask(tasks, id)
    ensures var r := ReviseRows(tasks, id, edit, now, adminCreated);
      |r| == |tasks| && forall i :: 0 <= i < |tasks| && tasks[i].id != id ==> r[i] == tasks[i]
    ensures First(ReviseRows(tasks, id, edit, now, adminCreated), TaskIdIs(id))
         == Some(Revised(First(tasks, TaskIdIs(id)).value, edit, now, adminCreated))
  {
    UpdateWhereFirst(tasks, TaskIdIs(id), Reviser(edit, now, adminCreated));
  }

  // ---------------------------------------------------------------- the shared statements

  /**
   * The task list readers of both repositories read every nullable column with a non-null
   * getter, so a row with a NULL description, priority, due date, creator or assignee throws.
   */
  function AllColumnsSet(t: TaskRow): bool
  {
    t.description.Some? && t.priority.Some? && t.dueDate.Some? && t.createdBy.Some? && t.assignedTo.Some?
  }

  /** Every row of a result set can be read by the strict reader. */
  predicate Readable(rows: seq<TaskRow>)
  {
    forall i :: 0 <= i < |rows| ==> AllColumnsSet(rows[i])
  }

  /** The reader loop of a task list whose exception reaches the caller. */
  method ReadTaskList(rows: seq<TaskRow>) returns (r: Outcome<seq<TaskRow>>)
    ensures r.Returned? <==> Readable(rows)
    ensures r.Returned? ==> r.value == rows
    ensures r.Threw? ==> r == Threw(NullColumn)
  {
    var read, complete := ReadRows(rows, AllColumnsSet);
    ReadPrefixComplete(rows, AllColumnsSet);
    if complete {
      return Returned(read);
    }
    return Threw(NullColumn);
  }

  /** The row `INSERT ... RETURNING *` yields: the caller's columns, a new id, both stamps `now`. */
  function NewTask(edit: TaskRow, id: int, now: int): TaskRow
  {
    edit.(id := id, createdAt := now, updatedAt := now)
  }

  /** The inserted row carries every column the caller supplied except the two timestamps. */
  lemma NewTaskKeepsFields(edit: TaskRow, id: int, now: int)
    ensures NewTask(edit, id, now).id == id
    ensures forall f :: f != CreatedAt && f != UpdatedAt ==> Agrees(NewTask(edit, id, now), edit, f)
    ensures NewTask(edit, id, now).createdAt == NewTask(edit, id, now).updatedAt == now
  {
  }

  /** `INSERT INTO t_tasks ... RETURNING *` with the creation defaults of the table. */
  method InsertTask(db: Database, edit: TaskRow, now: int) returns (row: TaskRow)
    modifies db
    ensures row == NewTask(edit, old(db.nextTaskId), now)
    ensures db.tasks == old(db.tasks) + [row]
    ensures db.nextTaskId == old(db.nextTaskId) + 1
    ensures db.users == old(db.users) && db.sessions == old(db.sessions) && db.nextUserId == old(db.nextUserId)
    ensures old(db.Valid()) ==> db.Valid() && First(db.tasks, TaskIdIs(row.id)) == Some(row)
  {
    row := NewTask(edit, db.nextTaskId, now);
    if db.Valid() {
      AppendedIsFirst(db.tasks, row);
    }
    db.tasks := db.tasks + [row];
    db.nextTaskId := db.nextTaskId + 1;
  }

  /**
   * The role check then the delete: an admin-created task is refused with nothing deleted;
   * otherwise every row with the id goes and the answer is whether any did.
   */
  method DeleteUnlessAdminCreated(db: Database, id: int) returns (deleted: bool)
    modifies db
    ensures AdminCreated(old(db.tasks), old(db.users), id) ==> !deleted && db.tasks == old(db.tasks)
    ensures !AdminCreated(old(db.tasks), old(db.users), id) ==>
              db.tasks == RemoveTask(old(db.tasks), id) && (deleted <==> HasTask(old(db.tasks), id))
    ensures db.users == old(db.users) && db.sessions == old(db.sessions)
    ensures db.nextTaskId == old(db.nextTaskId) && db.nextUserId == old(db.nextUserId)
    ensures old(db.Valid()) ==> db.Valid()
  {
    var role := CreatorRoleOf(db.tasks, db.users, id);
    if role.Role? && IsAdminRole(role.name) {
      return false;
    }
    RemoveTaskFacts(db.tasks, id);
    if db.Valid() {
      TaskIdsBelowWhere(db.tasks, TaskIdIsNot(id), db.nextTaskId);
    }
    var before := |db.tasks|;
    db.tasks := RemoveTask(db.tasks, id);
    deleted := before - |db.tasks| > 0;
  }

  /** What reading a NULL column as a string throws. */
  const NullColumn: string := "Column is null"

  /**
   * The role lookup, then the update the role allows, then the first returned row. An absent
   * task gives null; a NULL role throws when it is read, before anything is written.
   */
  method UpdateByCreatorRole(db: Database, edit: TaskRow, now: int) returns (r: Outcome<Option<TaskRow>>)
    modifies db
    ensures var role := CreatorRoleOf(old(db.tasks), old(db.users), edit.id);
      && (role.NoTask? ==> r == Returned(None) && db.tasks == old(db.tasks))
      && (role.NullRole? ==> r == Threw(NullColumn) && db.tasks == old(db.tasks))
      && (role.Role? ==>
            db.tasks == ReviseRows(old(db.tasks), edit.id, edit, now, IsAdminRole(role.name))
            && r == Returned(Some(Revised(First(old(db.tasks), TaskIdIs(edit.id)).value, edit, now, IsAdminRole(role.name)))))
    ensures db.users == old(db.users) && db.sessions == old(db.sessions)
    ensures db.nextTaskId == old(db.nextTaskId) && db.nextUserId == old(db.nextUserId)
    ensures old(db.Valid()) ==> db.Valid()
  {
    var role := CreatorRoleOf(db.tasks, db.users, edit.id);
    match role
    case NoTask =>
      return Returned(None);
    case NullRole =>
      return Threw(NullColumn);
    case Role(name) =>
      ReviseRowsFacts(db.tasks, edit.id, edit, now, IsAdminRole(name));
      if db.Valid() {
        ReviseRowsKeepsIdsBelow(db.tasks, edit.id, edit, now, IsAdminRole(name), db.nextTaskId);
      }
      db.tasks := ReviseRows(db.tasks, edit.id, edit, now, IsAdminRole(name));
      r := Returned(First(db.tasks, TaskIdIs(edit.id)));
  }
}
