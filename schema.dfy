/**
 * The relational store the repositories share: the task, user and session tables, with the
 * identity counters that hand out new ids. Dates are instants as integers; a nullable column
 * is an `Option`.
 */
module Schema {
  import opened Wrappers
  import opened Tables

  /** The `task_status` enum of the database. */
  datatype TaskStatus = Pending | InProgress | Completed

  /** A row of `t_tasks`. */
  datatype TaskRow = TaskRow(
    id: int,
    title: string,
    description: Option<string>,
    status: TaskStatus,
    priority: Option<int>,
    dueDate: Option<int>,
    createdAt: int,
    updatedAt: int,
    createdBy: Option<int>,
    assignedTo: Option<int>)

  /** A row of `t_users`; `role` is the text of the `user_role` enum ("admin" or "user"). */
  datatype UserRow = UserRow(
    id: int,
    username: string,
    email: string,
    passwordHash: string,
    role: string,
    firstName: Option<string>,
    lastName: Option<string>,
    profilePicture: Option<string>,
    createdAt: int,
    updatedAt: int,
    lastLogin: Option<int>,
    isActive: bool)

  /** A row of `t_user_sessions`. */
  datatype SessionRow = SessionRow(id: int, userId: int)

  class Database {
    var tasks: seq<TaskRow>
    var users: seq<UserRow>
    var sessions: seq<SessionRow>
    var nextTaskId: int
    var nextUserId: int

    /** The identity columns hand out ids above every stored one. */
    predicate Valid()
      reads this
    {
      TaskIdsBelow(tasks, nextTaskId) && UserIdsBelow(users, nextUserId)
    }

    constructor ()
      ensures tasks == [] && users == [] && sessions == []
      ensures nextTaskId == 1 && nextUserId == 1
      ensures Valid()
    {
      tasks, users, sessions := [], [], [];
      nextTaskId, nextUserId := 1, 1;
    }
  }

  predicate TaskIdsBelow(tasks: seq<TaskRow>, bound: int)
  {
    forall i :: 0 <= i < |tasks| ==> tasks[i].id < bound
  }

  predicate UserIdsBelow(users: seq<UserRow>, bound: int)
  {
    forall i :: 0 <= i < |users| ==> users[i].id < bound
  }

  /** A `DELETE` keeps every remaining task id below the identity sequence. */
  lemma TaskIdsBelowWhere(tasks: seq<TaskRow>, p: TaskRow -> bool, bound: int)
    requires TaskIdsBelow(tasks, bound)
    ensures TaskIdsBelow(Where(tasks, p), bound)
  {
    WhereAll(tasks, p);
    var r := Where(tasks, p);
    forall i | 0 <= i < |r| ensures r[i].id < bound {
      assert r[i] in r;
    }
  }

  /** A `DELETE` keeps every remaining user id below the identity sequence. */
  lemma UserIdsBelowWhere(users: seq<UserRow>, p: UserRow -> bool, bound: int)
    requires UserIdsBelow(users, bound)
    ensures UserIdsBelow(Where(users, p), bound)
  {
    WhereAll(users, p);
    var r := Where(users, p);
    forall i | 0 <= i < |r| ensures r[i].id < bound {
      assert r[i] in r;
    }
  }

  /** An `UPDATE` that does not set the id keeps every task id below the sequence. */
  lemma TaskIdsBelowUpdate(tasks: seq<TaskRow>, p: TaskRow -> bool, f: TaskRow -> TaskRow, bound: int)
    requires TaskIdsBelow(tasks, bound)
    requires forall t :: f(t).id == t.id
    ensures TaskIdsBelow(UpdateWhere(tasks, p, f), bound)
  {
  }

  /** An `UPDATE` that does not set the id keeps every user id below the sequence. */
  lemma UserIdsBelowUpdate(users: seq<UserRow>, p: UserRow -> bool, f: UserRow -> UserRow, bound: int)
    requires UserIdsBelow(users, bound)
    requires forall u :: f(u).id == u.id
    ensures UserIdsBelow(UpdateWhere(users, p, f), bound)
  {
  }

  function TaskIdIs(id: int): TaskRow -> bool
  {
    (t: TaskRow) => t.id == id
  }

  function TaskIdIsNot(id: int): TaskRow -> bool
  {
    (t: TaskRow) => t.id != id
  }

  function UserIdIs(id: int): UserRow -> bool
  {
    (u: UserRow) => u.id == id
  }

  function UserIdIsNot(id: int): UserRow -> bool
  {
    (u: UserRow) => u.id != id
  }

  predicate HasTask(tasks: seq<TaskRow>, id: int)
  {
    exists i :: 0 <= i < |tasks| && tasks[i].id == id
  }

  predicate HasUser(users: seq<UserRow>, id: int)
  {
    exists i :: 0 <= i < |users| && users[i].id == id
  }

  /** `DELETE FROM t_tasks WHERE c_task_id = id`. */
  function RemoveTask(tasks: seq<TaskRow>, id: int): seq<TaskRow>
  {
    Where(tasks, TaskIdIsNot(id))
  }

  /**
   * The delete removes exactly the rows with that id, keeps the others in order, and affects
   * at least one row exactly when the table held the id.
   */
  lemma RemoveTaskFacts(tasks: seq<TaskRow>, id: int)
    ensures forall t :: t in RemoveTask(tasks, id) <==> t in tasks && t.id != id
    ensures |RemoveTask(tasks, id)| < |tasks| <==> HasTask(tasks, id)
    ensures !HasTask(RemoveTask(tasks, id), id)
  {
    WhereAll(tasks, TaskIdIsNot(id));
    WhereDrops(tasks, TaskIdIsNot(id));
    var r := RemoveTask(tasks, id);
    forall i | 0 <= i < |r| ensures r[i].id != id {
      assert r[i] in r;
    }
  }

  /** A freshly numbered row is the one the table finds under its id. */
  lemma AppendedIsFirst(tasks: seq<TaskRow>, row: TaskRow)
    requires forall i :: 0 <= i < |tasks| ==> tasks[i].id < row.id
    ensures First(tasks + [row], TaskIdIs(row.id)) == Some(row)
  {
    var s := tasks + [row];
    var r := First(s, TaskIdIs(row.id));
    assert s[|tasks|].id == row.id;
    var k :| 0 <= k < |s| && s[k] == r.value && TaskIdIs(row.id)(s[k]);
  }
}
