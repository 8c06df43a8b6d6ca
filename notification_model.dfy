/** The notification record and its type enum (Repositories/Model/AdminModels/NotificationModel.cs). */
module NotificationModel {
  import opened Wrappers

  /**
   * The integers no declared member stands for: the members are numbered 0 to 4 in
   * declaration order.
   */
  type UndeclaredCode = code: int | code < 0 || 4 < code witness -1

  /**
   * The `NotificationType` enum. A C# enum variable can hold any integer of its underlying
   * type, so besides the five declared members (codes 0 to 4) the model keeps
   * `Undeclared(code)` for any other integer.
   */
  datatype NotificationType =
    | TaskCreated
    | TaskUpdated
    | TaskDeleted
    | UserRegistered
    | MessageReceived
    | Undeclared(code: UndeclaredCode)

  /** The five declared members of the enum. */
  const DeclaredTypes: set<NotificationType> :=
    {TaskCreated, TaskUpdated, TaskDeleted, UserRegistered, MessageReceived}

  lemma DeclaredTypesAreFive()
    ensures |DeclaredTypes| == 5
    ensures forall t :: t in DeclaredTypes <==> !t.Undeclared?
  {
    assert DeclaredTypes == {TaskCreated} + {TaskUpdated} + {TaskDeleted} + {UserRegistered} + {MessageReceived};
  }

  /**
   * A row of `t_notifications` / a `NotificationModel`: `userId` is `c_user_id` (who triggered
   * the event), `relatedUserId` is `c_related_user_id` (whom it is for), timestamps are ticks.
   */
  datatype Notification = Notification(
    id: int,
    ntype: NotificationType,
    userId: int,
    relatedUserId: int,
    taskId: Option<int>,
    message: string,
    isRead: bool,
    createdAt: int)

  /** The `TypeIcon` display property: a Font Awesome class name per type. */
  function TypeIcon(t: NotificationType): (icon: string)
    ensures icon == "fa-bell" <==> t.Undeclared?
  {
    match t
    case TaskCreated => "fa-plus-circle"
    case TaskUpdated => "fa-edit"
    case TaskDeleted => "fa-trash"
    case UserRegistered => "fa-user-plus"
    case MessageReceived => "fa-envelope"
    case Undeclared(_) => "fa-bell"
  }

  /** Distinct declared types get distinct icons, so the icon identifies the type. */
  lemma TypeIconInjective(a: NotificationType, b: NotificationType)
    requires a in DeclaredTypes && b in DeclaredTypes
    requires TypeIcon(a) == TypeIcon(b)
    ensures a == b
  {
    DeclaredTypesAreFive();
  }
}
