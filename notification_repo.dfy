/**
 * The notification table `t_notifications` and its repository
 * (Repositories/Implementation/AdminRepo/NotificationRepo.cs). A database fault (connection,
 * SQL error) is the `dbFault` argument: the repository catches it and returns false, an empty
 * list or 0.
 */
module NotificationRepo {
  import opened Wrappers
  import opened Tables
  import opened NotificationModel

  /** WHERE c_user_id = u */
  function OwnedBy(u: int): Notification -> bool
  {
    (n: Notification) => n.userId == u
  }

  /** WHERE c_user_id = u AND c_is_read = false */
  function UnreadOf(u: int): Notification -> bool
  {
    (n: Notification) => n.userId == u && !n.isRead
  }

  function CreatedAtOf(n: Notification): int { n.createdAt }

  /** The stored type name parses back to a member of the enum (an unknown name throws). */
  function TypeParses(n: Notification): bool { !n.ntype.Undeclared? }

  /** SELECT COUNT(*) ... WHERE c_user_id = u AND c_is_read = false */
  function UnreadCount(rows: seq<Notification>, u: int): nat
  {
    |Where(rows, UnreadOf(u))|
  }

  predicate HasId(rows: seq<Notification>, id: int)
  {
    exists i :: 0 <= i < |rows| && rows[i].id == id
  }

  /** UPDATE ... SET c_is_read = true WHERE c_notification_id = id */
  function MarkIdRead(rows: seq<Notification>, id: int): (r: seq<Notification>)
    ensures |r| == |rows|
  {
    seq(|rows|, i requires 0 <= i < |rows| => if rows[i].id == id then rows[i].(isRead := true) else rows[i])
  }

  /** UPDATE ... SET c_is_read = true WHERE c_user_id = u AND c_is_read = false */
  function MarkAllRead(rows: seq<Notification>, u: int): (r: seq<Notification>)
    ensures |r| == |rows|
  {
    seq(|rows|, i requires 0 <= i < |rows| => if UnreadOf(u)(rows[i]) then rows[i].(isRead := true) else rows[i])
  }

  /**
   * SELECT ... WHERE c_user_id = u ORDER BY c_created_at DESC LIMIT limit. PostgreSQL rejects
   * a negative LIMIT; the repository catches that and returns its still-empty list.
   */
  function Listing(rows: seq<Notification>, u: int, limit: int): seq<Notification>
  {
    if limit < 0 then [] else Take(SortDesc(Where(rows, OwnedBy(u)), CreatedAtOf), limit)
  }

  class NotificationRepo {
    /** The rows of `t_notifications`, in storage order. */
    var rows: seq<Notification>

    constructor ()
      ensures rows == []
    {
      rows := [];
    }

    /**
     * INSERT one row. The type is written as its lower-case name cast to the database enum
     * `notification_type`, so a value outside the declared members fails the cast.
     */
    method CreateNotification(n: Notification, dbFault: bool) returns (ok: bool)
      modifies this
      ensures ok <==> !dbFault && !n.ntype.Undeclared?
      ensures rows == if ok then old(rows) + [n] else old(rows)
    {
      if dbFault || n.ntype.Undeclared? {
        return false;
      }
      rows := rows + [n];
      ok := true;
    }

    /**
     * Reads the rows of the listing query into a list, one reader row at a time. A row whose
     * type does not parse throws, and the catch returns the rows read before it.
     */
    method GetUserNotifications(userId: int, limit: int, dbFault: bool) returns (r: seq<Notification>)
      ensures r == if dbFault then [] else ReadPrefix(Listing(rows, userId, limit), TypeParses)
    {
      if dbFault || limit < 0 {
        return [];
      }
      var complete;
      r, complete := ReadRows(Listing(rows, userId, limit), TypeParses);
    }

    method MarkNotificationAsRead(notificationId: int, dbFault: bool) returns (ok: bool)
      modifies this
      ensures ok <==> !dbFault && HasId(old(rows), notificationId)
      ensures rows == if dbFault then old(rows) else MarkIdRead(old(rows), notificationId)
    {
      if dbFault {
        return false;
      }
      ok := HasId(rows, notificationId);
      rows := MarkIdRead(rows, notificationId);
    }

    /** Succeeds whether or not any row changed. */
    method MarkAllNotificationsAsRead(userId: int, dbFault: bool) returns (ok: bool)
      modifies this
      ensures ok == !dbFault
      ensures rows == if dbFault then old(rows) else MarkAllRead(old(rows), userId)
    {
      if dbFault {
        return false;
      }
      rows := MarkAllRead(rows, userId);
      ok := true;
    }

    method GetUnreadNotificationCount(userId: int, dbFault: bool) returns (count: int)
      ensures count == if dbFault then 0 else UnreadCount(rows, userId)
      ensures count >= 0
    {
      if dbFault {
        return 0;
      }
      count := UnreadCount(rows, userId);
    }
  }

  /** Every listed row belongs to the user, the listing is newest first and at most `limit` long. */
  lemma ListingFacts(rows: seq<Notification>, u: int, limit: int)
    ensures forall n :: n in Listing(rows, u, limit) ==> n in rows && n.userId == u
    ensures SortedDesc(Listing(rows, u, limit), CreatedAtOf)
    ensures |Listing(rows, u, limit)| == Min(if limit < 0 then 0 else limit, OwnedCount(rows, u))
  {
    var owned := Where(rows, OwnedBy(u));
    var sorted := SortDesc(owned, CreatedAtOf);
    SortDescFacts(owned, CreatedAtOf);
    WhereAll(rows, OwnedBy(u));
    if limit >= 0 {
      var listed := Take(sorted, limit);
      forall n | n in listed ensures n in rows && n.userId == u {
        var k :| 0 <= k < |listed| && listed[k] == n;
        assert sorted[k] == n;
        assert n in multiset(sorted);
      }
      forall i, j | 0 <= i < j < |listed| ensures listed[i].createdAt >= listed[j].createdAt {
        assert listed[i] == sorted[i] && listed[j] == sorted[j];
      }
    }
  }

  /**
   * When every stored type parses (as it does for rows inserted by `CreateNotification`), the
   * reader loop reads the whole listing.
   */
  lemma ListingFullyRead(rows: seq<Notification>, u: int, limit: int)
    requires forall i :: 0 <= i < |rows| ==> TypeParses(rows[i])
    ensures ReadPrefix(Listing(rows, u, limit), TypeParses) == Listing(rows, u, limit)
  {
    ListingFacts(rows, u, limit);
    ReadPrefixComplete(Listing(rows, u, limit), TypeParses);
  }

  /** The number of rows the user owns: what an unlimited listing would return. */
  function OwnedCount(rows: seq<Notification>, u: int): nat
  {
    |Where(rows, OwnedBy(u))|
  }

  /** Inserting a row raises its owner's unread count by one when it is unread, and no one else's. */
  lemma {:induction false} CreateCountsOnce(rows: seq<Notification>, n: Notification, u: int)
    ensures UnreadCount(rows + [n], u) == UnreadCount(rows, u) + (if n.userId == u && !n.isRead then 1 else 0)
  {
    assert (rows + [n])[..|rows + [n]| - 1] == rows;
  }

  /** After "mark all read" the user has no unread row left. */
  lemma MarkAllReadClearsUnread(rows: seq<Notification>, u: int)
    ensures UnreadCount(MarkAllRead(rows, u), u) == 0
  {
    WhereNone(MarkAllRead(rows, u), UnreadOf(u));
  }

  /** "Mark all read" changes no row of another user and only the read flag of the user's rows. */
  lemma MarkAllReadLeavesOthers(rows: seq<Notification>, u: int)
    ensures forall i :: 0 <= i < |rows| && rows[i].userId != u ==> MarkAllRead(rows, u)[i] == rows[i]
    ensures forall i :: 0 <= i < |rows| ==> MarkAllRead(rows, u)[i] == rows[i].(isRead := MarkAllRead(rows, u)[i].isRead)
  {
    forall i | 0 <= i < |rows| && rows[i].userId != u ensures MarkAllRead(rows, u)[i] == rows[i] {
      assert !UnreadOf(u)(rows[i]);
    }
  }

  /** Marking all read twice is marking all read once. */
  lemma MarkAllReadIdempotent(rows: seq<Notification>, u: int)
    ensures MarkAllRead(MarkAllRead(rows, u), u) == MarkAllRead(rows, u)
  {
  }

  /** Marking one notification read twice is marking it once, and never raises an unread count. */
  lemma {:induction false} MarkIdReadIdempotent(rows: seq<Notification>, id: int, u: int)
    ensures MarkIdRead(MarkIdRead(rows, id), id) == MarkIdRead(rows, id)
    ensures UnreadCount(MarkIdRead(rows, id), u) <= UnreadCount(rows, u)
  {
    MarkIdReadNotMore(rows, id, u);
  }

  lemma {:induction false} MarkIdReadNotMore(rows: seq<Notification>, id: int, u: int)
    ensures UnreadCount(MarkIdRead(rows, id), u) <= UnreadCount(rows, u)
  {
    if rows != [] {
      var init := rows[..|rows| - 1];
      MarkIdReadNotMore(init, id, u);
      assert MarkIdRead(rows, id)[..|rows| - 1] == MarkIdRead(init, id);
    }
  }

  // ---------------------------------------------------------------- keyed on the recipient

  /** WHERE c_related_user_id = u AND c_is_read = false: what user `u` received and has not read. */
  function ReceivedUnreadOf(u: int): Notification -> bool
  {
    (n: Notification) => n.relatedUserId == u && !n.isRead
  }

  /** The unread count keyed on the recipient column. */
  function ReceivedUnreadCount(rows: seq<Notification>, u: int): nat
  {
    |Where(rows, ReceivedUnreadOf(u))|
  }

  /** "Mark all read" keyed on the recipient column. */
  function MarkAllReceivedRead(rows: seq<Notification>, u: int): (r: seq<Notification>)
    ensures |r| == |rows|
  {
    seq(|rows|, i requires 0 <= i < |rows| => if ReceivedUnreadOf(u)(rows[i]) then rows[i].(isRead := true) else rows[i])
  }

  /** Marking one notification read only when the caller received it. */
  function MarkIdReadFor(rows: seq<Notification>, id: int, u: int): (r: seq<Notification>)
    ensures |r| == |rows|
  {
    seq(|rows|, i requires 0 <= i < |rows| =>
      if rows[i].id == id && rows[i].relatedUserId == u then rows[i].(isRead := true) else rows[i])
  }

  /** Inserting a row raises its recipient's received count by one when it is unread, and no one else's. */
  lemma {:induction false} ReceivedCountsOnce(rows: seq<Notification>, n: Notification, u: int)
    ensures ReceivedUnreadCount(rows + [n], u) ==
              ReceivedUnreadCount(rows, u) + (if n.relatedUserId == u && !n.isRead then 1 else 0)
  {
    assert (rows + [n])[..|rows + [n]| - 1] == rows;
  }

  /** After "mark all received read" the user has nothing unread left, and other users' rows are unchanged. */
  lemma MarkAllReceivedReadClears(rows: seq<Notification>, u: int)
    ensures ReceivedUnreadCount(MarkAllReceivedRead(rows, u), u) == 0
    ensures forall i :: 0 <= i < |rows| && rows[i].relatedUserId != u ==> MarkAllReceivedRead(rows, u)[i] == rows[i]
  {
    WhereNone(MarkAllReceivedRead(rows, u), ReceivedUnreadOf(u));
  }

  /**
   * Marking by id and recipient changes only the caller's own rows with that id, marks each of
   * them read, and leaves every other user's received count as it was.
   */
  lemma {:induction false} MarkIdReadForOwnOnly(rows: seq<Notification>, id: int, u: int, v: int)
    requires v != u
    ensures forall i :: 0 <= i < |rows| && rows[i].relatedUserId != u ==> MarkIdReadFor(rows, id, u)[i] == rows[i]
    ensures forall i :: 0 <= i < |rows| && rows[i].id == id && rows[i].relatedUserId == u ==> MarkIdReadFor(rows, id, u)[i].isRead
    ensures ReceivedUnreadCount(MarkIdReadFor(rows, id, u), v) == ReceivedUnreadCount(rows, v)
  {
    if rows != [] {
      var init := rows[..|rows| - 1];
      MarkIdReadForOwnOnly(init, id, u, v);
      assert MarkIdReadFor(rows, id, u)[..|rows| - 1] == MarkIdReadFor(init, id, u);
    }
  }
}
