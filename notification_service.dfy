/**
 * The notification orchestrator (API/Services/NotificationService.cs). It writes to the
 * notification table (a `NotificationRepo`), publishes to a per-recipient broker queue, caches
 * per recipient and pushes events to the recipient's live group. The broker, the cache and the
 * push hub are abstract state here:
 *   - `queues[u]`: the broker queue `user_<u>_notifications`, oldest message first;
 *   - `cache[u]`: the cached notification list of user `u`, newest first (a left push);
 *   - `counters[u]`: the cache's unread counter of user `u`, kept apart from the list;
 *   - `events`: every event pushed to a group `user_<u>`, in order.
 */
module NotificationService {
  import opened Wrappers
  import opened Tables
  import opened Text
  import opened NotificationModel
  import opened NotificationRepo

  /**
   * Which collaborators fail during a call. A cache or broker fault inside a write is swallowed
   * by the collaborator; a fault that reaches the service's own `try` turns the call into a
   * failure (see each method). `broker` is a failure to publish, or to open the consumer
   * channel and declare the queue; `drainStop == Some(k)` is a broker exception at the drain
   * loop's `BasicGet` number k + 1, after k messages were taken, cached and acknowledged.
   */
  datatype Faults = Faults(db: bool, broker: bool, cache: bool, push: bool, drainStop: Option<nat>)

  /**
   * Events pushed to the group of user `group`. The first three are payload shapes of the one
   * client method "ReceiveNotification" (one notification with the unread count, a list, a list
   * with the unread count); the last two have client methods of their own.
   */
  datatype Event =
    | ReceiveNotification(group: int, count: int, notification: Notification)
    | ReceiveNotifications(group: int, items: seq<Notification>)
    | ReceiveNotificationsWithCount(group: int, count: int, items: seq<Notification>)
    | NotificationMarkedAsRead(group: int, notificationId: int, unreadCount: int)
    | AllNotificationsMarkedAsRead(group: int, unreadCount: int)

  /** The client method an event is delivered to. */
  function HubMethod(e: Event): string
  {
    match e
    case NotificationMarkedAsRead(_, _, _) => "NotificationMarkedAsRead"
    case AllNotificationsMarkedAsRead(_, _) => "AllNotificationsMarkedAsRead"
    case _ => "ReceiveNotification"
  }

  // ---------------------------------------------------------------- message and record

  /** Who the message says acted: "you" for one's own action, otherwise "user: <id>". */
  function Actor(senderId: int, recipientId: int): string
  {
    if senderId == recipientId then "you" else "user: " + IntToString(senderId)
  }

  /** The message template table of `SendTaskNotification`. */
  function RenderMessage(t: NotificationType, title: string, senderId: int, recipientId: int): string
  {
    match t
    case TaskCreated => "New task '" + title + "' was assigned to you"
    case TaskUpdated => "Task '" + title + "' was recently updated by " + Actor(senderId, recipientId)
    case TaskDeleted => "Task '" + title + "' was deleted by " + Actor(senderId, recipientId)
    case _ => "Task '" + title + "' event occurred"
  }

  /**
   * The update and delete messages end in "you" exactly when the actor is the recipient:
   * otherwise they end in the actor's id, whose last character is a digit.
   */
  lemma {:induction false} MessageAddressesRecipient(t: NotificationType, title: string, senderId: int, recipientId: int)
    requires t == TaskUpdated || t == TaskDeleted
    ensures EndsWith(RenderMessage(t, title, senderId, recipientId), "you") <==> senderId == recipientId
  {
    var m := RenderMessage(t, title, senderId, recipientId);
    if senderId != recipientId {
      var id := IntToString(senderId);
      var prefix := if t == TaskUpdated then "Task '" + title + "' was recently updated by user: "
                    else "Task '" + title + "' was deleted by user: ";
      assert m == prefix + id;
      assert m[|m| - 1] == id[|id| - 1];
      assert IsDigit(m[|m| - 1]);
    }
  }

  /** The creation message is the same whoever sends it and to whomever. */
  lemma MessageCreatedIgnoresParties(title: string, s1: int, r1: int, s2: int, r2: int)
    ensures RenderMessage(TaskCreated, title, s1, r1) == RenderMessage(TaskCreated, title, s2, r2)
    ensures EndsWith(RenderMessage(TaskCreated, title, s1, r1), "you")
  {
    var m := RenderMessage(TaskCreated, title, s1, r1);
    assert m[|m| - 3..] == "you";
  }

  /** Every type outside created/updated/deleted renders one generic message, whoever acts. */
  lemma MessageDefaultIsGeneric(t: NotificationType, title: string, s1: int, r1: int, s2: int, r2: int)
    requires t != TaskCreated && t != TaskUpdated && t != TaskDeleted
    ensures RenderMessage(t, title, s1, r1) == RenderMessage(UserRegistered, title, s2, r2)
  {
  }

  /** Every message quotes the task title right after its opening words. */
  lemma MessageQuotesTitle(t: NotificationType, title: string, senderId: int, recipientId: int)
    ensures var open := if t == TaskCreated then "New task '" else "Task '";
            open + title + "'" <= RenderMessage(t, title, senderId, recipientId)
  {
    match t
    case TaskCreated => QuotedHead("New task '" + title, "' was assigned to you");
    case TaskUpdated => QuotedHead("Task '" + title, "' was recently updated by " + Actor(senderId, recipientId));
    case TaskDeleted => QuotedHead("Task '" + title, "' was deleted by " + Actor(senderId, recipientId));
    case _ => QuotedHead("Task '" + title, "' event occurred");
  }

  lemma QuotedHead(head: string, rest: string)
    requires |rest| > 0 && rest[0] == '\''
    ensures head + "'" <= head + rest
  {
  }

  /** The record `SendTaskNotification` stores, publishes, caches and pushes. */
  function BuildNotification(id: int, t: NotificationType, senderId: int, recipientId: int, taskId: int, title: string, now: int): (n: Notification)
    ensures n.userId == senderId && n.relatedUserId == recipientId
    ensures n.taskId == Some(taskId) && !n.isRead && n.ntype == t
    ensures n.message == RenderMessage(t, title, senderId, recipientId)
  {
    Notification(
      id, t, senderId,
      if senderId == recipientId then senderId else recipientId,
      Some(taskId), RenderMessage(t, title, senderId, recipientId), false, now)
  }

  /**
   * As written, the notification row records the sender as `c_user_id`, and the repository's
   * per-user queries filter on that column: sending to someone else raises the sender's unread
   * count and not the recipient's, and the recipient's "mark all read" leaves it unread.
   */
  lemma {:induction false} UserQueriesSeeTheSender(rows: seq<Notification>, id: int, t: NotificationType, senderId: int,
                                                   recipientId: int, taskId: int, title: string, now: int)
    requires senderId != recipientId
    ensures var n := BuildNotification(id, t, senderId, recipientId, taskId, title, now);
      && UnreadCount(rows + [n], recipientId) == UnreadCount(rows, recipientId)
      && UnreadCount(rows + [n], senderId) == UnreadCount(rows, senderId) + 1
      && MarkAllRead(rows + [n], recipientId)[|rows|] == n
      && !MarkAllRead(rows + [n], recipientId)[|rows|].isRead
  {
    var n := BuildNotification(id, t, senderId, recipientId, taskId, title, now);
    CreateCountsOnce(rows, n, recipientId);
    CreateCountsOnce(rows, n, senderId);
    assert !UnreadOf(recipientId)(n);
  }

  /**
   * Keyed on the recipient column instead, a sent notification raises the recipient's unread
   * count by exactly one and no one else's, and the recipient's "mark all read" clears it.
   */
  lemma {:induction false} SendReachesRecipient(rows: seq<Notification>, id: int, t: NotificationType, senderId: int,
                                                recipientId: int, taskId: int, title: string, now: int, u: int)
    ensures var n := BuildNotification(id, t, senderId, recipientId, taskId, title, now);
      && ReceivedUnreadCount(rows + [n], u) == ReceivedUnreadCount(rows, u) + (if u == recipientId then 1 else 0)
      && ReceivedUnreadCount(MarkAllReceivedRead(rows + [n], recipientId), recipientId) == 0
      && MarkAllReceivedRead(rows + [n], recipientId)[|rows|] == n.(isRead := true)
  {
    var n := BuildNotification(id, t, senderId, recipientId, taskId, title, now);
    ReceivedCountsOnce(rows, n, u);
    MarkAllReceivedReadClears(rows + [n], recipientId);
    assert ReceivedUnreadOf(recipientId)(n);
  }

  /**
   * As written, the store marks a notification read by id alone: a caller who is not its
   * recipient marks it read for the recipient, whose unread count drops.
   */
  lemma MarkByIdReachesOtherRecipients(n: Notification, caller: int)
    requires n.relatedUserId != caller && !n.isRead
    ensures MarkIdRead([n], n.id) == [n.(isRead := true)]
    ensures ReceivedUnreadCount([n], n.relatedUserId) == 1
    ensures ReceivedUnreadCount(MarkIdRead([n], n.id), n.relatedUserId) == 0
  {
    assert [n][..0] == [];
    assert MarkIdRead([n], n.id)[..0] == [];
  }

  /** Marking by id and caller leaves a notification the caller did not receive unread. */
  lemma MarkByIdForCallerOnly(n: Notification, caller: int)
    requires n.relatedUserId != caller && !n.isRead
    ensures MarkIdReadFor([n], n.id, caller) == [n]
    ensures ReceivedUnreadCount(MarkIdReadFor([n], n.id, caller), n.relatedUserId) == 1
  {
    MarkIdReadForOwnOnly([n], n.id, caller, n.relatedUserId);
    assert [n][..0] == [];
  }

  // ---------------------------------------------------------------- broker and cache state

  function Lookup<K, V>(m: map<K, seq<V>>, k: K): seq<V>
  {
    if k in m then m[k] else []
  }

  /** Publishing: the message joins the end of its recipient's queue (declared on demand). */
  function Enqueued(queues: map<int, seq<Notification>>, n: Notification): map<int, seq<Notification>>
  {
    queues[n.relatedUserId := Lookup(queues, n.relatedUserId) + [n]]
  }

  /** `CacheNotification`: the notification goes to the front of its recipient's cached list. */
  function Cached(cache: map<int, seq<Notification>>, n: Notification): map<int, seq<Notification>>
  {
    cache[n.relatedUserId := [n] + Lookup(cache, n.relatedUserId)]
  }

  /** Caching the notifications of `s` one after the other. */
  function CachedAll(cache: map<int, seq<Notification>>, s: seq<Notification>): map<int, seq<Notification>>
  {
    if s == [] then cache else Cached(CachedAll(cache, s[..|s| - 1]), s[|s| - 1])
  }

  function IsUnread(n: Notification): bool { !n.isRead }

  /** The unread count the cache reports for user `u`. */
  function CachedUnread(cache: map<int, seq<Notification>>, u: int): nat
  {
    |Where(Lookup(cache, u), IsUnread)|
  }

  function IdIsNot(id: int): Notification -> bool
  {
    (n: Notification) => n.id != id
  }

  /** `DeleteNotification`: drops notification `id` from user `u`'s cached list. */
  function Uncached(cache: map<int, seq<Notification>>, u: int, id: int): map<int, seq<Notification>>
  {
    if u in cache then cache[u := Where(cache[u], IdIsNot(id))] else cache
  }

  predicate CachesId(cache: map<int, seq<Notification>>, u: int, id: int)
  {
    exists i :: 0 <= i < |Lookup(cache, u)| && Lookup(cache, u)[i].id == id
  }

  /** Caching an unread notification raises its recipient's cached count by one and no one else's. */
  lemma {:induction false} CachedCountsOnce(cache: map<int, seq<Notification>>, n: Notification, u: int)
    ensures CachedUnread(Cached(cache, n), u) == CachedUnread(cache, u) + (if u == n.relatedUserId && !n.isRead then 1 else 0)
  {
    if u == n.relatedUserId {
      WhereAppend([n], Lookup(cache, u), IsUnread);
      assert [n][..0] == [];
    }
  }

  // ---------------------------------------------------------------- merging drained and cached

  function Ids(s: seq<Notification>): set<int>
  {
    set n | n in s :: n.id
  }

  function IdIs(id: int): Notification -> bool
  {
    (n: Notification) => n.id == id
  }

  /**
   * The reconciliation merge: each cached notification, in cached order, joins the list unless
   * a notification with its id is already there. The list it is tested against grows as the
   * merge runs, so of several cached copies of one id only the first joins.
   */
  function MergeById(list: seq<Notification>, cached: seq<Notification>): seq<Notification>
    decreases |cached|
  {
    if cached == [] then list
    else if cached[0].id in Ids(list) then MergeById(list, cached[1..])
    else MergeById(list + [cached[0]], cached[1..])
  }

  /**
   * The cached notifications whose id is neither in `seen` nor held by an earlier cached one:
   * the first cached copy of each new id, in cached order.
   */
  function FirstCopies(cached: seq<Notification>, seen: set<int>): seq<Notification>
  {
    if cached == [] then []
    else
      var init := cached[..|cached| - 1];
      var last := cached[|cached| - 1];
      FirstCopies(init, seen) + (if last.id in seen || last.id in Ids(init) then [] else [last])
  }

  predicate DistinctIds(s: seq<Notification>)
  {
    forall i, j :: 0 <= i < j < |s| ==> s[i].id != s[j].id
  }

  lemma IdsAppend(a: seq<Notification>, b: seq<Notification>)
    ensures Ids(a + b) == Ids(a) + Ids(b)
  {
    forall id | id in Ids(a) + Ids(b) ensures id in Ids(a + b) {
      if id in Ids(a) {
        var x :| x in a && x.id == id;
        assert x in a + b;
      } else {
        var x :| x in b && x.id == id;
        assert x in a + b;
      }
    }
  }

  /** The merge keeps the list as its prefix, gains the cached ids, and adds no repeated id. */
  lemma {:induction false} MergeKeeps(list: seq<Notification>, cached: seq<Notification>)
    ensures list <= MergeById(list, cached)
    ensures Ids(MergeById(list, cached)) == Ids(list) + Ids(cached)
    ensures DistinctIds(list) ==> DistinctIds(MergeById(list, cached))
    decreases |cached|
  {
    if cached != [] {
      var x := cached[0];
      var rest := cached[1..];
      assert cached == [x] + rest;
      IdsAppend([x], rest);
      assert Ids([x]) == {x.id};
      if x.id in Ids(list) {
        MergeKeeps(list, rest);
      } else {
        var grown := list + [x];
        MergeKeeps(grown, rest);
        IdsAppend(list, [x]);
        if DistinctIds(list) {
          forall i, j | 0 <= i < j < |grown| ensures grown[i].id != grown[j].id {
            assert grown[i] == list[i];
            assert list[i] in list;
          }
        }
      }
    }
  }

  /** Merging one more cached notification adds it exactly when its id is new to the merge so far. */
  lemma {:induction false} MergeAppendOne(list: seq<Notification>, cached: seq<Notification>, x: Notification)
    ensures MergeById(list, cached + [x]) ==
              (var m := MergeById(list, cached); if x.id in Ids(m) then m else m + [x])
    decreases |cached|
  {
    if cached == [] {
      assert cached + [x] == [x];
      assert [x][1..] == [];
    } else {
      assert (cached + [x])[0] == cached[0];
      assert (cached + [x])[1..] == cached[1..] + [x];
      if cached[0].id in Ids(list) {
        MergeAppendOne(list, cached[1..], x);
      } else {
        MergeAppendOne(list + [cached[0]], cached[1..], x);
      }
    }
  }

  /** The merge is the list followed by the first cached copy of each id the list lacks. */
  lemma {:induction false} MergeIsFirstCopies(list: seq<Notification>, cached: seq<Notification>)
    ensures MergeById(list, cached) == list + FirstCopies(cached, Ids(list))
    decreases |cached|
  {
    if cached != [] {
      var init := cached[..|cached| - 1];
      var last := cached[|cached| - 1];
      assert cached == init + [last];
      MergeIsFirstCopies(list, init);
      MergeAppendOne(list, init, last);
      MergeKeeps(list, init);
    }
  }

  /** Each notification `FirstCopies` keeps has a new id and is the first cached one with that id. */
  lemma {:induction false} FirstCopiesAreFirst(cached: seq<Notification>, seen: set<int>)
    ensures forall x :: x in FirstCopies(cached, seen) ==> x.id !in seen && First(cached, IdIs(x.id)) == Some(x)
  {
    if cached != [] {
      var init := cached[..|cached| - 1];
      var last := cached[|cached| - 1];
      assert cached == init + [last];
      FirstCopiesAreFirst(init, seen);
      forall x | x in FirstCopies(cached, seen) ensures x.id !in seen && First(cached, IdIs(x.id)) == Some(x) {
        FirstAppend(init, [last], IdIs(x.id));
        if x !in FirstCopies(init, seen) {
          assert x == last && last.id !in Ids(init);
          forall i | 0 <= i < |init| ensures !IdIs(last.id)(init[i]) {
            assert init[i] in init;
          }
          assert [last][0] == last;
        }
      }
    }
  }

  /** The merge starts with the drained notifications. */
  lemma MergeStartsWithDrained(drained: seq<Notification>, cached: seq<Notification>)
    ensures drained <= MergeById(drained, cached)
  {
    MergeKeeps(drained, cached);
  }

  /**
   * What the merge contains: the drained notifications first and in queue order, then the first
   * cached copy of each id not drained, in cached order; the ids of both; and no id twice when
   * the drained list repeats none, whatever the cache holds.
   */
  lemma MergeFacts(drained: seq<Notification>, cached: seq<Notification>)
    ensures MergeById(drained, cached) == drained + FirstCopies(cached, Ids(drained))
    ensures forall x :: x in FirstCopies(cached, Ids(drained)) ==>
              x.id !in Ids(drained) && First(cached, IdIs(x.id)) == Some(x)
    ensures Ids(MergeById(drained, cached)) == Ids(drained) + Ids(cached)
    ensures DistinctIds(drained) ==> DistinctIds(MergeById(drained, cached))
  {
    MergeIsFirstCopies(drained, cached);
    FirstCopiesAreFirst(cached, Ids(drained));
    MergeKeeps(drained, cached);
  }

  // ---------------------------------------------------------------- caching on send and on drain

  /**
   * As written, a notification is cached when it is sent and again when the recipient's drain
   * takes it from the queue: the recipient's cached list then holds it twice and the cached
   * count counts it twice. `GetNotifications`' fallback to the cached list returns both copies;
   * the reconciliation merge of `GetUserNotifications` keeps only the first.
   */
  lemma SendThenDrainCachesTwice(queues: map<int, seq<Notification>>, cache: map<int, seq<Notification>>, n: Notification)
    requires Lookup(queues, n.relatedUserId) == [] && !n.isRead
    ensures var u := n.relatedUserId;
      var c := CachedAll(Cached(cache, n), Lookup(Enqueued(queues, n), u));
      && Lookup(c, u) == [n, n] + Lookup(cache, u)
      && CachedUnread(c, u) == CachedUnread(cache, u) + 2
      && !DistinctIds(Lookup(c, u))
      && Take(Lookup(c, u), 20)[..2] == [n, n]
      && [n] <= MergeById([], Lookup(c, u))
      && DistinctIds(MergeById([], Lookup(c, u)))
  {
    var u := n.relatedUserId;
    var q := Lookup(Enqueued(queues, n), u);
    assert q == [n];
    assert q[..0] == [];
    assert CachedAll(Cached(cache, n), q[..0]) == Cached(cache, n);
    var c := CachedAll(Cached(cache, n), q);
    assert c == Cached(Cached(cache, n), n);
    CachedCountsOnce(cache, n, u);
    CachedCountsOnce(Cached(cache, n), n, u);
    var l := Lookup(c, u);
    assert l[0].id == l[1].id;
    RepeatedHeadMergesOnce(n, Lookup(cache, u));
  }

  /** A list that starts with two copies of one notification merges into one copy of it first. */
  lemma RepeatedHeadMergesOnce(n: Notification, rest: seq<Notification>)
    ensures [n] <= MergeById([], [n, n] + rest)
    ensures DistinctIds(MergeById([], [n, n] + rest))
  {
    var l := [n, n] + rest;
    assert Ids([]) == {};
    assert Ids([n]) == {n.id};
    assert l[1..][0] == n && l[1..][1..] == rest;
    assert [] + [n] == [n];
    assert MergeById([], l) == MergeById([n], l[1..]);
    assert MergeById([n], l[1..]) == MergeById([n], rest);
    MergeKeeps([n], rest);
  }

  /** Caching that skips a notification whose id the recipient's list already holds. */
  function CachedOnce(cache: map<int, seq<Notification>>, n: Notification): map<int, seq<Notification>>
  {
    if CachesId(cache, n.relatedUserId, n.id) then cache else Cached(cache, n)
  }

  /** Caching the notifications of `s` one after the other, each at most once. */
  function CachedAllOnce(cache: map<int, seq<Notification>>, s: seq<Notification>): map<int, seq<Notification>>
  {
    if s == [] then cache else CachedOnce(CachedAllOnce(cache, s[..|s| - 1]), s[|s| - 1])
  }

  /**
   * Caching once leaves the notification's id in its recipient's list, is idempotent, and
   * keeps every user's list free of repeated ids.
   */
  lemma CachedOnceFacts(cache: map<int, seq<Notification>>, n: Notification, u: int)
    ensures CachesId(CachedOnce(cache, n), n.relatedUserId, n.id)
    ensures CachedOnce(CachedOnce(cache, n), n) == CachedOnce(cache, n)
    ensures DistinctIds(Lookup(cache, u)) ==> DistinctIds(Lookup(CachedOnce(cache, n), u))
  {
    var r := n.relatedUserId;
    if !CachesId(cache, r, n.id) {
      assert Lookup(Cached(cache, n), r)[0] == n;
      if u == r && DistinctIds(Lookup(cache, u)) {
        var l := Lookup(cache, u);
        var l' := [n] + l;
        forall i, j | 0 <= i < j < |l'| ensures l'[i].id != l'[j].id {
          assert l'[j] == l[j - 1];
          if i > 0 {
            assert l'[i] == l[i - 1];
          }
        }
      }
    }
  }

  /**
   * Sent and then drained with caching once, a notification the recipient's list did not hold
   * is cached once and counted once.
   */
  lemma SendThenDrainCachesOnce(queues: map<int, seq<Notification>>, cache: map<int, seq<Notification>>, n: Notification)
    requires Lookup(queues, n.relatedUserId) == [] && !n.isRead
    requires !CachesId(cache, n.relatedUserId, n.id)
    ensures var u := n.relatedUserId;
      var c := CachedAllOnce(CachedOnce(cache, n), Lookup(Enqueued(queues, n), u));
      && Lookup(c, u) == [n] + Lookup(cache, u)
      && CachedUnread(c, u) == CachedUnread(cache, u) + 1
  {
    var u := n.relatedUserId;
    var q := Lookup(Enqueued(queues, n), u);
    assert q == [n];
    assert q[..0] == [];
    CachedOnceFacts(cache, n, u);
    assert CachedAllOnce(CachedOnce(cache, n), q) == CachedOnce(cache, n);
    CachedCountsOnce(cache, n, u);
  }

  /** The cache's list read: the user's list, or the empty list a failing read is caught as. */
  function CacheRead(cache: map<int, seq<Notification>>, u: int, fault: bool): seq<Notification>
  {
    if fault then [] else Lookup(cache, u)
  }

  // ---------------------------------------------------------------- the cache's unread counter

  /** The counter of user `u`; a missing key reads as 0. */
  function Counter(counters: map<int, nat>, u: int): nat
  {
    if u in counters then counters[u] else 0
  }

  /** `CacheNotification` on the counter: an unread notification raises its recipient's counter. */
  function Counted(counters: map<int, nat>, n: Notification): map<int, nat>
  {
    if n.isRead then counters else counters[n.relatedUserId := Counter(counters, n.relatedUserId) + 1]
  }

  /** Counting the notifications of `s` one after the other. */
  function CountedAll(counters: map<int, nat>, s: seq<Notification>): map<int, nat>
  {
    if s == [] then counters else Counted(CountedAll(counters, s[..|s| - 1]), s[|s| - 1])
  }

  /** The counter and the recount of the cached list agree for user `u`. */
  predicate CounterAgrees(cache: map<int, seq<Notification>>, counters: map<int, nat>, u: int)
  {
    Counter(counters, u) == CachedUnread(cache, u)
  }

  /**
   * `GetUnreadNotificationCount`: the counter when it is positive, otherwise the recount of the
   * cached list; 0 when the read fails.
   */
  function CountRead(cache: map<int, seq<Notification>>, counters: map<int, nat>, u: int, fault: bool): (r: nat)
    ensures fault ==> r == 0
    ensures !fault && CounterAgrees(cache, counters, u) ==> r == CachedUnread(cache, u)
    ensures !fault && Counter(counters, u) > 0 ==> r == Counter(counters, u)
  {
    if fault then 0
    else if Counter(counters, u) > 0 then Counter(counters, u)
    else CachedUnread(cache, u)
  }

  /** The write-back of `GetUnreadNotificationCount`: a positive recount is stored as the counter. */
  function CountWrittenBack(cache: map<int, seq<Notification>>, counters: map<int, nat>, u: int, fault: bool): map<int, nat>
  {
    if fault || Counter(counters, u) > 0 || CachedUnread(cache, u) == 0 then counters
    else counters[u := CachedUnread(cache, u)]
  }

  function UnreadCopy(id: int): Notification -> bool
  {
    (n: Notification) => n.id == id && !n.isRead
  }

  /**
   * `DeleteNotification` on the counter: one decrement when the user's list holds the id, its
   * stored copy (the most recently cached one, first in the list) is unread, and the counter is
   * positive; however many copies the list drops.
   */
  function Decremented(cache: map<int, seq<Notification>>, counters: map<int, nat>, u: int, id: int): map<int, nat>
  {
    match First(Lookup(cache, u), IdIs(id))
    case Some(x) => if !x.isRead && Counter(counters, u) > 0 then counters[u := Counter(counters, u) - 1] else counters
    case None => counters
  }

  /** Caching raises the counter exactly as it raises the recount, so the two stay equal. */
  lemma CountedKeepsAgreement(cache: map<int, seq<Notification>>, counters: map<int, nat>, n: Notification, u: int)
    requires CounterAgrees(cache, counters, u)
    ensures CounterAgrees(Cached(cache, n), Counted(counters, n), u)
  {
    CachedCountsOnce(cache, n, u);
  }

  /** Dropping an id from a list lowers its recount by the number of unread copies of that id. */
  lemma {:induction false} UncachedCount(l: seq<Notification>, id: int)
    ensures |Where(Where(l, IdIsNot(id)), IsUnread)| + |Where(l, UnreadCopy(id))| == |Where(l, IsUnread)|
  {
    if l != [] {
      var init, x := l[..|l| - 1], l[|l| - 1];
      UncachedCount(init, id);
      WhereAppend(Where(init, IdIsNot(id)), if x.id != id then [x] else [], IsUnread);
      assert [x][..0] == [];
    }
  }

  /** A list without repeated ids holds at most one unread copy of an id. */
  lemma {:induction false} CopiesAtMostOne(l: seq<Notification>, id: int)
    requires DistinctIds(l)
    ensures |Where(l, UnreadCopy(id))| <= 1
  {
    if l != [] {
      var init, x := l[..|l| - 1], l[|l| - 1];
      assert DistinctIds(init) by {
        forall i, j | 0 <= i < j < |init| ensures init[i].id != init[j].id {
          assert init[i] == l[i] && init[j] == l[j];
        }
      }
      if UnreadCopy(id)(x) {
        forall i | 0 <= i < |init| ensures !UnreadCopy(id)(init[i]) {
          assert init[i] == l[i];
        }
        WhereNone(init, UnreadCopy(id));
      } else {
        CopiesAtMostOne(init, id);
      }
    }
  }

  /**
   * In a list without repeated ids, the unread copies of an id are its first copy when that is
   * unread, and none otherwise.
   */
  lemma FirstCopyCount(l: seq<Notification>, id: int)
    requires DistinctIds(l)
    ensures |Where(l, UnreadCopy(id))| ==
      match First(l, IdIs(id)) case Some(x) => (if x.isRead then 0 else 1) case None => 0
  {
    CopiesAtMostOne(l, id);
    match First(l, IdIs(id))
    case None =>
      forall j | 0 <= j < |l| ensures !UnreadCopy(id)(l[j]) {
        assert !IdIs(id)(l[j]);
      }
      WhereNone(l, UnreadCopy(id));
    case Some(x) =>
      var i :| 0 <= i < |l| && l[i] == x && IdIs(id)(l[i]);
      if !x.isRead {
        WhereMembership(l, UnreadCopy(id), x);
      } else {
        forall j | 0 <= j < |l| ensures !UnreadCopy(id)(l[j]) {
          if j < i {
            assert l[j].id != l[i].id;
          } else if j > i {
            assert l[i].id != l[j].id;
          }
        }
        WhereNone(l, UnreadCopy(id));
      }
  }

  /**
   * When the user's list has no repeated id, deleting an id lowers the counter exactly as it
   * lowers the recount, so the two stay equal.
   */
  lemma DeleteKeepsAgreement(cache: map<int, seq<Notification>>, counters: map<int, nat>, u: int, id: int)
    requires CounterAgrees(cache, counters, u)
    requires DistinctIds(Lookup(cache, u))
    ensures CounterAgrees(Uncached(cache, u, id), Decremented(cache, counters, u, id), u)
  {
    var l := Lookup(cache, u);
    UncachedCount(l, id);
    FirstCopyCount(l, id);
    assert Lookup(Uncached(cache, u, id), u) == Where(l, IdIsNot(id));
    match First(l, IdIs(id))
    case Some(x) =>
      if !x.isRead {
        WhereMembership(l, IsUnread, x);
      }
    case None =>
  }

  /**
   * Dropping an id from a list whose head `h` holds its copies, all unread, and whose rest
   * holds none lowers the recount by the length of `h`.
   */
  lemma UncachedHead(h: seq<Notification>, l: seq<Notification>, id: int)
    requires forall i :: 0 <= i < |h| ==> UnreadCopy(id)(h[i])
    requires forall i :: 0 <= i < |l| ==> l[i].id != id
    ensures |Where(Where(h + l, IdIsNot(id)), IsUnread)| + |h| == |Where(h + l, IsUnread)|
  {
    UncachedCount(h + l, id);
    WhereAppend(h, l, UnreadCopy(id));
    WhereNone(l, UnreadCopy(id));
    WhereEvery(h, UnreadCopy(id));
  }

  /** A user's list that does not hold an id has no copy of it. */
  lemma NotCachedNoCopy(cache: map<int, seq<Notification>>, u: int, id: int)
    requires !CachesId(cache, u, id)
    ensures forall i :: 0 <= i < |Lookup(cache, u)| ==> Lookup(cache, u)[i].id != id
  {
  }

  /**
   * As written, a notification cached twice (on send and again on drain) and then deleted (on
   * "mark read") leaves the counter one above the recount of the list: both copies leave the
   * list but the counter drops once, so the count pushed from then on is one too high.
   */
  lemma DoubleCacheCounterDrifts(cache: map<int, seq<Notification>>, counters: map<int, nat>, n: Notification)
    requires !n.isRead && CounterAgrees(cache, counters, n.relatedUserId)
    requires !CachesId(cache, n.relatedUserId, n.id)
    ensures var u := n.relatedUserId;
      var c1 := Cached(Cached(cache, n), n);
      var k1 := Counted(Counted(counters, n), n);
      var c2 := Uncached(c1, u, n.id);
      var k2 := Decremented(c1, k1, u, n.id);
      && Counter(k1, u) == CachedUnread(cache, u) + 2
      && CachedUnread(c2, u) == CachedUnread(cache, u)
      && Counter(k2, u) == CachedUnread(cache, u) + 1
      && CountRead(c2, k2, u, false) == CachedUnread(c2, u) + 1
  {
    var u := n.relatedUserId;
    var l := Lookup(cache, u);
    var c1 := Cached(Cached(cache, n), n);
    assert Lookup(c1, u) == [n, n] + l;
    CachedCountsOnce(cache, n, u);
    CachedCountsOnce(Cached(cache, n), n, u);
    NotCachedNoCopy(cache, u, n.id);
    UncachedHead([n, n], l, n.id);
    assert First([n, n] + l, IdIs(n.id)) == Some(n);
  }

  /** Caching once (the corrected definition) counts the notification once for the counter too. */
  function CountedOnce(cache: map<int, seq<Notification>>, counters: map<int, nat>, n: Notification): map<int, nat>
  {
    if CachesId(cache, n.relatedUserId, n.id) then counters else Counted(counters, n)
  }

  /**
   * Corrected: a notification sent and drained with caching once, and then deleted, leaves the
   * counter equal to the recount of the list, so the pushed count is the number of unread
   * cached notifications.
   */
  lemma CacheOnceCounterExact(cache: map<int, seq<Notification>>, counters: map<int, nat>, n: Notification)
    requires !n.isRead && CounterAgrees(cache, counters, n.relatedUserId)
    requires !CachesId(cache, n.relatedUserId, n.id)
    ensures var u := n.relatedUserId;
      var c0 := CachedOnce(cache, n);
      var c1 := CachedOnce(c0, n);
      var k1 := CountedOnce(c0, CountedOnce(cache, counters, n), n);
      var c2 := Uncached(c1, u, n.id);
      var k2 := Decremented(c1, k1, u, n.id);
      && Counter(k1, u) == CachedUnread(cache, u) + 1
      && CachedUnread(c2, u) == CachedUnread(cache, u)
      && Counter(k2, u) == CachedUnread(cache, u)
      && CountRead(c2, k2, u, false) == CachedUnread(c2, u)
  {
    var u := n.relatedUserId;
    var l := Lookup(cache, u);
    CachedOnceFacts(cache, n, u);
    var c1 := Cached(cache, n);
    assert CachedOnce(c1, n) == c1;
    assert CountedOnce(c1, Counted(counters, n), n) == Counted(counters, n);
    assert Lookup(c1, u) == [n] + l;
    CachedCountsOnce(cache, n, u);
    NotCachedNoCopy(cache, u, n.id);
    UncachedHead([n], l, n.id);
    assert First([n] + l, IdIs(n.id)) == Some(n);
  }

  // ---------------------------------------------------------------- the drain loop's broker fault

  /** Whether draining queue `q` meets the broker exception `stop` before it finds the queue empty. */
  predicate DrainThrows(q: seq<Notification>, stop: Option<nat>)
  {
    stop.Some? && stop.value <= |q|
  }

  /** How many messages of `q` the drain takes: all of them, or the ones before the exception. */
  function Taken(q: seq<Notification>, stop: Option<nat>): (k: nat)
    ensures k <= |q|
    ensures k < |q| ==> DrainThrows(q, stop)
  {
    if DrainThrows(q, stop) then stop.value else |q|
  }

  // ---------------------------------------------------------------- the service

  class NotificationService {
    const repo: NotificationRepo
    var queues: map<int, seq<Notification>>
    var cache: map<int, seq<Notification>>
    var counters: map<int, nat>
    var events: seq<Event>

    constructor (repo: NotificationRepo)
      ensures this.repo == repo && queues == map[] && cache == map[] && counters == map[] && events == []
    {
      this.repo := repo;
      queues, cache, counters, events := map[], map[], map[], [];
    }

    /**
     * Stores, publishes, caches and pushes one notification. The store's answer is only
     * logged: publishing, caching and the push happen whether or not the insert succeeded.
     * The pushed count is the recipient's cache counter, raised by this notification.
     * The call fails only when the push throws.
     */
    method SendTaskNotification(senderId: int, recipientId: int, taskId: int, taskTitle: string,
                                t: NotificationType, id: int, now: int, f: Faults) returns (ok: bool)
      modifies this, repo
      ensures ok == !f.push
      ensures repo.rows == old(repo.rows) +
        (if !f.db && !t.Undeclared? then [BuildNotification(id, t, senderId, recipientId, taskId, taskTitle, now)] else [])
      ensures queues == if f.broker then old(queues)
                        else Enqueued(old(queues), BuildNotification(id, t, senderId, recipientId, taskId, taskTitle, now))
      ensures !f.broker ==> BuildNotification(id, t, senderId, recipientId, taskId, taskTitle, now) in Lookup(queues, recipientId)
      ensures cache == if f.cache then old(cache)
                       else Cached(old(cache), BuildNotification(id, t, senderId, recipientId, taskId, taskTitle, now))
      ensures counters == if f.cache then old(counters)
                          else Counted(old(counters), BuildNotification(id, t, senderId, recipientId, taskId, taskTitle, now))
      ensures events == old(events) +
        (if f.push then []
         else [ReceiveNotification(recipientId, if f.cache then 0 else Counter(old(counters), recipientId) + 1,
                                   BuildNotification(id, t, senderId, recipientId, taskId, taskTitle, now))])
    {
      var n := BuildNotification(id, t, senderId, recipientId, taskId, taskTitle, now);
      var dbResult := repo.CreateNotification(n, f.db);
      if !f.broker {
        queues := Enqueued(queues, n);
      }
      if !f.cache {
        cache := Cached(cache, n);
        counters := Counted(counters, n);
      }
      var count := ReadUnreadCount(recipientId, f.cache);
      if f.push {
        return false;
      }
      events := events + [ReceiveNotification(recipientId, count, n)];
      ok := true;
    }

    /**
     * `GetUnreadNotificationCount` of the cache: the counter when it is positive, otherwise the
     * recount of the cached list, which is then stored as the counter when it is positive.
     */
    method ReadUnreadCount(userId: int, cacheFault: bool) returns (count: nat)
      modifies this
      ensures count == CountRead(old(cache), old(counters), userId, cacheFault)
      ensures counters == CountWrittenBack(old(cache), old(counters), userId, cacheFault)
      ensures count > 0 ==> Counter(counters, userId) == count
      ensures cache == old(cache) && queues == old(queues) && events == old(events)
    {
      count := CountRead(cache, counters, userId, cacheFault);
      counters := CountWrittenBack(cache, counters, userId, cacheFault);
    }

    /**
     * The drain loop: takes each message of the user's queue in order, caches it and
     * acknowledges it, until the queue is empty or the broker throws. The queue is declared
     * first, so it exists afterwards even when it did not before.
     */
    method Drain(userId: int, cacheFault: bool, stop: Option<nat>) returns (drained: seq<Notification>, complete: bool)
      modifies this
      ensures var q := Lookup(old(queues), userId);
        && complete == !DrainThrows(q, stop)
        && drained == q[..Taken(q, stop)]
        && queues == old(queues)[userId := q[Taken(q, stop)..]]
      ensures complete ==> drained == Lookup(old(queues), userId)
      ensures cache == if cacheFault then old(cache) else CachedAll(old(cache), drained)
      ensures counters == if cacheFault then old(counters) else CountedAll(old(counters), drained)
      ensures events == old(events)
    {
      queues := queues[userId := Lookup(queues, userId)];
      drained := [];
      while queues[userId] != [] && stop != Some(|drained|)
        invariant userId in queues
        invariant queues == old(queues)[userId := queues[userId]]
        invariant drained + queues[userId] == Lookup(old(queues), userId)
        invariant stop.Some? ==> |drained| <= stop.value
        invariant cache == if cacheFault then old(cache) else CachedAll(old(cache), drained)
        invariant counters == if cacheFault then old(counters) else CountedAll(old(counters), drained)
        invariant events == old(events)
        decreases |queues[userId]|
      {
        var n := queues[userId][0];
        if !cacheFault {
          cache := Cached(cache, n);
          counters := Counted(counters, n);
        }
        assert (drained + [n])[..|drained|] == drained;
        drained := drained + [n];
        queues := queues[userId := queues[userId][1..]];
      }
      complete := stop != Some(|drained|);
      assert drained == Lookup(old(queues), userId)[..|drained|];
      assert queues[userId] == Lookup(old(queues), userId)[|drained|..];
    }

    /**
     * The reconciliation path: drains the user's queue, then returns the drained notifications
     * followed by the first cached copy of each id not among them, and pushes that list when it
     * is not empty.
     * A broker fault (no consumer channel), a broker exception inside the drain loop, or a push
     * fault ends in `(false, [])`; messages taken before the exception stay cached and acked.
     */
    method GetUserNotifications(userId: int, f: Faults) returns (success: bool, items: seq<Notification>)
      modifies this
      ensures f.broker ==> !success && items == [] && queues == old(queues) && cache == old(cache)
                           && counters == old(counters) && events == old(events)
      ensures var q := Lookup(old(queues), userId);
        var k := Taken(q, f.drainStop);
        !f.broker ==>
          && queues == old(queues)[userId := q[k..]]
          && cache == (if f.cache then old(cache) else CachedAll(old(cache), q[..k]))
          && counters == (if f.cache then old(counters) else CountedAll(old(counters), q[..k]))
      ensures var q := Lookup(old(queues), userId);
        var merged := MergeById(q, CacheRead(cache, userId, f.cache));
        && (success <==> !f.broker && !DrainThrows(q, f.drainStop) && !(f.push && merged != []))
        && items == (if success then merged else [])
        && events == old(events) + (if success && merged != [] then [ReceiveNotifications(userId, merged)] else [])
      ensures success ==> Lookup(old(queues), userId) <= items
    {
      if f.broker {
        return false, [];
      }
      var drained, complete := Drain(userId, f.cache, f.drainStop);
      if !complete {
        return false, [];
      }
      var cached := CacheRead(cache, userId, f.cache);
      items := MergeById(drained, cached);
      MergeStartsWithDrained(drained, cached);
      if items != [] {
        if f.push {
          return false, [];
        }
        events := events + [ReceiveNotifications(userId, items)];
      }
      success := true;
    }

    /**
     * Drains the user's queue like `GetUserNotifications`, but returns only the drained
     * notifications, falling back to the first 20 cached ones when nothing was drained, and
     * pushes them with the cache's unread count.
     */
    method GetNotifications(userId: int, f: Faults) returns (success: bool, items: seq<Notification>)
      modifies this
      ensures f.broker ==> !success && items == [] && queues == old(queues) && cache == old(cache)
                           && counters == old(counters) && events == old(events)
      ensures var q := Lookup(old(queues), userId);
        var k := Taken(q, f.drainStop);
        !f.broker ==>
          && queues == old(queues)[userId := q[k..]]
          && cache == (if f.cache then old(cache) else CachedAll(old(cache), q[..k]))
      ensures var q := Lookup(old(queues), userId);
        var drainedCounters := if f.cache then old(counters) else CountedAll(old(counters), q[..Taken(q, f.drainStop)]);
        !f.broker && DrainThrows(q, f.drainStop) ==>
          !success && items == [] && counters == drainedCounters && events == old(events)
      ensures var q := Lookup(old(queues), userId);
        var drainedCounters := if f.cache then old(counters) else CountedAll(old(counters), q);
        var found := if q == [] then Take(CacheRead(cache, userId, f.cache), 20) else q;
        !f.broker && !DrainThrows(q, f.drainStop) ==>
          && (success <==> !(f.push && found != []))
          && items == (if success then found else [])
          && counters == (if found == [] then drainedCounters else CountWrittenBack(cache, drainedCounters, userId, f.cache))
          && events == old(events) +
               (if success && found != []
                then [ReceiveNotificationsWithCount(userId, CountRead(cache, drainedCounters, userId, f.cache), found)]
                else [])
    {
      if f.broker {
        return false, [];
      }
      var drained, complete := Drain(userId, f.cache, f.drainStop);
      if !complete {
        return false, [];
      }
      items := drained;
      if items == [] {
        items := Take(CacheRead(cache, userId, f.cache), 20);
      }
      if items != [] {
        var count := ReadUnreadCount(userId, f.cache);
        if f.push {
          return false, [];
        }
        events := events + [ReceiveNotificationsWithCount(userId, count, items)];
      }
      success := true;
    }

    /**
     * Database first: when the store reports no row marked, the call fails before touching the
     * cache or pushing. Otherwise the notification is dropped from the user's cached list and
     * its counter (a cache fault is only logged), and a confirmation is pushed with the cache's
     * unread count.
     */
    method MarkNotificationAsRead(userId: int, notificationId: int, f: Faults) returns (ok: bool)
      modifies this, repo
      ensures var stored := !f.db && HasId(old(repo.rows), notificationId);
        var deleted := if f.cache then old(counters) else Decremented(old(cache), old(counters), userId, notificationId);
        && repo.rows == (if f.db then old(repo.rows) else MarkIdRead(old(repo.rows), notificationId))
        && (!stored ==> !ok && cache == old(cache) && counters == old(counters) && events == old(events))
        && (stored ==> ok == !f.push)
        && (stored ==> cache == if f.cache then old(cache) else Uncached(old(cache), userId, notificationId))
        && (stored ==> counters == CountWrittenBack(cache, deleted, userId, f.cache))
        && (stored ==>
              events == old(events) +
                (if f.push then [] else [NotificationMarkedAsRead(userId, notificationId, CountRead(cache, deleted, userId, f.cache))]))
      ensures !f.db && HasId(old(repo.rows), notificationId) && !f.cache && !f.push
              && CounterAgrees(old(cache), old(counters), userId) && DistinctIds(Lookup(old(cache), userId)) ==>
                events == old(events) + [NotificationMarkedAsRead(userId, notificationId, CachedUnread(cache, userId))]
      ensures queues == old(queues)
    {
      var dbResult := repo.MarkNotificationAsRead(notificationId, f.db);
      if !dbResult {
        return false;
      }
      if !f.cache && CounterAgrees(cache, counters, userId) && DistinctIds(Lookup(cache, userId)) {
        DeleteKeepsAgreement(cache, counters, userId, notificationId);
      }
      var cacheResult := DeleteCached(userId, notificationId, f.cache);
      var count := ReadUnreadCount(userId, f.cache);
      if f.push {
        return false;
      }
      events := events + [NotificationMarkedAsRead(userId, notificationId, count)];
      ok := true;
    }

    /**
     * `DeleteNotification` of the cache: true when the user's list held the notification; every
     * copy leaves the list, and the counter drops at most once.
     */
    method DeleteCached(userId: int, notificationId: int, cacheFault: bool) returns (found: bool)
      modifies this
      ensures found <==> !cacheFault && CachesId(old(cache), userId, notificationId)
      ensures cache == if cacheFault then old(cache) else Uncached(old(cache), userId, notificationId)
      ensures counters == if cacheFault then old(counters) else Decremented(old(cache), old(counters), userId, notificationId)
      ensures queues == old(queues) && events == old(events)
    {
      if cacheFault {
        return false;
      }
      found := CachesId(cache, userId, notificationId);
      counters := Decremented(cache, counters, userId, notificationId);
      cache := Uncached(cache, userId, notificationId);
    }

    /**
     * Database first, as in `MarkNotificationAsRead`; then the user's cached list and, when
     * that list was not empty, the counter are deleted (a cache fault is only logged), and
     * `AllNotificationsMarkedAsRead` is pushed with count 0.
     */
    method MarkAllNotificationsAsRead(userId: int, f: Faults) returns (ok: bool)
      modifies this, repo
      ensures f.db ==> !ok && repo.rows == old(repo.rows) && cache == old(cache) && counters == old(counters)
                       && events == old(events)
      ensures !f.db ==> repo.rows == MarkAllRead(old(repo.rows), userId)
      ensures !f.db ==> ok == !f.push
      ensures !f.db ==> cache == if f.cache then old(cache) else old(cache) - {userId}
      ensures !f.db ==> counters == if f.cache || Lookup(old(cache), userId) == [] then old(counters)
                                    else old(counters) - {userId}
      ensures !f.db && !f.cache ==> CachedUnread(cache, userId) == 0
      ensures !f.db && !f.cache && Lookup(old(cache), userId) != [] ==> Counter(counters, userId) == 0
      ensures !f.db ==> events == old(events) + (if f.push then [] else [AllNotificationsMarkedAsRead(userId, 0)])
      ensures queues == old(queues)
    {
      var dbResult := repo.MarkAllNotificationsAsRead(userId, f.db);
      if !dbResult {
        return false;
      }
      if !f.cache {
        if Lookup(cache, userId) != [] {
          counters := counters - {userId};
        }
        cache := cache - {userId};
      }
      if f.push {
        return false;
      }
      events := events + [AllNotificationsMarkedAsRead(userId, 0)];
      ok := true;
    }
  }
}
