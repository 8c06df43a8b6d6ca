# Task management system: repositories and services, modelled in Dafny

This project models the data layer and the two server-side services of a task management web
application. The application's PostgreSQL tables are the fields of a `Database` object, and its
tables for notifications and chat messages are held by their repositories. Each repository or
service is a class whose methods change those fields the way its SQL statements change the
tables:

- **tasks**: listing, adding, deleting and updating. Deletion and updating follow the creator's
  role. An administrator's task may not be deleted by a user, and an update to it changes only its
  status.
- **authentication**: registration, login, profile update, password change, and account deletion
  inside a transaction.
- **administrator repository**: the user and task lists, assigning, deleting and updating tasks.
- **notifications**: the repository of the `t_notifications` table and the notification service.
  The service writes a notification to the database, the message broker queue, the per-user cache
  and the real-time push channel. It also reads, merges and marks notifications.
- **chat**: saving a message, publishing it, caching it per conversation, and reading a
  conversation's history with a cache backfill.

The vocabulary shared by the queries lives in `tables.dfy`:

- `Where` is a `WHERE` clause.
- `First` is the first row a reader sees.
- `UpdateWhere` is an `UPDATE … WHERE`.
- `SortDesc` and `Take` are `ORDER BY … DESC` and `LIMIT`.
- `ReadPrefix` and `ReadRows` are a reader loop that stops at the first row it cannot read.

The outside world is passed in as parameters:

- A failing database, broker, cache or push channel is a `Faults` value or a `dbFault` flag.
  A broker exception in the middle of a drain is the number of messages taken before it.
- The clock is a `now` argument.
- The random notification id is an `id` argument.
- The password hash function is a `hash` constant of the `Auth` class.

A thrown exception is the `Threw` case of an `Outcome`. A null result is `None`.

Some behaviours of the code are modelled as written:

- The notification row stores the **sender** in `c_user_id`. The repository's per-user queries
  filter on that column. So "mark all read" and the unread count for a user reach the
  notifications that user *triggered*, not the ones they received. `UserQueriesSeeTheSender`
  proves this for any table and any two distinct users. The table under "## Findings" lists
  this and three other such behaviours with a corrected definition beside each.
- `TaskRepository.GetAllTasks` lists the tasks assigned to user 2. The query fixes that id.
- Two kinds of reader loop read a `NULL` column with a non-null getter, and that getter throws:
  - The administrator and notification repositories catch the exception. They return the rows read
    before it (`ReadPrefix`).
  - The user and task repositories let it propagate (`Threw(NullColumn)`).

## Model

| member | source | states |
|---|---|---|
| Tables.WhereMembership | Repositories/Implementation/AdminRepo/AdminRepo.cs:174 | a row is in the filtered table exactly when it is in the table and satisfies the condition |
| Tables.WherePrefix | Repositories/Implementation/AdminRepo/NotificationRepo.cs:58-63 | filtering keeps the order of the table: filtering a prefix gives a prefix of the result |
| Tables.WhereAppend | Repositories/Implementation/AdminRepo/NotificationRepo.cs:21-23 | an appended row appears at the end of a filtered listing exactly when it satisfies the condition |
| Tables.WhereEvery | API/Services/NotificationService.cs:232 | a condition every row satisfies selects the whole table |
| Tables.WhereNone | Repositories/Implementation/AdminRepo/NotificationRepo.cs:136 | a filter matches no row when no row satisfies its condition |
| Tables.WhereDrops | Repositories/Implementation/TaskRepository.cs:214-221 | a `DELETE … WHERE` removes some row exactly when some row matches |
| Tables.WhereNonEmpty | Repositories/Implementation/UserRepo/UserRepo.cs:212 | a query returns a row exactly when some row satisfies its condition |
| Tables.WhereSameCondition | API/Services/ChartServices.cs:58 | two conditions that agree on every row select the same rows |
| Tables.InsertDescPermutes | Repositories/Implementation/TaskRepository.cs:60 | inserting into the ordered list keeps exactly the same rows |
| Tables.InsertDescSorted | Repositories/Implementation/TaskRepository.cs:60 | inserting into a list ordered newest first keeps it ordered |
| Tables.SortDescFacts | Repositories/Implementation/TaskRepository.cs:60 | `ORDER BY … DESC` returns a permutation of its input, ordered by the key, highest first |
| Tables.First | Repositories/Implementation/UserRepo/UserRepo.cs:212 | the first matching row exists exactly when some row matches, and no earlier row matches |
| Tables.FirstAppend | Repositories/Implementation/UserRepo/UserRepo.cs:212 | the first match in a concatenation is the first part's match when it has one, else the second part's |
| Tables.UpdateWhereFirst | Repositories/Implementation/UserRepo/UserRepo.cs:224-233 | after an `UPDATE … WHERE` that keeps the condition true, the first matching row is the updated old first match |
| Tables.ReadPrefix | Repositories/Implementation/AdminRepo/AdminRepo.cs:30-62 | the rows read are a prefix of the result set, all readable, and stop only at an unreadable row |
| Tables.ReadPrefixUnique | Repositories/Implementation/AdminRepo/AdminRepo.cs:30-62 | the rows read are fixed by the result set: any readable prefix that stops at an unreadable row is that prefix |
| Tables.ReadPrefixComplete | Repositories/Implementation/AdminRepo/NotificationRepo.cs:75-98 | the reader returns the whole result set exactly when every row is readable |
| Tables.ReadPrefixOfWhere | Repositories/Implementation/AdminRepo/AdminRepo.cs:174-213 | every row a catching reader returns is in the table and matches; if every match is readable, it returns all of them |
| Tables.ReadRows | Repositories/Implementation/AdminRepo/NotificationRepo.cs:75-89 | the reader loop returns exactly the readable prefix, and says whether it read every row |
| Text.NatToString | API/Services/NotificationService.cs:48 | a number's decimal text is non-empty and all digits |
| Text.IntToString | API/Services/NotificationService.cs:48 | an id's text is non-empty and ends in a digit |
| Text.Lower | Repositories/Implementation/Auth.cs:340 | lower-casing keeps the length of the text |
| Text.LowerIdempotent | Repositories/Implementation/Auth.cs:101 | lower-casing twice is lower-casing once |
| Text.LowerIsAdmin | Repositories/Implementation/UserRepo/UserRepo.cs:220 | a role reads as "admin" case-insensitively exactly when its five letters are a-d-m-i-n in either case |
| NotificationModel.DeclaredTypesAreFive | Repositories/Model/AdminModels/NotificationModel.cs:8-15 | there are exactly five declared notification types, and they are the types that are not undeclared values; an undeclared value carries a code outside 0 to 4 |
| NotificationModel.TypeIcon | Repositories/Model/AdminModels/NotificationModel.cs:30-44 | the generic bell icon is shown exactly for a value outside the declared types |
| NotificationModel.TypeIconInjective | Repositories/Model/AdminModels/NotificationModel.cs:36-41 | distinct declared types show distinct icons |
| NotificationRepo.NotificationRepo.CreateNotification | Repositories/Implementation/AdminRepo/NotificationRepo.cs:19-53 | the insert succeeds exactly when the database works and the type casts to the enum, and then the row is appended |
| NotificationRepo.NotificationRepo.GetUserNotifications | Repositories/Implementation/AdminRepo/NotificationRepo.cs:55-103 | the user's listing is the readable prefix of their rows, newest first and limited, or empty on a fault |
| NotificationRepo.NotificationRepo.MarkNotificationAsRead | Repositories/Implementation/AdminRepo/NotificationRepo.cs:105-131 | reports success exactly when the id is stored, and sets that row's read flag |
| NotificationRepo.NotificationRepo.MarkAllNotificationsAsRead | Repositories/Implementation/AdminRepo/NotificationRepo.cs:133-158 | succeeds whenever the database works, and marks read every unread row of the user |
| NotificationRepo.NotificationRepo.GetUnreadNotificationCount | Repositories/Implementation/AdminRepo/NotificationRepo.cs:160-183 | the count of the user's unread rows, never negative, or 0 on a fault |
| NotificationRepo.ListingFacts | Repositories/Implementation/AdminRepo/NotificationRepo.cs:58-63 | the listing holds only the user's rows, newest first, and is as long as the smaller of the limit and the user's row count |
| NotificationRepo.ListingFullyRead | Repositories/Implementation/AdminRepo/NotificationRepo.cs:75-89 | when every stored type parses, the reader returns the whole listing |
| NotificationRepo.CreateCountsOnce | Repositories/Implementation/AdminRepo/NotificationRepo.cs:21-23 | an insert raises the owner's unread count by one when the row is unread, and no other user's |
| NotificationRepo.MarkAllReadClearsUnread | Repositories/Implementation/AdminRepo/NotificationRepo.cs:136 | after "mark all read" the user's unread count is 0 |
| NotificationRepo.MarkAllReadLeavesOthers | Repositories/Implementation/AdminRepo/NotificationRepo.cs:136 | "mark all read" leaves other users' rows unchanged, and changes nothing but the read flag |
| NotificationRepo.MarkAllReadIdempotent | Repositories/Implementation/AdminRepo/NotificationRepo.cs:136 | marking all read twice is marking all read once |
| NotificationRepo.MarkIdReadIdempotent | Repositories/Implementation/AdminRepo/NotificationRepo.cs:109 | marking one notification read twice is marking it once, and never raises an unread count |
| NotificationRepo.MarkIdReadNotMore | Repositories/Implementation/AdminRepo/NotificationRepo.cs:109 | marking one notification read never raises any user's unread count |
| NotificationRepo.ReceivedCountsOnce | Repositories/Implementation/AdminRepo/NotificationRepo.cs:162 | corrected: keyed on the recipient, an insert raises the recipient's unread count by one when the row is unread, and no other user's |
| NotificationRepo.MarkAllReceivedReadClears | Repositories/Implementation/AdminRepo/NotificationRepo.cs:136 | corrected: after marking all received notifications read the user has none unread, and other recipients' rows are unchanged |
| NotificationRepo.MarkIdReadForOwnOnly | Repositories/Implementation/AdminRepo/NotificationRepo.cs:109 | corrected: marking by id and recipient changes only the caller's rows with that id, marks each read, and keeps every other user's unread count |
| NotificationService.MessageAddressesRecipient | API/Services/NotificationService.cs:46-51 | an update or delete message ends in "you" exactly when the sender is the recipient |
| NotificationService.MessageCreatedIgnoresParties | API/Services/NotificationService.cs:44-45 | the creation message is the same whoever sends or receives it, and is addressed to "you" |
| NotificationService.MessageDefaultIsGeneric | API/Services/NotificationService.cs:53-54 | every type other than the three task events renders the same generic message |
| NotificationService.MessageQuotesTitle | API/Services/NotificationService.cs:42-56 | every message starts with "New task" or "Task" followed by the quoted task title |
| NotificationService.BuildNotification | API/Services/NotificationService.cs:58-68 | the notification records the sender and recipient, the task, the type and the rendered message, and is unread |
| NotificationService.UserQueriesSeeTheSender | API/Services/NotificationService.cs:62 | as written, for any table and distinct sender and recipient, a sent notification raises the sender's unread count by one, leaves the recipient's unchanged, and stays unread after the recipient's "mark all read" |
| NotificationService.SendReachesRecipient | API/Services/NotificationService.cs:62-63 | corrected: keyed on the recipient, a sent notification raises the recipient's unread count by exactly one and no other user's, and the recipient's "mark all read" marks it read and clears the count |
| NotificationService.MarkByIdReachesOtherRecipients | Repositories/Implementation/AdminRepo/NotificationRepo.cs:109 | as written, marking by id alone marks another recipient's unread notification read, dropping their unread count from 1 to 0 |
| NotificationService.MarkByIdForCallerOnly | API/Services/NotificationService.cs:219-224 | corrected: a caller who did not receive the notification leaves it unread and the recipient's count at 1 |
| NotificationService.CachedCountsOnce | API/Services/NotificationService.cs:78 | caching a notification raises only its recipient's cached unread count, by one when it is unread |
| NotificationService.MergeFacts | API/Services/NotificationService.cs:131 | the merge is the drained notifications in queue order followed by the first cached copy of each id not drained, in cached order; it holds the ids of both inputs; and it repeats no id when the drained list repeats none, whatever the cache holds |
| NotificationService.MergeKeeps | API/Services/NotificationService.cs:131 | the merge keeps its starting list as a prefix, gains exactly the cached ids, and adds no id already present |
| NotificationService.MergeAppendOne | API/Services/NotificationService.cs:131 | one more cached notification joins the merge exactly when its id is not yet in the list built so far |
| NotificationService.MergeIsFirstCopies | API/Services/NotificationService.cs:131 | the growing-list merge equals the list followed by the first cached copy of each new id |
| NotificationService.FirstCopiesAreFirst | API/Services/NotificationService.cs:131 | each cached notification kept has an id the list lacked and is the first cached notification with that id |
| NotificationService.RepeatedHeadMergesOnce | API/Services/NotificationService.cs:131 | a cached list starting with two copies of one notification merges into one copy of it, first, with no repeated id |
| NotificationService.SendThenDrainCachesTwice | API/Services/NotificationService.cs:78-123 | as written, a notification sent and then drained is cached twice: the recipient's list holds it twice and the cached count counts it twice; the first 20 cached entries, which `GetNotifications` falls back to, hold both copies, while the reconciliation merge keeps one |
| NotificationService.CachedOnceFacts | API/Services/NotificationService.cs:78-123 | corrected: caching once leaves the id in the recipient's list, is idempotent, and keeps every list free of repeated ids |
| NotificationService.SendThenDrainCachesOnce | API/Services/NotificationService.cs:78-123 | corrected: a notification sent and then drained is cached once and counted once |
| NotificationService.CountRead | API/Services/NotificationService.cs:85 | the cache's unread count is the counter when it is positive and the recount of the cached list otherwise, 0 when the read fails; when the counter agrees with the recount, the count is the number of unread cached notifications |
| NotificationService.CountedKeepsAgreement | API/Services/NotificationService.cs:78 | caching a notification raises the counter exactly as it raises the recount of the list, so a counter that agreed with the list still agrees |
| NotificationService.UncachedCount | API/Services/NotificationService.cs:232 | deleting an id from a cached list lowers its recount by exactly the number of unread copies of that id |
| NotificationService.CopiesAtMostOne | API/Services/NotificationService.cs:232 | a cached list without repeated ids holds at most one unread copy of an id |
| NotificationService.FirstCopyCount | API/Services/NotificationService.cs:232 | in a list without repeated ids, the unread copies of an id are its stored copy when that is unread, and none otherwise |
| NotificationService.DeleteKeepsAgreement | API/Services/NotificationService.cs:232-246 | when the user's list has no repeated id, deleting a notification lowers the counter exactly as it lowers the recount, so the pushed count stays the number of unread cached notifications |
| NotificationService.UncachedHead | API/Services/NotificationService.cs:232 | deleting an id whose unread copies head the list lowers the recount by the number of those copies |
| NotificationService.DoubleCacheCounterDrifts | API/Services/NotificationService.cs:78-123 | as written, a notification cached on send and again on drain and then deleted on "mark read" leaves the counter one above the recount: the count pushed from then on is one too high |
| NotificationService.CacheOnceCounterExact | API/Services/NotificationService.cs:78-123 | corrected: cached once and then deleted, the notification leaves the counter equal to the recount, and the pushed count is the number of unread cached notifications |
| NotificationService.Taken | API/Services/NotificationService.cs:114-126 | the drain takes every queued message unless the broker throws first, and then only the messages before the exception |
| NotificationService.NotificationService.constructor | API/Services/NotificationService.cs:23-34 | a service starts with empty queues, cache, counters and push log |
| NotificationService.NotificationService.SendTaskNotification | API/Services/NotificationService.cs:37-96 | the notification is stored unless that store fails, and queued and cached unless the broker or cache fails; the recipient's queue then holds it; caching raises the recipient's counter, and the push carries that counter (its old value plus one), or 0 when the cache fails; the result reports the push |
| NotificationService.NotificationService.ReadUnreadCount | API/Services/NotificationService.cs:85 | returns the counter when positive, otherwise the recount of the list, which it stores as the counter when positive, so the next read returns the same count |
| NotificationService.NotificationService.Drain | API/Services/NotificationService.cs:114-126 | draining takes the user's queue in order, caching and counting each message, until the queue is empty or the broker throws; the messages taken leave the queue, the rest stay, and the result says whether the queue was emptied |
| NotificationService.NotificationService.GetUserNotifications | API/Services/NotificationService.cs:102-148 | returns and pushes the drained notifications in queue order, followed by the first cached copy of each id not drained (none when the cache read fails); fails, returning nothing, when the broker cannot open the queue, throws during the drain (the messages taken before stay cached and acknowledged) or the push fails; a successful result starts with the drained queue |
| NotificationService.NotificationService.GetNotifications | API/Services/NotificationService.cs:157-217 | returns the drained notifications, or when none arrived the first 20 cached ones (none when the cache read fails), and pushes them with the cache's unread count, whose read may store a recount; a broker exception during the drain fails the call after the messages taken were cached |
| NotificationService.NotificationService.MarkNotificationAsRead | API/Services/NotificationService.cs:219-256 | when the database marks the id, the notification leaves the user's cache and the counter drops at most once, and the cache's unread count, 0 when the cache fails, is pushed; when the counter agreed with a list without repeated ids, the pushed count is the number of unread cached notifications left; otherwise nothing else changes |
| NotificationService.NotificationService.DeleteCached | API/Services/NotificationService.cs:232-237 | removes every copy of the notification from the user's cached list, lowers the counter once when the stored copy was unread and the counter positive, and reports whether the list held it |
| NotificationService.NotificationService.MarkAllNotificationsAsRead | API/Services/NotificationService.cs:258-291 | after the database update, the user's cache list is dropped, so the recount is 0, and the counter is deleted only when that list was not empty; a count of 0 is pushed |
| Schema.Database.constructor | Repositories/Implementation/TaskRepository.cs:139-152 | the tables start empty, with the id sequences at 1 |
| Schema.RemoveTaskFacts | Repositories/Implementation/TaskRepository.cs:214-221 | deleting by id keeps exactly the other rows, shrinks the table exactly when the id was stored, and leaves no row with that id |
| Schema.AppendedIsFirst | Repositories/Implementation/TaskRepository.cs:139-152 | a row appended with a fresh sequence id is the one a lookup by that id finds |
| Schema.TaskIdsBelowWhere | Repositories/Implementation/TaskRepository.cs:214-221 | a `DELETE` keeps every remaining task id below the task id sequence |
| Schema.UserIdsBelowWhere | Repositories/Implementation/Auth.cs:410-428 | deleting accounts keeps every remaining user id below the user id sequence |
| TaskPolicy.CreatorRoleOf | Repositories/Implementation/UserRepo/UserRepo.cs:203-215 | the creator's role is missing exactly when no task has the id, and a found role is that of the task's creator |
| TaskPolicy.RevisedFollowsPolicy | Repositories/Implementation/UserRepo/UserRepo.cs:221-284 | an update keeps the id, stamps the time, takes the editable fields from the edit, and keeps the rest |
| TaskPolicy.ReviseRowsFacts | Repositories/Implementation/TaskRepository.cs:377-433 | the update changes only the rows with that id, and the task then read is the revised old task |
| TaskPolicy.ReviseRowsKeepsIdsBelow | Repositories/Implementation/TaskRepository.cs:377-433 | a task update keeps every task id below the task id sequence |
| TaskPolicy.ReadTaskList | Repositories/Implementation/TaskRepository.cs:68-77 | the strict reader returns every row when all columns are set, and otherwise throws |
| TaskPolicy.NewTaskKeepsFields | Repositories/Implementation/TaskRepository.cs:139-174 | an inserted task has the new id, the given fields and both time stamps at the insert time |
| TaskPolicy.InsertTask | Repositories/Implementation/TaskRepository.cs:134-182 | appends the new task with the next id, which a lookup then finds; keeps every stored id below its id sequence |
| TaskPolicy.DeleteUnlessAdminCreated | Repositories/Implementation/TaskRepository.cs:185-227 | refuses a task created by an administrator; otherwise deletes by id, reporting whether a row went; keeps every stored id below its id sequence |
| TaskPolicy.UpdateByCreatorRole | Repositories/Implementation/TaskRepository.cs:349-465 | no task gives null; a missing creator role throws; otherwise the task is revised by the creator's role and returned; keeps every stored id below its id sequence |
| UserRepo.AssignedToExactly | Repositories/Implementation/UserRepo/UserRepo.cs:31 | the user's list holds exactly the tasks assigned to them |
| UserRepo.UserRepo.constructor | Repositories/Implementation/UserRepo/UserRepo.cs:18-21 | the repository works on the given database |
| UserRepo.UserRepo.GetAllTasks | Repositories/Implementation/UserRepo/UserRepo.cs:23-59 | the tasks assigned to the user, or a throw when one has a null column |
| UserRepo.UserRepo.AddTask | Repositories/Implementation/UserRepo/UserRepo.cs:100-148 | appends the new task with the next id and returns it; keeps every stored id below its id sequence |
| UserRepo.UserRepo.DeleteTask | Repositories/Implementation/UserRepo/UserRepo.cs:151-193 | refuses an administrator's task; otherwise deletes by id, reporting whether a row went; keeps every stored id below its id sequence |
| UserRepo.UserRepo.UpdateTask | Repositories/Implementation/UserRepo/UserRepo.cs:196-316 | revises by the creator's role; the administrator branch throws after the update when the revised row lacks a creator or assignee; keeps every stored id below its id sequence |
| TaskRepository.TaskListFacts | Repositories/Implementation/TaskRepository.cs:60 | the list is a permutation of the tasks assigned to user 2, newest first |
| TaskRepository.TaskRepository.constructor | Repositories/Implementation/TaskRepository.cs:12-15 | the repository works on the given database |
| TaskRepository.TaskRepository.GetAllTasks | Repositories/Implementation/TaskRepository.cs:53-86 | the ordered list of user 2's tasks, or a throw when one has a null column |
| TaskRepository.TaskRepository.AddTask | Repositories/Implementation/TaskRepository.cs:134-182 | appends the new task with the next id and returns it; keeps every stored id below its id sequence |
| TaskRepository.TaskRepository.DeleteTask | Repositories/Implementation/TaskRepository.cs:185-227 | refuses an administrator's task; otherwise deletes by id, reporting whether a row went; keeps every stored id below its id sequence |
| TaskRepository.TaskRepository.UpdateTask | Repositories/Implementation/TaskRepository.cs:349-465 | no task gives null; a missing creator role throws; otherwise the task is revised by the creator's role and returned; keeps every stored id below its id sequence |
| AdminRepo.UserListFacts | Repositories/Implementation/AdminRepo/AdminRepo.cs:22-69 | the user list holds only plain users; when all their names are set, it holds all of them |
| AdminRepo.CreatorListFacts | Repositories/Implementation/AdminRepo/AdminRepo.cs:172-213 | the list holds only tasks the user created; when all have descriptions, it holds all of them |
| AdminRepo.PairListFacts | Repositories/Implementation/AdminRepo/AdminRepo.cs:365-416 | the list holds only tasks of that creator and assignee; when all have descriptions, it holds all of them |
| AdminRepo.AdminRepo.constructor | Repositories/Implementation/AdminRepo/AdminRepo.cs:16-19 | the repository works on the given database |
| AdminRepo.AdminRepo.GetAllUsers | Repositories/Implementation/AdminRepo/AdminRepo.cs:22-69 | the readable prefix of the plain users, or empty on a fault |
| AdminRepo.AdminRepo.GetTasksByUserId | Repositories/Implementation/AdminRepo/AdminRepo.cs:172-214 | the readable prefix of the tasks the user created, or empty on a fault |
| AdminRepo.AdminRepo.GetTasksByCreatorAndAssignee | Repositories/Implementation/AdminRepo/AdminRepo.cs:365-417 | the readable prefix of the tasks of that creator and assignee, or empty on a fault |
| AdminRepo.AdminRepo.AssignTask | Repositories/Implementation/AdminRepo/AdminRepo.cs:219-262 | -1 on a fault or a missing description; otherwise the new id, with the row appended and found by it; keeps every stored id below its id sequence |
| AdminRepo.AdminRepo.DeleteTaskAsync | Repositories/Implementation/AdminRepo/AdminRepo.cs:267-308 | "Not Found" when no row has the id; otherwise the row goes, and its creator, assignee and title are returned, or "Error" when one is null; keeps every stored id below its id sequence |
| AdminRepo.AdminRepo.UpdateTask | Repositories/Implementation/AdminRepo/AdminRepo.cs:314-356 | -1 on a fault, a missing description or an unknown id; otherwise the task's editable fields are overwritten and its id returned; keeps every stored id below its id sequence |
| Auth.RoleText | Repositories/Implementation/Auth.cs:340 | the stored role name is already lower case |
| Auth.StampLoginOnlyThatUser | Repositories/Implementation/Auth.cs:163-172 | the login stamp sets the last login of that user's rows only and changes nothing else |
| Auth.RegisteredIsFoundAtLogin | Repositories/Implementation/Auth.cs:46-110 | a freshly registered account is the row a login with its username finds, with no role or role "user" |
| Auth.UpdateChangesOnlySupplied | Repositories/Implementation/Auth.cs:278-310 | a profile update sets every supplied column, changes no other column, and stamps the time |
| Auth.UpdateIdempotent | Repositories/Implementation/Auth.cs:278-348 | applying the same profile update twice is applying it once |
| Auth.BuiltUpdateIsUpdater | Repositories/Implementation/Auth.cs:278-348 | the `UPDATE` built from the SET list applies the profile update to that user's rows |
| Auth.UpdateKeepsIdsBelow | Repositories/Implementation/Auth.cs:278-348 | a profile update keeps every user id below the user id sequence |
| Auth.DeleteLeavesNoTrace | Repositories/Implementation/Auth.cs:410-428 | after deletion no account row has the id, and every kept session belongs to another user |
| Auth.ColumnList | Repositories/Implementation/Auth.cs:278-310 | the SET list names exactly the supplied columns |
| Auth.Auth.constructor | Repositories/Implementation/Auth.cs:16-19 | the service works on the given database and hash function |
| Auth.Auth.RegisterUserAsync | Repositories/Implementation/Auth.cs:21-81 | a taken username or email throws and changes nothing; otherwise the account is appended with the hash and returned; keeps every stored id below its id sequence |
| Auth.Auth.LoginUserAsync | Repositories/Implementation/Auth.cs:83-160 | succeeds exactly when the first matching account's hash verifies; the user is returned with the role asked for and the login is stamped; otherwise throws; keeps every stored id below its id sequence |
| Auth.Auth.UpdateUserAsync | Repositories/Implementation/Auth.cs:257-354 | null for an unknown user; otherwise that user's rows are updated and the updated account returned; keeps every stored id below its id sequence |
| Auth.Auth.ChangePasswordAsync | Repositories/Implementation/Auth.cs:356-397 | succeeds exactly when the current password verifies, after which the new password verifies; keeps every stored id below its id sequence |
| Auth.Auth.DeleteUserAsync | Repositories/Implementation/Auth.cs:399-441 | deletes the account and its sessions when the account exists; otherwise rolls back to the old tables; keeps every stored id below its id sequence |
| ChatService.StoredHistoryFacts | API/Services/ChartServices.cs:58 | for the assumed store query, keyed on the unordered pair of participants: the history holds the messages between the two users in either direction, and is the same whichever user asks |
| ChatService.Draft | API/Services/ChartServices.cs:30-36 | a new message is unread |
| ChatService.ChatService.constructor | API/Services/ChartServices.cs:21-26 | the service starts with no messages, an empty cache and nothing published |
| ChatService.ChatService.SaveChatMessage | API/Services/ChartServices.cs:39 | the message is stored with the next id |
| ChatService.ChatService.SendMessageAsync | API/Services/ChartServices.cs:28-48 | the message is stored with the next id, published, appended to its conversation's cache and returned |
| ChatService.ChatService.GetChatHistoryAsync | API/Services/ChartServices.cs:50-64 | a cached conversation is served from the cache; otherwise the stored history is read and, when non-empty, cached; with the assumed cache keyed on the unordered pair, the next read from either participant finds it |

## Left out

- **Dropped concerns:** JSON serialisation, SignalR hub internals, and the internals of the Redis
  and RabbitMQ client services, including key expiry and connection handling. The broker queue is
  a FIFO list per recipient. The notification cache is a newest-first list per recipient with a
  separate unread counter per recipient, updated as the cache service's `CacheNotification`,
  `GetUnreadNotificationCount`, `DeleteNotification` and `DeleteAllNotifications` update the
  counter key; the per-id blobs are the list entries themselves. The chat cache is an
  append-order list per conversation. `RabbitMQService` and `NotificationHub` are not part of
  this model.
- **Consumer:** the background consumer `RabbitMQConsumerService`, the controllers and the MVC
  client are not modelled.
- **Clocks and randomness:** clocks (`DateTime.UtcNow`) and the random notification id are
  parameters. The password hash, SHA-256 then Base64 in the source
  (Repositories/Implementation/Auth.cs:516-522), is `Auth.hash`, any deterministic function
  fixed when the service is built; `VerifyPassword` hashes the password and compares.
- **Text:** lower-casing is modelled for ASCII letters only, with no culture rules.
- **SQL type checks:** casts to the database enums are modelled only where the code relies on
  them, namely the notification type.
- **Row order:** a query without `ORDER BY` returns rows in storage order. `ORDER BY … DESC`
  keeps ties in storage order; PostgreSQL does not promise that.
- **Npgsql nulls:** a bare `null` parameter value makes the statement fail. This is modelled for
  the description in `AdminRepo.AssignTask` and `AdminRepo.UpdateTask`; both return -1. The title
  is passed bare too (Repositories/Implementation/UserRepo/UserRepo.cs:112 and 279,
  Repositories/Implementation/TaskRepository.cs:146 and 428,
  Repositories/Implementation/AdminRepo/AdminRepo.cs:233 and 332). A task's title is a `string`
  in the model and cannot be null, so the null-title outcome is not modelled: `AssignTask` and
  `UpdateTask` of `AdminRepo` would return -1, and the other repositories' inserts and updates
  would throw.
- **Connection failures:** these are not modelled in the user repository, the task repository
  and `Auth`. Those classes do not catch them, so they only propagate.
- **Reads not modelled:** `GetSystemStatisticsAsync`, `GetTaskById`, `GetUserByIdAsync`
  (modelled only as the re-read inside `UpdateUserAsync`) and `GetAllUsersAsync` of `Auth` are
  not modelled. They are plain reads with no state change.
- Auth.Auth.DeleteUserAsync: a failure inside the transaction is not modelled. Its catch rolls
  back and leaves the tables unchanged, which the model does not show.
- NotificationService.NotificationService.SendTaskNotification: one cache flag covers every
  cache write and read of the call. The cache service catches each failure separately, so a
  write that succeeds followed by a read that fails is not modelled. The same holds for
  `GetUserNotifications`, `GetNotifications` and `MarkNotificationAsRead`. A failing read is
  modelled as the empty list or the count 0 that the cache service returns.
- NotificationService.NotificationService.GetUserNotifications: the broker exception inside the
  drain loop is modelled at a `BasicGet`, after the messages before it were cached and
  acknowledged. An exception at `BasicAck`, after a message was cached but before it was
  acknowledged, leaves that message both cached and queued; the model does not show that
  outcome. The same holds for `GetNotifications`.
- ChatService.ChatService.GetChatHistoryAsync: the chat store and the chat cache are assumed
  collaborators. `UserInterface` declares no `SaveChatMessageAsync` or `GetChatHistoryAsync`
  (Repositories/Interface/UserInterface.cs:9-18), and `RedisService` has no `CacheChatMessage`
  or `GetChatHistory`; none of them is defined in the repository. The model assumes a store query
  and a cache that are both keyed on the unordered pair of participants. That the history is
  the same whichever participant asks, and that a back-filled history serves the next read
  from either side, follow from that assumption, not from the code. `SendMessageAsync` and
  `SaveChatMessage` rest on the same assumption.
- Auth.Auth.UpdateUserAsync: the role is written as lower-case text to the enum column
  `c_role` (Repositories/Implementation/Auth.cs:302 and 340), and the model takes that write to
  succeed. If PostgreSQL rejects text for the `user_role` column, the statement fails, the call
  throws and nothing changes; the model does not capture that.

## Findings

The repository and service classes keep the behaviour as written. Each corrected definition
stands beside them, with the intended property proved about it.

| source | as written | input that shows it | evidently intended | confidence | as-written member | corrected member |
|---|---|---|---|---|---|---|
| Repositories/Implementation/AdminRepo/NotificationRepo.cs:136 | the row stores the sender in `c_user_id` (API/Services/NotificationService.cs:62), and "mark all read" and the unread count (line 162) filter on `c_user_id` | user 1 sends a notification to user 2: user 2's unread count is unchanged and their "mark all read" leaves it unread, while user 1's count rises by one | the recipient's queries filter on `c_related_user_id` | medium, not executed | NotificationService.UserQueriesSeeTheSender | NotificationService.SendReachesRecipient |
| API/Services/NotificationService.cs:78-123 | the notification is cached when sent (line 78) and again when drained (line 123); the cache pushes the id without checking for it | a send from user 1 to user 2 with an empty queue, then `GetUserNotifications(2)`: user 2's cached list holds it twice and its cached count counts it twice; a later `GetNotifications(2)` with nothing queued returns both copies (API/Services/NotificationService.cs:189-194), while `GetUserNotifications` keeps one | each notification is cached once | high, not executed | NotificationService.SendThenDrainCachesTwice | NotificationService.SendThenDrainCachesOnce |
| Repositories/Implementation/AdminRepo/NotificationRepo.cs:109 | the `UPDATE` marks by `c_notification_id` alone; the caller's `userId` (API/Services/NotificationService.cs:219-224) reaches only the cache | user 3 calls `MarkNotificationAsRead(3, id)` for an unread notification sent to user 2: the row is marked read and user 2's unread count drops from 1 to 0 | the update also requires the caller to be the recipient, as the cache's delete does | medium, not executed | NotificationService.MarkByIdReachesOtherRecipients | NotificationService.MarkByIdForCallerOnly |
| API/Services/NotificationService.cs:232-246 | the cache's delete removes every copy of the id from the list but lowers the unread counter once, and the pushed count reads that counter | after the double caching of the row above, `MarkNotificationAsRead(2, id)`: the list loses both copies and the counter drops from 2 to 1, so the pushed `unreadCount` is 1 while no unread notification is cached, and every later push for user 2 is one too high | the counter stays equal to the number of unread cached notifications | medium, not executed | NotificationService.DoubleCacheCounterDrifts | NotificationService.CacheOnceCounterExact |
