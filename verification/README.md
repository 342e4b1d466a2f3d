# A todo application with live admin dashboards, modelled in Dafny

The application is a Next.js todo list with accounts that an administrator approves. Signed-in users create, edit, complete, delete, search and export their todos. Administrators get a dashboard with:
- statistics cards;
- a list of users waiting for approval;
- a feed of recent todo activity;
- a notification inbox.

All four are kept live by Pusher events that the route handlers publish.

This project models the deterministic core of that application as pure functions over immutable data.

- **The database** (`Store`) holds the `users` and `todos` tables as sequences in creation order. It has the two serial counters. `Store.Valid` states the schema's constraints:
  - ids are unique;
  - e-mail addresses are unique;
  - every todo's owner exists.
- **Route handlers** (`TodoRoutes`, `ToggleRoute`, `BulkRoute`, `Accounts`) are functions from a store, a session and a loosely typed JSON body (`Http.Val`) to a `Reply`. The two export handlers (`Exports`) take the store, the session and the requested format, and return the export they build from the rows they select. A reply holds:
  - the status code;
  - the response body;
  - the store afterwards;
  - the Pusher triggers published, in order.
- **The notification planners** (`Notify`) turn `sendNotification` and its relatives into lists of `(channel, event)` triggers. `Events.Deliver` states what a subscriber of one channel receives. `Channels` holds:
  - the channel names;
  - the channel-authorisation endpoint;
  - the middleware guard;
  - the admin-layout guard.
- **The client reducers** are the admin statistics (`Stats`), the pending-users list (`Pending`), the recent-todo feed (`Feed`), the notification inbox (`Inbox`) and the toast decisions (`Toasts`). Each is a function `(state, event) -> state`.
- **The client helpers** cover:
  - the dashboard filter (`TodoFilter`) and its URL parameter edits (`QueryParams`), written in the `application/x-www-form-urlencoded` format of section 5 of the WHATWG URL Standard over UTF-8 (`FormUrl`);
  - the selection and bulk bar (`Selection`);
  - the create and edit forms (`Forms`, `Tags`);
  - the validation schemas (`Validation`);
  - the date-time picker (`TimeSlots`) and a todo row (`TodoItem`);
  - the users dialog (`Directory`).
- **CSV** (`Csv`) is a reader for the field and record grammar of section 2 of RFC 4180. It is the reference against which both CSV exports are read back.

The main cross-cutting results:
- Every route handler keeps `Store.Valid`.
- Every 4xx refusal of a route handler leaves the store untouched and publishes nothing.
- Not every 500 leaves the store untouched:
  - a sign-up that hits the unique e-mail column has already used up a user id (`Store.InsertUser`, `Accounts.SignUpAsWrittenCollides`);
  - a todo whose owner row has vanished has already used up a todo id (`Store.InsertTodo`, `TodoRoutes.Create`).
  - The rows themselves stay as they were.
- Every change a todo handler makes is confined to the caller's own todos. The administrator's approval and rejection are the exception: they change another user's row (`Accounts.Approve`).
- The live statistics reducer, fed the events the server publishes, agrees with the figures the admin page would re-read from the database. This holds over any history of mirrored changes (`Stats.ApplyAllTracksDatabase`). It holds after a sign-up (`Accounts.SignUpKeepsAdminStats`), and after a toggle once `todo-completed` is sent only on an actual change (`ToggleRoute.ToggleCorrectedKeepsAdminStats`).
- Each notification fan-out reaches each administrator exactly once, and nobody else (`Notify.DeliverFanOut`, `Notify.SendNotificationDelivery`).
- Both CSV exports, with quoting applied to every free-text field, read back to exactly the intended records (`Exports.AdminCsvRoundTrip`, `Directory.UsersCsvRoundTrip`).

Integers are unbounded. JavaScript's `Math.round(c / t * 100)` is modelled as exact half-up rounding, `(200 c + t) / (2 t)` (see `Stats.Rate` under "## Left out"). Lower- and upper-casing are ASCII. String lengths count characters.

## Model

| member | source | states |
|---|---|---|
| Channels.UserChannel | src/lib/pusher.ts:32-34 | a user's channel is `private-user-` followed by the decimal id |
| Channels.UserChannelInjective | src/lib/pusher.ts:32-34 | distinct users have distinct channels |
| Channels.AdminChannelIsNoUserChannel | src/lib/pusher.ts:32-39 | `private-admin` is nobody's user channel |
| Channels.AuthorizeChannel | src/app/api/pusher/auth/route.ts:10-33 | 401 without a session id; a grant for the caller's own channel, and for the admin channel only to an administrator; 403 for everything else |
| Channels.Subscriptions | src/components/providers/notification-provider.tsx:107-112 | a client subscribes to its own channel, plus the admin channel exactly when it is an administrator |
| Channels.GrantedIffSubscribed | src/app/api/pusher/auth/route.ts:20-33 | the endpoint grants a signed-in client exactly the channels it subscribes to |
| Channels.OtherUsersChannelForbidden | src/app/api/pusher/auth/route.ts:20-33 | no user may join another user's channel, whatever their role |
| Channels.AdminChannelOnlyForAdmins | src/app/api/pusher/auth/route.ts:20-21 | the admin channel is granted exactly to administrators |
| Channels.MiddlewareIgnoresRole | src/middleware.ts:14-28 | the middleware's verdict never depends on the role: its admin branch cannot be reached |
| Channels.MiddlewareProtectedPaths | src/middleware.ts:14-28 | `/auth…` is always admitted; `/dashboard…` and `/admin…` are admitted iff there is a token; every other path is admitted |
| Channels.AdminAreaOnlyForAdmins | src/app/admin/layout.tsx:12-16 | the middleware and the admin layout together admit to `/admin` exactly the administrators |
| Store.FindTodo | src/app/api/todos/route.ts:150-154 | finds a todo with that id and owner, or reports that there is none |
| Store.FindUser | src/app/api/todos/toggle/route.ts:54-58 | finds the user with that id, or reports that there is none |
| Store.AdminsExact | src/lib/notifications.ts:132-135 | the fan-out list holds exactly the administrators' ids, each once |
| Store.InsertUser | src/lib/db/schema.ts:4-12 | the new row takes the next serial id; a taken e-mail is refused after the counter has moved on |
| Store.InsertUserKeepsValid | src/lib/db/schema.ts:4-12 | inserting a user keeps the schema's constraints |
| Store.InsertTodo | src/lib/db/schema.ts:14-24 | the new todo takes the next serial id and is appended; a missing owner is refused after the counter has moved on |
| Store.InsertTodoKeepsValid | src/lib/db/schema.ts:14-24 | inserting a todo keeps the constraints |
| Store.DeleteUser | src/lib/db/schema.ts:19 | the reference from todos blocks deleting a user who owns todos; otherwise exactly that user goes |
| Store.DeleteUserKeepsValid | src/lib/db/schema.ts:19 | deleting a user keeps the constraints |
| Store.SameKeysKeepValid | src/lib/db/schema.ts:14-24 | rewriting todos in place, with ids and owners kept, keeps the constraints |
| Store.FewerTodosKeepValid | src/lib/db/schema.ts:14-24 | removing todos keeps the constraints |
| Store.CountsOf | src/app/admin/page.tsx:19-24 | the four counts satisfy pending ≤ users and completed ≤ todos |
| Store.SeedFigures | src/app/admin/page.tsx:19-34 | the seed counts users, pending users, todos and completed todos; the rate is the half-up rounded percentage, 0 without todos, 100 when all are done |
| Store.PendingListExact | src/app/admin/page.tsx:13-16 | the pending list is exactly the unapproved users, each once, as many as the pending figure |
| Store.PendingNewestFirst | src/app/admin/page.tsx:13-16 | with the table in creation order, the pending list runs newest first |
| Stats.RoundPercent | src/components/admin/admin-stats-client.tsx:52-54 | the result is the integer nearest to 100 c / t, halves rounded up |
| Stats.Rate | src/app/admin/page.tsx:31-33 | 0 without todos; otherwise the percentage of completed todos rounded to the nearest integer, halves up |
| Stats.RateIsPercentage | src/components/admin/admin-stats-client.tsx:52-54 | for 0 ≤ completed ≤ total the rate lies in 0..100; it is 100 when all are done and 0 when none are |
| Stats.Max0 | src/components/admin/admin-stats-client.tsx:44 | `Math.max(0, x)` |
| Stats.Apply | src/components/admin/admin-stats-client.tsx:32-102 | each of the five events changes only its own figures, clamped at zero; the rate is recomputed after every todo event; other events change nothing |
| Stats.UserEventsKeepPendingBounded | src/components/admin/admin-stats-client.tsx:32-46 | both user events keep 0 ≤ pending ≤ total users |
| Stats.CompletedMayExceedTotal | src/components/admin/admin-stats-client.tsx:65-81 | the reducer does not keep completed ≤ total: a stray completion pushes completed past the total |
| Stats.ApplyKeepsNonNegative | src/components/admin/admin-stats-client.tsx:44-93 | the clamps keep every count non-negative |
| Stats.MirrorsKeepsValid | src/app/admin/page.tsx:19-30 | a database change mirrored by its event keeps the counts consistent |
| Stats.ApplyTracksDatabase | src/components/admin/admin-stats-client.tsx:32-102 | applying the event published for a change gives the figures the page would compute after it |
| Stats.ApplyAllTracksDatabase | src/components/admin/admin-stats-client.tsx:32-102 | over any history of mirrored changes, the live figures equal the figures of the final database |
| Stats.ApplyAllAppend | src/components/admin/admin-stats-client.tsx:32-102 | events arriving in two batches act as the first batch, then the second |
| Stats.ApplyAllInert | src/components/admin/admin-stats-client.tsx:32-102 | events the component does not bind leave the figures alone |
| Stats.OnEvent | src/components/admin/admin-stats-client.tsx:26-29 | without a session nothing changes |
| Events.Deliver | src/lib/notifications.ts:45-56 | a subscriber receives only events triggered on its channel, in order |
| Events.DeliverAppend | src/lib/notifications.ts:150-165 | what arrives from two batches is the first batch's events, then the second's |
| Notify.Publish | src/lib/notifications.ts:45-56 | one trigger per event on the given channel |
| Notify.FanOut | src/lib/notifications.ts:59-78 | one batch per administrator on that administrator's channel, in list order |
| Notify.DeliverPublish | src/lib/notifications.ts:45-56 | a publication reaches exactly the subscribers of its channel |
| Notify.DeliverFanOut | src/lib/notifications.ts:59-78 | each listed administrator receives the batch once; everyone else receives nothing |
| Notify.FanOutSkipsAdminChannel | src/lib/notifications.ts:59-78 | the fan-out publishes nothing on the admin channel |
| Notify.SendNotification | src/lib/notifications.ts:30-82 | nothing when not configured; one trigger for a targeted user; one per administrator otherwise; a type is always set |
| Notify.SendNotificationDelivery | src/lib/notifications.ts:30-82 | the targeted user alone receives the notification as given; untargeted, each administrator receives it once with the `[Admin] ` title |
| Notify.CeilDiv | src/lib/notifications.ts:90 | `Math.ceil(a / b)` for a positive divisor: the least q with a ≤ b q |
| Notify.TaskDueOptions | src/lib/notifications.ts:85-102 | a due-soon warning addressed to the task's owner |
| Notify.TaskCompleteOptions | src/lib/notifications.ts:105-118 | a success notification addressed to no user, so it goes to the administrators |
| Notify.SendNewUser | src/lib/notifications.ts:121-169 | nothing when not configured; two triggers per administrator otherwise |
| Notify.NewUserDelivery | src/lib/notifications.ts:121-169 | each administrator receives the notification followed by `user-registered`; nobody else receives anything |
| Notify.RecentTodoText | src/lib/notifications.ts:205-232 | created and updated are info, completed is success, deleted is warning, each with its title and a message naming the owner and quoting the todo |
| Notify.SendRecentTodo | src/lib/notifications.ts:172-266 | a missing owner or missing configuration yields nothing; otherwise two triggers per administrator |
| Notify.RecentTodoDelivery | src/lib/notifications.ts:172-266 | each administrator receives the notification followed by `recent-todo`; nobody else receives anything |
| Http.Refuse | src/app/api/todos/route.ts:14-16 | a refusal carries the error status, keeps the store and publishes nothing |
| Http.RequiredTitle | src/app/api/todos/route.ts:72-77 | accepted iff the title is a string that is not blank, and then trimmed; falsy or blank gives 400; a truthy non-string gives 500 |
| Http.OrNull | src/app/api/todos/route.ts:84 | `description \|\| null`: absent or empty becomes null, anything else is kept |
| Http.DueDate | src/app/api/todos/route.ts:85 | absent or empty becomes no date; a parsable date is that date; an invalid date fails the statement, so nothing can be written |
| Http.TagList | src/app/api/todos/route.ts:86 | absent or empty becomes no tags; an array of strings is those strings, in order; anything else cannot be written |
| Http.Lookup | src/app/api/todos/route.ts:150-161 | a number id finds the caller's todo with that id; anything else finds nothing |
| Http.LookupUnique | src/app/api/todos/route.ts:150-154 | in a valid store the found row is the only one with its id |
| TodoRoutes.List | src/app/api/todos/route.ts:10-59 | 401 without a session; otherwise 200 with a sublist of the caller's todos and the store untouched |
| TodoRoutes.ListSelects | src/app/api/todos/route.ts:18-49 | the list holds exactly the caller's todos that pass the status filter and the search; every other filter value lists all statuses |
| TodoRoutes.ListNewestFirst | src/app/api/todos/route.ts:45-49 | with the table in creation order, the list runs newest first |
| TodoRoutes.ListNoRepeats | src/app/api/todos/route.ts:45-49 | in a valid store the list holds no todo twice |
| TodoRoutes.Create | src/app/api/todos/route.ts:62-127 | the status precedence 401, 400/500 (title), 500 (unwritable due date or tags), 500 (vanished owner), 201; on 201 exactly one todo is appended, owned by the caller, uncompleted, with the trimmed title and the normalised fields; nothing is published |
| TodoRoutes.CreateKeepsValid | src/app/api/todos/route.ts:62-127 | creating keeps the schema's constraints |
| TodoRoutes.Update | src/app/api/todos/route.ts:130-183 | the status precedence 401, 400 (`!id`), 400/500 (title), 404 (not the caller's), 500 (unwritable due date or tags), 200; every refusal leaves the store; ids and owners never change |
| TodoRoutes.UpdateChangesOnlyThatTodo | src/app/api/todos/route.ts:163-173 | an update rewrites title, description, due date, tags and stamp of that todo only; its id, owner, completion and creation time stay |
| TodoRoutes.UpdateKeepsValid | src/app/api/todos/route.ts:130-183 | updating keeps the constraints |
| TodoRoutes.Delete | src/app/api/todos/route.ts:186-231 | the status precedence 401, 400, 404, 200; on 200 exactly the caller's todo with that id is gone and every other row stays, in order |
| TodoRoutes.CountPositive | src/app/api/todos/route.ts:206-217 | a found row makes the matching count positive, so a successful delete shrinks the table |
| TodoRoutes.DeleteRemovesThatId | src/app/api/todos/route.ts:219-221 | after a successful delete no todo with that id remains |
| TodoRoutes.DeleteKeepsValid | src/app/api/todos/route.ts:186-231 | deleting keeps the constraints |
| ToggleRoute.DisplayName | src/app/api/todos/toggle/route.ts:63 | the name, else the e-mail, else `A user`; never empty |
| ToggleRoute.Caller | src/app/api/todos/toggle/route.ts:54-60 | the caller's user row exactly when it exists |
| ToggleRoute.CompletionNotices | src/app/api/todos/toggle/route.ts:53-74 | none of the completion notices moves the statistics; without a user row there are none |
| ToggleRoute.Toggled | src/app/api/todos/toggle/route.ts:10-106 | the status precedence 401, 400 (non-number id or non-boolean flag), 404, 200; refusals change nothing |
| ToggleRoute.ToggleChangesOnlyThatTodo | src/app/api/todos/toggle/route.ts:43-50 | a toggle sets the requested flag and stamp on the caller's todo only |
| ToggleRoute.ToggleKeepsValid | src/app/api/todos/toggle/route.ts:43-50 | toggling keeps the constraints |
| ToggleRoute.CompletionDelivery | src/app/api/todos/toggle/route.ts:53-74 | with configuration, each administrator receives the task-complete notification and the recent-todo pair once; nobody else receives anything |
| ToggleRoute.ToggleDelivery | src/app/api/todos/toggle/route.ts:53-93 | only administrators hear anything. The notices come only when an open todo is completed. `todo-completed` with the requested flag comes every time |
| ToggleRoute.StatsAfterToggle | src/app/api/todos/toggle/route.ts:77-93 | an administrator's cards move only by the `todo-completed` events the toggle publishes |
| ToggleRoute.ToggleCounts | src/app/api/todos/toggle/route.ts:43-50 | completing an open todo adds one completed todo, reopening removes one, and keeping the flag changes no count |
| ToggleRoute.ToggleCorrectedKeepsAdminStats | src/app/api/todos/toggle/route.ts:77-93 | when `todo-completed` is sent only on a change, the cards stay equal to the re-read figures |
| ToggleRoute.ToggleAsWrittenMiscountsUnchangedFlag | src/app/api/todos/toggle/route.ts:77-93 | as written, a toggle that keeps the flag leaves the database counts unchanged, but the cards count one completion more (or one fewer) |
| ToggleRoute.AnnIsAdmin | src/app/api/todos/toggle/route.ts:78-81 | the sample store is valid and its administrator is on the fan-out list |
| ToggleRoute.RepeatedCompletionMiscounts | src/app/api/todos/toggle/route.ts:77-93 | an administrator re-completing a completed todo sees one completed todo too many |
| BulkRoute.TodoIds | src/app/api/todos/bulk/route.ts:45 | the ids of the rows, in order |
| BulkRoute.Bulk | src/app/api/todos/bulk/route.ts:17-76 | the status precedence 401, 400 (ids), 400 (action), 404 (no owned id), 200; the reported count is the number of owned, requested todos; nothing is published |
| BulkRoute.ValidIdsExact | src/app/api/todos/bulk/route.ts:33-45 | a todo's id is a valid id iff it was requested and the caller owns the todo |
| BulkRoute.ValidIdChosen | src/app/api/todos/bulk/route.ts:33-45 | with unique ids, a valid id belongs to a requested and owned todo |
| BulkRoute.ChosenIdValid | src/app/api/todos/bulk/route.ts:33-45 | a requested, owned todo's id is valid |
| BulkRoute.BulkCompleteExact | src/app/api/todos/bulk/route.ts:51-56 | complete marks exactly the requested, owned todos; every other row is unchanged |
| BulkRoute.BulkDeleteExact | src/app/api/todos/bulk/route.ts:57-63 | delete removes exactly the requested, owned todos and keeps the rest in order |
| BulkRoute.BulkKeepsValid | src/app/api/todos/bulk/route.ts:17-76 | both actions keep the constraints |
| BulkRoute.MessageStatesCount | src/app/api/todos/bulk/route.ts:65-69 | the message starts with the count, and says `todo` exactly for one |
| BulkRoute.Message | src/app/api/todos/bulk/route.ts:65-69 | `Successfully `, the action and `d `, then the count, a space and `todo` or `todos` |
| Text.Plural | src/app/api/todos/bulk/route.ts:67 | one of the two words, the singular exactly for a count of one when the words differ; the bulk route's `todo`/`todos` and the bulk-action bar's `task`/`tasks` (bulk-actions.tsx:41-42) |
| Accounts.Approve | src/app/api/admin/approve-user/route.ts:10-50 | the status precedence 401, 400, then 200, or 500 when the rejected user still owns todos; todos and counters never change; nothing is published |
| Accounts.ApproveExact | src/app/api/admin/approve-user/route.ts:28-35 | approving sets the flag of the user with that id; every other row is unchanged; an unknown id changes nothing |
| Accounts.RejectExact | src/app/api/admin/approve-user/route.ts:36-41 | rejecting removes that user and keeps every other row in order |
| Accounts.ApproveKeepsValid | src/app/api/admin/approve-user/route.ts:28-41 | both decisions keep the constraints |
| Accounts.ApproveLeavesPending | src/app/api/admin/approve-user/route.ts:28-41 | after a decision that user leaves the pending list, and nobody else joins or leaves it |
| Accounts.ApprovedLeaveUnapproved | src/app/api/admin/approve-user/route.ts:30-33 | setting the flag takes exactly the rows with that id out of the unapproved ones |
| Accounts.ApproveIdempotent | src/app/api/admin/approve-user/route.ts:28-41 | repeating a successful decision succeeds and changes nothing more |
| Accounts.StoredName | src/app/api/auth/signup/route.ts:53 | `name?.trim() \|\| null`: a blank or missing name is stored as null; otherwise it is trimmed |
| Accounts.SignUpWith | src/app/api/auth/signup/route.ts:14-89 | each 400 comes with its message, in order; 201 appends exactly one unapproved `user` row, with the normalised e-mail and the hashed password; refusals change no row |
| Accounts.SignUp | src/app/api/auth/signup/route.ts:14-89 | the route as written answers 201, 400 or 500 and never touches todos; a well-formed request whose e-mail as typed is stored answers `User already exists` with nothing changed; 201 appends one unapproved user with the normalised e-mail |
| Accounts.SignUpCorrected | src/app/api/auth/signup/route.ts:14-89 | the same, with the duplicate answer given whenever the normalised e-mail is stored |
| Accounts.SignUpAsWrittenCollides | src/app/api/auth/signup/route.ts:37-58 | as written, an e-mail differing from a stored one only in case or blanks passes the duplicate check. The insert then fails with 500, and an id is used up |
| Accounts.CaseVariantSignUpFails | src/app/api/auth/signup/route.ts:37-58 | signing up as `A@b` next to `a@b` gives 500 as written and `User already exists` when corrected |
| Accounts.SignUpCorrectedErrors | src/app/api/auth/signup/route.ts:37-58 | with the lookup by the stored address, `User already exists` answers exactly the well-formed requests whose address is taken |
| Accounts.SignUpKeepsValid | src/app/api/auth/signup/route.ts:52-58 | sign-up keeps the constraints |
| Accounts.NewUserKeepsAdmins | src/app/api/auth/signup/route.ts:56 | a new `user` row leaves the administrators unchanged |
| Accounts.PendingRowCounts | src/app/admin/page.tsx:19-21 | a new unapproved row adds one user and one pending user |
| Accounts.NewUserEventsStats | src/components/admin/admin-stats-client.tsx:32-46 | the registration pair moves the cards from the old figures to the figures with the new row |
| Accounts.NewUserStats | src/lib/notifications.ts:121-169 | an administrator's cards follow a registration when notifications are configured, and stay otherwise |
| Accounts.SignUpKeepsAdminStats | src/app/api/auth/signup/route.ts:60-71 | after a sign-up each administrator's cards equal the re-read figures when notifications are configured |
| Pending.Register | src/components/admin/pending-users-client.tsx:46-79 | a known id is a no-op; a new one is prepended as an unapproved `user` built from the payload |
| Pending.Resolve | src/components/admin/pending-users-client.tsx:82-84 | every entry with that id leaves, the others stay in order; an absent id is a no-op |
| Pending.OnEvent | src/components/admin/pending-users-client.tsx:30-33 | only an administrator's list reacts, and only to the two user events |
| Pending.OnEventKeepsInvariant | src/components/admin/pending-users-client.tsx:46-101 | unique ids and all-pending entries are preserved by every event |
| Pending.ListFollowsServer | src/components/admin/pending-users-client.tsx:46-87 | the registration pair the server sends puts the new user at the head of an administrator's list |
| Feed.Create | src/components/admin/todos-overview-client.tsx:77-99 | a known id is a no-op; a new one is prepended, uncompleted, ahead of at most nine earlier entries |
| Feed.Rename | src/components/admin/todos-overview-client.tsx:101-111 | only the titles of matching entries change |
| Feed.Complete | src/components/admin/todos-overview-client.tsx:113-123 | only matching entries become completed |
| Feed.Remove | src/components/admin/todos-overview-client.tsx:125-133 | every matching entry leaves; the rest stay in order |
| Feed.OnEvent | src/components/admin/todos-overview-client.tsx:42-45 | only an administrator's feed reacts, and only to `recent-todo` |
| Feed.HandleRecentTodo | src/components/admin/todos-overview-client.tsx:71-138 | an unknown action leaves the feed; update and complete keep its length and ids; delete removes the id and keeps the rest in order; create leaves the id present within the ten-entry bound |
| Feed.RenameKeepsShape | src/components/admin/todos-overview-client.tsx:101-111 | a rename keeps length, ids and completion |
| Feed.CompleteIdempotent | src/components/admin/todos-overview-client.tsx:113-123 | completing twice equals completing once |
| Feed.HandleKeepsBound | src/components/admin/todos-overview-client.tsx:95 | the feed never grows past ten entries |
| Feed.PrefixKeepsUnique | src/components/admin/todos-overview-client.tsx:95 | truncating keeps ids unique |
| Feed.CreateKeepsUnique | src/components/admin/todos-overview-client.tsx:92-95 | a create keeps ids unique |
| Feed.HandleKeepsUnique | src/components/admin/todos-overview-client.tsx:71-138 | every action keeps ids unique |
| Feed.HandleEffect | src/components/admin/todos-overview-client.tsx:71-138 | each action has its effect, and an unknown action leaves the feed unchanged |
| Feed.FeedFollowsServer | src/components/admin/todos-overview-client.tsx:71-138 | the pair the server sends for a todo action updates an administrator's feed by that action |
| Inbox.UnreadCount | src/components/providers/notification-provider.tsx:197 | the number of unread entries, at most the inbox length |
| Inbox.Add | src/components/providers/notification-provider.tsx:40-50 | one unread entry with the fresh id is prepended; the old inbox follows unchanged |
| Inbox.AddRaisesUnread | src/components/providers/notification-provider.tsx:40-50 | adding raises the unread count by exactly one |
| Inbox.MarkAsRead | src/components/providers/notification-provider.tsx:53-57 | entries with that id become read; length and order stay |
| Inbox.MarkAsReadLowersUnread | src/components/providers/notification-provider.tsx:53-57 | the unread count drops by the unread entries with that id, so an absent id changes nothing |
| Inbox.MarkAsReadIdempotent | src/components/providers/notification-provider.tsx:53-57 | marking twice equals marking once |
| Inbox.Clear | src/components/providers/notification-provider.tsx:60-62 | every entry with that id leaves; the rest stay in order |
| Inbox.ClearKeepsUnreadBounded | src/components/providers/notification-provider.tsx:60-62 | clearing never raises the unread count |
| Inbox.SubseqCountBounded | src/components/providers/notification-provider.tsx:197 | a sub-list never has more unread entries |
| Inbox.ClearAll | src/components/providers/notification-provider.tsx:65-67 | the inbox is empty, so nothing is unread |
| Inbox.Receive | src/components/providers/notification-provider.tsx:130-182 | without a session nothing happens. A notification adds one entry, typed `info` when untyped, and raises a toast with its title. An admin notification adds an entry exactly when the user is an administrator, and never raises a toast. Any other event changes nothing |
| Toasts.Duration | src/lib/toast.ts:9-35 | error 6000 ms, warning 5000 ms, success and info 4000 ms |
| Toasts.Show | src/lib/toast.ts:9-35 | a typed toast with the given text and its type's duration |
| Toasts.ShowLoading | src/lib/toast.ts:37-39 | a loading toast without a set duration |
| Toasts.OrFallback | src/lib/toast.ts:93 | the error text when it is non-empty, else the fallback |
| Toasts.HandleApiError | src/lib/toast.ts:47-102 | an Error mentioning `fetch` is `Network Error`; else one mentioning `timeout` is `Request Timeout`; else pending approval is an `Account Pending` warning; else `Error` with the message. A string is `Error` with that text; an object shows its `error` or the fallback, with its details; anything else shows the fallback and the support hint. No toast has an action; warnings last 5000 ms, errors 6000 ms |
| Toasts.NetworkErrorWins | src/lib/toast.ts:65-68 | a message mentioning `fetch` is a network error, whatever else it says |
| Toasts.UnknownErrorShownVerbatim | src/lib/toast.ts:80 | any other error message becomes an `Error` toast with that message as its description |
| Toasts.PluralBeforeTail | src/lib/toast.ts:111-112 | the letter before the tail is `s` exactly when the count exceeds one |
| Toasts.BulkToastsPluralIffMany | src/lib/toast.ts:111-112 | the bulk toasts say `tasks` exactly when the count exceeds one |
| Toasts.BulkCompletedToast | src/lib/toast.ts:111 | a success toast for the bulk completion |
| Toasts.BulkDeletedToast | src/lib/toast.ts:112 | a success toast for the bulk deletion |
| Toasts.BulkLoadingToast | src/lib/toast.ts:126 | a loading toast for a bulk action |
| Toasts.ExportCompletedToast | src/lib/toast.ts:115 | a 4-second success toast titled `Export Completed`, whose description is `Your tasks have been exported as `, then the format upper-cased, then a full stop |
| Toasts.ExportToastNamesFormat | src/lib/toast.ts:115 | the format shown holds no lower-case letter and equals the requested format once case is ignored |
| Text.LowerOfUpper | src/lib/toast.ts:115 | upper-casing leaves no lower-case letter and changes nothing once case is ignored |
| Toasts.SignInToast | src/lib/toast.ts:116 | a 4-second success toast titled `Welcome Back!`; the description is `Hello ` and the name for a non-empty name, and `You have been signed in successfully.` for an absent or empty one |
| Toasts.BulkBarSuccess | src/components/todos/bulk-actions.tsx:39-43 | a success toast whose title is the count, a space, `task` or `tasks` (`task` exactly for one), then ` marked as complete` or ` deleted` by the action |
| Toasts.BulkBarSuccessOne | src/components/todos/bulk-actions.tsx:39-43 | for one todo the title is `1 task marked as complete` or `1 task deleted` |
| Toasts.BulkBarFailure | src/components/todos/bulk-actions.tsx:46-48 | an error toast without description or duration, titled `Failed to complete selected todos` or `Failed to delete selected todos` by the action |
| Toasts.PluralisationsAgreeExceptZero | src/lib/toast.ts:111-112 | the library's and the bar's pluralisations agree on every count except zero |
| Toasts.ProviderToast | src/components/providers/toast-provider.tsx:17-84 | no session gives no toast; `task_due` toasts for everyone; `user-registered` and `recent-todo` toast only for administrators |
| Toasts.ProviderToastMatchesServerTitle | src/components/providers/toast-provider.tsx:63-80 | for every update the server sends, the toast's title is the server notification's title |
| Toasts.NotificationToast | src/components/providers/notification-provider.tsx:145-157 | a plain toast with the notification's text; a button only for an action with a URL |
| TodoFilter.Visible | src/components/todos/todos-server.tsx:26-36 | an order-preserving sub-list holding exactly the todos that pass the status and search tests |
| TodoFilter.AllAndEmptyShowsEverything | src/components/todos/todos-server.tsx:26-36 | `all` with an empty search shows every todo, in order |
| TodoFilter.UnknownFilterShowsNothing | src/components/todos/todos-server.tsx:27-30 | any other filter value shows nothing |
| TodoFilter.NothingKept | src/components/todos/todos-server.tsx:27-30 | an unknown filter keeps no todo |
| TodoFilter.StatusFiltersSplit | src/components/todos/todos-server.tsx:27-30 | `completed` and `pending` split the `all` list between them |
| TodoFilter.SplitCount | src/components/todos/todos-server.tsx:27-30 | the two status counts add up to the `all` count |
| TodoFilter.NullDescriptionMatchesByTitle | src/components/todos/todos-server.tsx:33 | a todo without a description matches only through its title |
| TodoFilter.SearchIgnoresCase | src/components/todos/todos-server.tsx:32-33 | the search ignores the case of the term |
| QueryParams.Delete | src/components/todos/todo-filters.tsx:20 | no entry with that name remains |
| QueryParams.Get | src/components/todos/todo-filters.tsx:13-14 | absent exactly when no pair has the name, otherwise the value of the first such pair |
| QueryParams.Set | src/components/todos/todo-filters.tsx:22 | the pair is present, the name occurs once, and the pairs under other names are kept |
| QueryParams.CurrentFilter | src/components/todos/todo-filters.tsx:13 | the `filter` parameter when present and not empty, `all` otherwise |
| QueryParams.FilterChange | src/components/todos/todo-filters.tsx:17-25 | afterwards `filter` reads as the choice, or as absent for `all`; pairs under other names are kept |
| QueryParams.SearchSubmit | src/components/todos/todo-filters.tsx:27-36 | afterwards `search` reads as the trimmed input, or as absent when it is blank; pairs under other names are kept |
| QueryParams.GetDeleted | src/components/todos/todo-filters.tsx:20 | after a delete that name reads as absent, and every other name as before |
| QueryParams.GetSet | src/components/todos/todo-filters.tsx:22 | after a set the name reads as the value, and every other name as before |
| QueryParams.Target | src/components/todos/todo-filters.tsx:24 | every navigation goes to `/dashboard?` followed by the parameters, form-urlencoded |
| QueryParams.TargetReadsBack | src/components/todos/todo-filters.tsx:24-42 | the query of every target reads back as exactly the edited parameters, in order, whatever characters they hold |
| QueryParams.TargetSpaceExample | src/components/todos/todo-filters.tsx:35 | a search for `buy milk` goes to `/dashboard?search=buy+milk` |
| QueryParams.TargetAmpersandExample | src/components/todos/todo-filters.tsx:35 | a search for `a&b` goes to `/dashboard?search=a%26b` |
| FormUrl.DecodeUtf8OfUtf8 | src/components/todos/todo-filters.tsx:24 | UTF-8 decoding inverts UTF-8 encoding |
| FormUrl.Utf8Injective | src/components/todos/todo-filters.tsx:24 | different strings have different UTF-8 bytes |
| FormUrl.Encode | src/components/todos/todo-filters.tsx:24 | a written name or value holds neither `&`, `=` nor a space, and is one to three characters per UTF-8 byte |
| FormUrl.DecodeEncode | src/components/todos/todo-filters.tsx:24 | a written name or value reads back as the string's bytes, which decode to the string |
| FormUrl.Serialize | src/components/todos/todo-filters.tsx:24 | the query is empty exactly when there are no parameters |
| FormUrl.SerializeRoundTrip | src/components/todos/todo-filters.tsx:24 | parsing a serialised query gives the UTF-8 bytes of every name and value, in order, none lost and none added |
| FormUrl.SerializeReadsBack | src/components/todos/todo-filters.tsx:24 | every name and value of a serialised query decodes back to itself |
| FormUrl.EncodeSpaceExample | src/components/todos/todo-filters.tsx:35 | a space is written `+` |
| FormUrl.EncodeAmpersandExample | src/components/todos/todo-filters.tsx:35 | an `&` is written `%26` |
| FormUrl.EncodeEqualsExample | src/components/todos/todo-filters.tsx:22 | an `=` is written `%3D` |
| QueryParams.ClearSearch | src/components/todos/todo-filters.tsx:38-43 | the input is emptied |
| QueryParams.FilterChangeEffect | src/components/todos/todo-filters.tsx:17-25 | the shown filter becomes the choice, `all` meaning no parameter; other parameters are kept |
| QueryParams.SearchSubmitEffect | src/components/todos/todo-filters.tsx:27-36 | the trimmed term is stored, or removed when blank; other parameters are kept |
| QueryParams.ClearSearchEffect | src/components/todos/todo-filters.tsx:38-43 | only the search parameter is removed |
| Selection.ToggleSelectAll | src/components/todos/todo-list.tsx:21-29 | a selection, or the all flag, is cleared; otherwise every id is selected |
| Selection.Toggle | src/components/todos/todo-list.tsx:31-36 | a present id is removed, others kept; an absent one is appended |
| Selection.ToggleTodo | src/components/todos/todo-list.tsx:31-38 | the id's membership flips and the all flag is cleared |
| Selection.AfterBulkSuccess | src/components/todos/todo-list.tsx:40-44 | the selection and the all flag are cleared |
| Selection.Cancel | src/components/todos/todo-list.tsx:70-74 | the selection, the all flag and selecting mode are cleared |
| Selection.SubseqKeepsDistinct | src/components/todos/todo-list.tsx:34 | dropping ids keeps them distinct |
| Selection.ToggleKeepsDistinct | src/components/todos/todo-list.tsx:32-36 | toggling keeps the selection free of duplicates |
| Selection.ToggleTwiceUnselected | src/components/todos/todo-list.tsx:32-36 | toggling an unselected id twice restores the selection |
| Selection.FilterAppendDropped | src/components/todos/todo-list.tsx:34-35 | removing an id that was just appended restores the list |
| Selection.ToggleTwiceSelected | src/components/todos/todo-list.tsx:32-36 | toggling a selected id twice keeps the same ids, without duplicates |
| Selection.RunBulkAction | src/components/todos/bulk-actions.tsx:17-53 | an empty selection sends nothing; otherwise one request and one toast, success iff the request went through; loading and action always reset |
| Selection.BulkRunThenSelection | src/components/todos/todo-list.tsx:40-44 | a successful run of a non-empty selection leaves no id selected and the header checkbox unchecked for every list length |
| Selection.SuccessMessageSingular | src/components/todos/bulk-actions.tsx:39-43 | one selected todo is reported as `1 task` |
| Csv.Escape | src/app/api/admin/export-todos/route.ts:84 | doubling quotes adds one character per quote and leaves quote-free text alone |
| Csv.Quote | src/app/api/admin/export-todos/route.ts:84 | a quoted field is the original length plus the number of quotes plus two, between quotes |
| Csv.ParseQuotedBodyOfEscaped | src/app/api/admin/export-todos/route.ts:84-85 | the reader recovers escaped text from a quoted body |
| Csv.ParseFieldOfRendered | src/app/api/admin/export-todos/route.ts:84-92 | a well-formed field reads back as its text |
| Csv.ParseRecordOfRendered | src/app/api/admin/export-todos/route.ts:95 | a line of well-formed fields reads back as their texts |
| Csv.ParseDocumentOfRendered | src/app/api/admin/export-todos/route.ts:95 | a document of well-formed lines reads back as its records |
| Exports.JsonTodoOf | src/app/api/admin/export-todos/route.ts:45-58 | each record keeps id, title and completion; null description, tags and name become `''`, `[]` and `''` |
| Exports.AdminJson | src/app/api/admin/export-todos/route.ts:41-59 | `exportDate` is the moment of the export; `totalTodos` equals the number of records, one per row, in order |
| Exports.YesNo | src/app/api/admin/export-todos/route.ts:86 | `Yes` exactly for true |
| Exports.HeaderCells | src/app/api/admin/export-todos/route.ts:69-80 | the header cells carry the column names |
| Exports.AdminFieldsAsWritten | src/app/api/admin/export-todos/route.ts:82-93 | ten fields per todo, the fourth `Yes` exactly for a completed todo |
| Exports.AdminCells | src/app/api/admin/export-todos/route.ts:82-93 | the corrected cells carry one intended value per header column |
| Exports.AdminDocumentWellFormed | src/app/api/admin/export-todos/route.ts:69-95 | with separator-free date labels, every cell of the corrected document is well formed |
| Exports.AdminDocumentTexts | src/app/api/admin/export-todos/route.ts:69-95 | the corrected document carries the header and one intended record per todo |
| Exports.AdminCsvRoundTrip | src/app/api/admin/export-todos/route.ts:69-95 | the corrected CSV reads back as the header plus one record per todo, field for field |
| Exports.AdminCsvAsWrittenReadsBack | src/app/api/admin/export-todos/route.ts:69-95 | as written, the CSV reads back as the header plus one record per todo whenever no e-mail holds a separator, quote or line break and no tag holds a quote |
| Exports.AdminExportCsvReadsBack | src/app/api/admin/export-todos/route.ts:69-111 | an administrator's CSV export of a store whose joined rows have plain e-mails and quote-free tags reads back as the header plus one record per row |
| Exports.AdminLineAsWrittenShiftsColumns | src/app/api/admin/export-todos/route.ts:91 | as written, an owner e-mail holding a comma splits into two columns |
| Exports.AdminLineAsWrittenUnreadable | src/app/api/admin/export-todos/route.ts:88 | as written, a tag holding a quote makes the line unreadable |
| Exports.CorrectedLineFixesTagsAndEmail | src/app/api/admin/export-todos/route.ts:82-93 | the corrected line differs from the written one only in the tags and e-mail fields |
| Exports.ExportRecordOf | src/app/api/todos/export/route.ts:27-36 | `Yes`/`No` exactly for completion; null description, due date and tags become empty text |
| Exports.UserExportOf | src/app/api/todos/export/route.ts:9-61 | 401 exactly without a session; CSV exactly for a `csv` format in any case; otherwise one record per todo the caller owns, in table order |
| Exports.Mine | src/app/api/todos/export/route.ts:21-24 | exactly the todos whose owner is the caller, in table order |
| Exports.UserExportExactlyMine | src/app/api/todos/export/route.ts:21-36 | every todo the caller owns is exported, and every record is that of a todo the caller owns: no other user's todo leaks |
| Exports.UserFormatExamples | src/app/api/todos/export/route.ts:18-39 | `CSV` and `Csv` choose CSV; no format chooses JSON |
| Exports.AdminExportOf | src/app/api/admin/export-todos/route.ts:8-111 | 401 exactly for a non-administrator; JSON exactly for `json`, stamped with the moment of the export, counting every todo of the store and holding one record per joined row; otherwise the CSV text as written of the joined rows |
| Exports.JoinOwner | src/app/api/admin/export-todos/route.ts:33-37 | the todo with the e-mail and name of the user row whose id is its owner, or with neither when no such row exists |
| Exports.AdminRows | src/app/api/admin/export-todos/route.ts:23-38 | one joined row per todo, the table read newest first |
| Exports.AdminRowsExact | src/app/api/admin/export-todos/route.ts:23-38 | with the table in creation order, every todo appears, `createdAt` never increases down the rows, and in a valid store every row has its owner's e-mail |
| Directory.Search | src/components/admin/all-users-modal.tsx:64-70 | an order-preserving sub-list of exactly the users whose e-mail or name contains the term, ignoring case |
| Directory.EmptyTermKeepsAll | src/components/admin/all-users-modal.tsx:64-70 | an empty term keeps every user |
| Directory.Partition | src/components/admin/all-users-modal.tsx:99-100 | approved and pending users together are the list, with their sizes adding up, each half keeping the list's order |
| Directory.PartitionDisjoint | src/components/admin/all-users-modal.tsx:99-100 | no user is both approved and pending |
| Directory.UserFieldsAsWritten | src/components/admin/all-users-modal.tsx:75-82 | six fields per user |
| Directory.UserCells | src/components/admin/all-users-modal.tsx:75-82 | the corrected cells carry the intended values |
| Directory.UserValuesFacts | src/components/admin/all-users-modal.tsx:77-80 | approval shows as `Yes`/`No`; a null name shows as empty text |
| Directory.UsersDocumentWellFormed | src/components/admin/all-users-modal.tsx:73-85 | with separator-free date labels, every cell of the corrected document is well formed |
| Directory.UsersCsvRoundTrip | src/components/admin/all-users-modal.tsx:73-85 | the corrected CSV reads back as the header plus one record per user |
| Directory.UserLineAsWrittenShiftsColumns | src/components/admin/all-users-modal.tsx:77 | as written, a name holding a comma shifts every later column |
| Validation.TitleIssues | src/lib/validations.ts:5-8 | a title passes iff 1 ≤ length ≤ 100 and it is not blank |
| Validation.EmptyTitleReportsTwice | src/lib/validations.ts:5-8 | an empty title fails both the length check and the blank check |
| Validation.DescriptionIssues | src/lib/validations.ts:9-11 | a description passes iff absent or at most 500 characters |
| Validation.DescriptionValue | src/lib/validations.ts:12 | a blank or absent description becomes absent; otherwise it is trimmed |
| Validation.DescriptionValueIdempotent | src/lib/validations.ts:12 | normalising twice equals normalising once |
| Validation.DueDateIssues | src/lib/validations.ts:13-19 | an absent or empty due date passes; any other must lie in the future |
| Validation.TagsValue | src/lib/validations.ts:20-24 | non-empty, trimmed, comma-free tags; an absent or empty field gives none |
| Validation.SetSizeIffDistinct | src/lib/validations.ts:33-36 | `new Set(tags).size === tags.length` holds iff the tags are distinct |
| Validation.TagsIssues | src/lib/validations.ts:25-36 | a tag list passes iff every tag has 1..20 characters, there are at most five and they are distinct |
| Validation.TagsIssuesOfTokens | src/lib/validations.ts:25-36 | for tokenised tags only the upper length bound, the count and distinctness can fail |
| Validation.TodoFormIssues | src/lib/validations.ts:4-37 | no issues iff every field passes |
| Validation.ParseTodoForm | src/lib/validations.ts:4-37 | accepted iff every field passes, then with the transformed description and tags |
| Validation.AcceptedTagsAreClean | src/lib/validations.ts:20-36 | an accepted form's tags are trimmed, comma-free words of 1..20 characters, at most five and distinct |
| Validation.EmailIssues | src/lib/validations.ts:40-42 | an e-mail passes iff non-empty and matching the e-mail pattern |
| Validation.NormaliseEmail | src/lib/validations.ts:43 | the stored address is trimmed, holds no capital letter, is no longer than the input, and is empty exactly when the input is blank |
| Validation.NormaliseEmailIdempotent | src/lib/validations.ts:43 | normalising a stored address changes nothing |
| Validation.PasswordIssues | src/lib/validations.ts:44-47 | a password passes iff it has 6..100 characters |
| Validation.ParseSignIn | src/lib/validations.ts:39-48 | accepted iff e-mail and password pass, with the normalised e-mail |
| Validation.NameIssues | src/lib/validations.ts:51-55 | a name passes iff it has 2..50 characters and more than one after trimming |
| Validation.ParseSignUp | src/lib/validations.ts:50-62 | accepted iff every field passes and the passwords match; a mismatch is always reported on `confirmPassword` |
| Validation.MismatchReportedAlongsideFieldIssues | src/lib/validations.ts:59-62 | the mismatch is reported even when every field failed |
| Validation.IdIssues | src/lib/validations.ts:66 | no issues iff every id is positive |
| Validation.ParseBulk | src/lib/validations.ts:65-70 | accepted iff 1..50 positive ids and the action is `complete` or `delete` |
| Validation.ParseApproval | src/lib/validations.ts:73-76 | accepted iff the user id is positive |
| Validation.ParseFilter | src/lib/validations.ts:79-84 | accepted iff the filter is absent or a known name, the search has at most 100 characters, and page and limit are in range; an absent filter becomes `all` |
| Validation.EmptyFilterDefaults | src/lib/validations.ts:80 | an empty query parses to `all` with nothing else set |
| Forms.CreateTitleIssues | src/components/todos/create-todo-form.tsx:29 | the form's title passes iff it has 1..100 characters, with no blank check |
| Forms.SubmitCreate | src/components/todos/create-todo-form.tsx:47-81 | a valid title sends the fields with the comma-tokenised tags; success resets all four fields, anything else keeps them |
| Forms.Preview | src/components/todos/create-todo-form.tsx:84 | the preview tags are non-empty and space-free |
| Forms.SubmittedTagsMatchSchema | src/components/todos/create-todo-form.tsx:51 | the submitted tags are the schema's tag value |
| Forms.BlankTitlePassesForm | src/components/todos/create-todo-form.tsx:29 | a blank title passes the form but fails the shared schema |
| Forms.PreviewDisagreesWithSubmission | src/components/todos/create-todo-form.tsx:51-84 | `a b` previews as two tags but is submitted as one |
| Forms.InitialFields | src/components/todos/edit-todo-form.tsx:22-27 | the form opens on the stored title; missing description, due date and tags open empty |
| Forms.SubmitEdit | src/components/todos/edit-todo-form.tsx:32-54 | a blank title sends nothing; otherwise the title is trimmed; a blank description and an empty due date become null; tags are space-free |
| Forms.EditRoundTrip | src/components/todos/edit-todo-form.tsx:22-54 | saving a stored todo unchanged sends back exactly what is stored |
| Forms.EditOutcome | src/components/todos/edit-todo-form.tsx:56-74 | the dialog closes iff the server accepted; an error answer shows the server's message |
| Tags.Clean | src/lib/validations.ts:23 | the kept pieces are non-empty and trimmed, and there are no more of them than the input |
| Tags.Tokenise | src/components/todos/create-todo-form.tsx:51 | tokens are non-empty, trimmed and free of the separator |
| Tags.TokeniseCommaJoin | src/app/api/admin/export-todos/route.ts:88 | tags joined with `, ` tokenise back to the same list |
| Tags.TokeniseSpaceJoin | src/components/todos/edit-todo-form.tsx:27-52 | tags joined with spaces tokenise back to the same list |
| Tags.PreviewDiffersFromSubmission | src/components/todos/create-todo-form.tsx:51-84 | `a b` is one comma token but two space tokens |
| Text.TrimIdempotent | src/lib/validations.ts:12 | trimming twice equals trimming once |
| Text.SplitJoin | src/components/todos/edit-todo-form.tsx:52 | splitting a join on a separator absent from the parts gives the parts back |
| Text.NatToStringRoundTrip | src/lib/pusher.ts:33 | a decimal rendering reads back as the number |
| Text.NatToStringInjective | src/lib/pusher.ts:33 | distinct numbers render differently |
| Text.Pad2IsPaddedDecimal | src/components/ui/date-time-picker.tsx:128 | `padStart(2, '0')` of a number below 100 gives its two decimal digits |
| Text.ParseIntOfDigits | src/components/ui/date-time-picker.tsx:101-103 | `parseInt` of a digit string is its value |
| TimeSlots.Slot | src/components/ui/date-time-picker.tsx:128 | an option value is five characters with `:` in the middle |
| TimeSlots.TimeOptions | src/components/ui/date-time-picker.tsx:124-139 | exactly 96 options, the i-th being hour i / 4 at minute 15 (i % 4) |
| TimeSlots.ParseSlot | src/components/ui/date-time-picker.tsx:101-103 | splitting a value on `:` and parsing gives back its hour and minute |
| TimeSlots.SlotAtFacts | src/components/ui/date-time-picker.tsx:126-128 | every option has an hour in 0..23 and a minute in {0, 15, 30, 45}, i.e. minute 15 i of the day |
| TimeSlots.SlotsIncrease | src/components/ui/date-time-picker.tsx:126-136 | options strictly increase in list order and are distinct |
| TimeSlots.NineOClockSlot | src/components/ui/date-time-picker.tsx:113 | nine o'clock renders as `09:00` |
| TimeSlots.Clear | src/components/ui/date-time-picker.tsx:111-116 | no date, the time back to nine o'clock, and `undefined` told to the owner |
| TimeSlots.ChangeTime | src/components/ui/date-time-picker.tsx:98-107 | the time field changes; the owner hears iff a date is chosen |
| TimeSlots.ChangeDate | src/components/ui/date-time-picker.tsx:85-96 | an empty date string does nothing; otherwise the date is chosen and the owner hears that date combined with the hour and minute parsed from the time field |
| TimeSlots.ChosenOptionReachesOwner | src/components/ui/date-time-picker.tsx:98-107 | choosing an option emits the date at exactly that option's hour and minute |
| TimeSlots.ChosenDateKeepsFieldTime | src/components/ui/date-time-picker.tsx:85-107 | with an offered time in the field, choosing a date emits that date at the option's hour and minute, and a time chosen next moves the emitted value to the new option on the same date |
| TimeSlots.NearestQuarter | src/components/ui/date-time-picker.tsx:50 | the nearest multiple of 15 minutes, at most seven and a half minutes away |
| TimeSlots.StartMinute | src/components/ui/date-time-picker.tsx:49-51 | the starting minute of the day, which wraps past midnight, is below 1440 |
| TimeSlots.InitialTime | src/components/ui/date-time-picker.tsx:44-53 | the starting time is five characters with `:` in the middle and parses back to the starting minute's hour and minute |
| TimeSlots.InitialTimeIsOffered | src/components/ui/date-time-picker.tsx:44-53 | the starting time is always one of the offered options, the one at the starting minute's quarter |
| TodoItem.ToggleRequestFor | src/components/todos/todo-item.tsx:26-40 | the request names the todo and asks for the opposite flag |
| TodoItem.ToggleToast | src/components/todos/todo-item.tsx:42-61 | success on an accepted request, an error otherwise |
| TodoItem.ToggleToastReportsRequest | src/components/todos/todo-item.tsx:44-61 | the success toast quotes the title and announces completion exactly for an open todo; the failure toast asks for a retry |
| TodoItem.OverdueFacts | src/components/todos/todo-item.tsx:67 | a completed todo, or one without a due date, is never overdue; an overdue todo stays overdue |
| Seqs.RemoveKeyKeepsUnique | src/components/admin/pending-users-client.tsx:82-84 | removing by key keeps keys unique |
| Seqs.RemoveKeyIdempotent | src/app/api/admin/approve-user/route.ts:36-41 | removing by key twice equals once |

## Left out

- The store is two sequences in creation order rather than maps keyed by id. Lookups by id, and uniqueness of ids, are stated over the sequences.
- The database's `LIKE` search of `GET /api/todos` is a parameter (`like`). Its `%` and `_` wildcards are not modelled.
- Number-like strings are not modelled. The server's lookups by an id that arrives as a numeric string, and the database's coercions of such values, are left out: an id that is not a JSON number finds nothing.
- NaN and non-integer numbers in request bodies are not modelled.
- bcrypt is the opaque `hash` parameter.
- The database clock and `new Date()` are the `now` parameter. Date parsing and ISO or locale formatting are the parameters `toDate`, `iso` and `dateLabel`.
- `Math.random` notification ids are a caller-supplied fresh id.
- The future-date check of the todo form is the parameter `future`. The e-mail pattern of the validation library is `isEmail`.
- The `setTimeout` due-date reminder of `POST /api/todos` is not modelled. It depends on a timer and runs after the response.
- `Notify.CeilDiv` models `Math.ceil` on exact rationals rather than floating point.
- The `Response` branch of `handleApiError` is not modelled, because it reads an asynchronous body.
- json2csv's rendering of the user export is not modelled. The export's records are, and the CSV text is the library's.
- The Pusher transport is not modelled: connection handling, subscription lifecycle, teardown and unbinding, and delivery order across channels. `Events.Deliver` is the trigger log read per channel. The toast provider's teardown is therefore not modelled.
- The `configured` flag stands for whether the notification service is set up.
- Rendering, dialogs, the users dialog's fetch, and every page beyond the derivations above are not modelled.
- `Stats.Rate`: exact half-up rounding, which differs from floating-point `Math.round` where the double-precision product lands just below a half. For example, 23 of 40 gives 57.49999999999999 in double precision, so the card shows 57 where the model gives 58.
- `Toasts.ExportCompletedToast`: `Text.Upper` is ASCII upper-casing. JavaScript's `toUpperCase` maps some other letters to several characters (`ß` to `SS`), so the stated description length holds for the ASCII formats the export offers.
- `TodoItem.ToggleToast`: the success messages begin with an emoji whose bytes are stored mis-encoded in `todo-item.tsx`. The model uses ✅ and 🔄.
- `TodoRoutes.Create`, `TodoRoutes.Update`: the description is a string or absent. A truthy description of another JSON type would be stored in the driver's own text form. That case is not modelled.
- `TodoRoutes.Create`, `TodoRoutes.Update`: a tags array with a non-string element is answered 500. The database might coerce such an element instead.
- `Http.DueDate`: JavaScript's date parsing is the parameter `toDate`. Its `None` stands for an invalid date.
- `FormUrl.DecodeUtf8`: it answers `None` on a malformed byte sequence, where the URL Standard's decoder substitutes U+FFFD. Only bytes a serialised query never holds reach that case. Lone surrogates cannot occur in a Dafny string, so `URLSearchParams`' replacement of them is not modelled.
- `QueryParams.Target`: the parameters already in the URL when the page loads are taken as the list of pairs they parse to. Percent-decoding of that incoming query is not modelled.
- `Exports.AdminRows`: `desc(createdAt)` leaves the order of todos created at the same moment to the database. The model reads the table backwards.
- `Exports.Mine`: the user export's query has no `ORDER BY`. The model takes the table's order.
- The `Content-Disposition` file names of both exports are not modelled. They carry only the export date.
- `TimeSlots.InitialTime` counts the clock's hour and minute only. Seconds are set to zero by `setMinutes`, and a carry past midnight moves the date, which the picker's time field does not show.

Observations from the model, as the code does them, not defects claimed:
- No route publishes `todo-created`, `todo-deleted`, `user-approved`, `task_due` or `admin-notification`. Approving, bulk actions, creating and deleting therefore leave the administrator's cards stale until the page is reloaded.
- A user without a name is shown as `null` in the recent-todo messages.
- The two pluralisations differ at zero (`Toasts.PluralisationsAgreeExceptZero`).
- The defaults of `todoFilterSchema` for page and limit are never produced.
- The create form checks no blank title.
- The tag preview splits on spaces while submission splits on commas (`Forms.PreviewDisagreesWithSubmission`).
- `GET /api/todos` with an unknown filter lists every status, while the server-rendered list shows nothing (`TodoFilter.UnknownFilterShowsNothing`).

## Findings

| source | as written | input that shows it | evidently intended | confidence | as-written member | corrected member |
|---|---|---|---|---|---|---|
| src/app/api/admin/export-todos/route.ts:88,91 | the tags are joined inside quotes without doubling inner quotes, and the owner e-mail is written unquoted | a tag `a"b` makes the line unreadable; an e-mail `a,b@x` splits into two columns | every free-text field quoted and escaped, so that the CSV reads back one record per todo | not executed | Exports.AdminLineAsWrittenShiftsColumns, Exports.AdminLineAsWrittenUnreadable | Exports.AdminCsvRoundTrip |
| src/app/api/auth/signup/route.ts:37-58 | the duplicate lookup uses the e-mail as typed, while the stored e-mail is lower-cased and trimmed | `A@b` when `a@b` is registered: the lookup misses and the insert hits the unique column, giving 500 | the lookup by the stored address, answering 400 `User already exists` | not executed | Accounts.SignUpAsWrittenCollides, Accounts.CaseVariantSignUpFails | Accounts.SignUpCorrectedErrors |
| src/components/admin/all-users-modal.tsx:73-85 | the users CSV joins raw fields with commas | a name `Doe, Jane` shifts every later column by one | quoted and escaped free-text fields, so that the CSV reads back one record per user | not executed | Directory.UserLineAsWrittenShiftsColumns | Directory.UsersCsvRoundTrip |
| src/app/api/todos/toggle/route.ts:77-93 | `todo-completed` is sent after every successful toggle, even when the flag did not change | an administrator re-completes a completed todo: the cards count one more completed todo than the database holds | the event sent only when the flag changes, so the cards keep matching the database | not executed | ToggleRoute.ToggleAsWrittenMiscountsUnchangedFlag, ToggleRoute.RepeatedCompletionMiscounts | ToggleRoute.ToggleCorrectedKeepsAdminStats |
