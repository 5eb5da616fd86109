# Helpdesk ticket rules in Dafny

This project models the logic of a helpdesk ticketing API written as a Laravel
application: the rules in its ticket, comment and dashboard controllers.
Users open tickets, support staff and admins update their status and
priority, tickets are assigned, comments are attached to tickets, and a
dashboard shows per-role statistics.

- `model.dfy` (module `Model`): roles, statuses, priorities, the ticket and
  comment rows, the answer of an action (`Ok` 200, `Created` 201,
  `Forbidden` 403, `Invalid` 422, `NotFound` 404) and the two mails.
- `query.dfy` (module `Query`): the query builder calls the controllers use,
  over the ticket table as a sequence in id order: `find`, chains of
  `where`/`whereIn`/`whereNull`/`whereDate` clauses (`Select`), `count`,
  `latest()->take(n)` (`Latest`) and `groupBy('priority')`
  (`GroupByPriority`).
- `tickets.dfy` (module `TicketRules`): the decisions of `index`, `show`,
  `store`, `update` and `assign`, as functions of the actor, the request and
  the ticket row.
- `comments.dfy` (module `CommentRules`): listing a ticket's comments and
  building a new one.
- `dashboard.dfy` (module `Dashboard`): `getStats` and the admin, support and
  user statistics, with lemmas relating the counts.
- `store.dfy` (module `Helpdesk`): class `Store` holding the `tickets`,
  `users` and `comments` tables. Its methods are the actions that write:
  ticket `store`, `update` and `assign`, and comment `store`. Ticket `update`
  and `assign` and comment `store` bind the route's ticket (404 when it is
  missing); every action applies its decision function and writes the row. Each keeps the invariant `Valid()`: ids are
  positions plus one, and every reference names an existing user or ticket.

Inputs that the application gets from outside are parameters: the
authenticated user (an id that must be in the `users` table), the request
fields (`Option` values, `None` when a field is absent) and the current
instant `now` or day `today` (integers), and the number of users
(`User::count()`) for the admin statistics, which `getStats` takes as a
parameter instead of counting the `users` table. A mail is an output value: the
action returns it and nothing is sent.

The model follows the controllers where they differ from the feature tests
in `tests/Feature/TicketStatusTest.php`:

- `update` accepts only `open`, `in_progress` and `closed` as a status
  (TicketController.php:63). The test at lines 32-50 expects `pending` and
  `resolved` to be accepted. See `TicketRules.PendingAndResolvedRejected`.
- `assign` refuses only the role `user` (TicketController.php:81). The test
  at lines 76-80 expects support staff to be refused. See
  `TicketRules.SupportMayAssign`.
- `assign` checks only that the target user exists (TicketController.php:86).
  The test at lines 100-111 expects a 422 for a target who is not support
  staff. See `TicketRules.AnyExistingUserMayBeAssignee`.
- An unrecognised role is refused only by the dashboard. For `index`, `show`,
  `update` and `assign` it is treated like admin and support, because those
  actions only test for the role `user`.
- No action has a rule for closed tickets. No action limits support staff to
  tickets assigned to them. No action checks who may comment on a ticket.

## Model

| member | source | states |
|---|---|---|
| `TicketRules.Index` | app/Http/Controllers/TicketController.php:11-20 | a plain user lists exactly the tickets whose owner is that user; every other role, including an unrecognised one, lists the whole table |
| `TicketRules.Show` | app/Http/Controllers/TicketController.php:43-52 | 404 iff no ticket has the id; 403 iff the actor is a plain user and does not own the ticket; otherwise the stored row unchanged |
| `TicketRules.UserSeesOnlyOwnTickets` | app/Http/Controllers/TicketController.php:15-16 | a plain user never receives a ticket they do not own, from `index` or from `show` |
| `TicketRules.Create` | app/Http/Controllers/TicketController.php:22-41 | 201 iff title and description are present and non-empty and any priority given is low, medium or high, else 422; the new row has the given id, status open whatever the request says, the actor as owner, no assignee, priority medium when none was given, both timestamps `now`; exactly one `TicketCreated` mail, to the creator, iff the row is created |
| `TicketRules.Update` | app/Http/Controllers/TicketController.php:54-75 | 403 iff the actor is a plain user (checked before validation); 422 iff a status outside open/in_progress/closed or a priority outside low/medium/high is sent; on success only status, priority and `updated_at` may differ, and `updated_at` becomes `now` exactly when the status or the priority changed, and stays as stored otherwise; a `TicketStatusUpdated` mail to the owner iff the update succeeds and a status was sent that differs from the stored one |
| `TicketRules.BlankTitleRejected` | app/Http/Controllers/TicketController.php:24-28 | a title made only of blanks that PHP's `trim` removes is rejected with 422 and no mail |
| `TicketRules.UpdateIdempotent` | app/Http/Controllers/TicketController.php:67-72 | sending the same successful changes again leaves the row as the first call left it and sends no mail |
| `TicketRules.PendingAndResolvedRejected` | app/Http/Controllers/TicketController.php:62-65 | even for an admin, an update to `pending` or `resolved` is rejected with 422 |
| `TicketRules.Assign` | app/Http/Controllers/TicketController.php:77-92 | 403 iff the actor is a plain user; otherwise 200 iff an assignee is given and exists in the users table, else 422; on success the assignee is set and only `assigned_to` and `updated_at` may change, `updated_at` only when the assignee changed |
| `TicketRules.SupportMayAssign` | app/Http/Controllers/TicketController.php:81-83 | support staff may assign a ticket to any existing user |
| `TicketRules.AnyExistingUserMayBeAssignee` | app/Http/Controllers/TicketController.php:85-89 | an admin may make a plain user the assignee |
| `Helpdesk.Store.StoreTicket` | app/Http/Controllers/TicketController.php:30-38 | keeps `Valid()`; answer and mail are those of `TicketRules.Create` with the next id; on success exactly that row is appended and appears at the end of its creator's `index`; nothing else changes |
| `Helpdesk.Store.UpdateTicket` | app/Http/Controllers/TicketController.php:54-75 | keeps `Valid()`; 404 for an id not in the table; otherwise the answer and mail of `TicketRules.Update` on the stored row, and on success only that row is replaced; users and comments unchanged |
| `Helpdesk.Store.AssignTicket` | app/Http/Controllers/TicketController.php:77-92 | keeps `Valid()`; 404 for an id not in the table; otherwise the answer of `TicketRules.Assign`, and on success only that row is replaced |
| `CommentRules.ForTicket` | app/Http/Controllers/CommentController.php:13 | the comments listed for a ticket are exactly the stored comments whose `ticket_id` is that ticket |
| `CommentRules.Index` | app/Http/Controllers/CommentController.php:11-14 | 404 iff the ticket does not exist; otherwise exactly that ticket's comments, with no role check |
| `CommentRules.ForTicketAppend` | app/Http/Controllers/CommentController.php:22-25 | appending a comment puts it at the end of its own ticket's list, in stored order, and leaves every other ticket's list unchanged |
| `CommentRules.Create` | app/Http/Controllers/CommentController.php:16-28 | 201 iff the content is present and non-empty, else 422; the new comment carries the route's ticket id, the actor as author, the content and `now` |
| `Helpdesk.Store.StoreComment` | app/Http/Controllers/CommentController.php:16-28 | keeps `Valid()`; 404 for a missing ticket; otherwise the answer of `CommentRules.Create` with the next id; on success exactly one comment is appended and the existing comments and tickets are unchanged |
| `Query.Select` | app/Http/Controllers/DashboardController.php:50-54 | a chain of `where` clauses returns exactly the rows that satisfy every clause, and never more rows than the table |
| `Query.Find` | app/Http/Controllers/TicketController.php:43 | route binding finds a row with the requested id, or reports that no row has it |
| `Query.FindByPosition` | app/Http/Controllers/TicketController.php:43 | in a table whose ids are positions plus one, `find(id)` is the row at position id - 1, and nothing outside 1..count |
| `Query.SelectAppend` | app/Http/Controllers/TicketController.php:30 | when a row is created, every query gains it at its end if it matches and is otherwise unchanged |
| `Query.SelectMonotone` | app/Http/Controllers/DashboardController.php:56-63 | a query whose clauses imply another's never counts more rows |
| `Query.SelectPartition` | app/Http/Controllers/DashboardController.php:93-99 | two disjoint refinements of a query count at most as many rows as the query, and exactly as many when together they cover its rows |
| `Query.SortNewestFirst` | app/Http/Controllers/DashboardController.php:42 | `latest()` orders the rows by `created_at`, newest first, keeping every row once |
| `Query.Latest` | app/Http/Controllers/DashboardController.php:41-44 | `latest()->take(n)` returns min(n, count) rows, newest first, drawn from the input, and no row left out is newer than a row taken |
| `Query.GroupTotals` | app/Http/Controllers/DashboardController.php:38-40 | the per-priority group counts add up to the number of tickets |
| `Query.GroupCounts` | app/Http/Controllers/DashboardController.php:38-40 | each priority group's total is the number of tickets with that priority, and is positive |
| `Query.GroupsDistinct` | app/Http/Controllers/DashboardController.php:38-40 | no priority appears in two groups |
| `Query.GroupKeysArePriorities` | app/Http/Controllers/DashboardController.php:38-40 | there is a group for every priority present in the table and for no other |
| `Dashboard.GetStats` | app/Http/Controllers/DashboardController.php:13-28 | an unrecognised role gets 403 and every known role gets 200; admin, support and user each get their own statistics |
| `Dashboard.AdminStatsFacts` | app/Http/Controllers/DashboardController.php:30-46 | `total_tickets` is the table size; `tickets_open + tickets_in_progress` is at most the total; the priority groups are distinct, positive, cover the priorities present and add up to the total; `recent_tickets` has min(5, total) rows, newest first, drawn from the table |
| `Dashboard.SupportStatsFacts` | app/Http/Controllers/DashboardController.php:48-89 | `resolved_tickets_today` is at most `resolved_tickets_total`; `urgent_assigned_tickets` holds exactly the tickets assigned to the actor with priority high and status open or in progress, and there are no more of them than `assigned_tickets_count`; `my_assigned_tickets` has at most min(10, `assigned_tickets_count`) rows, all assigned to the actor with an active status, newest first |
| `Dashboard.UserStatsFacts` | app/Http/Controllers/DashboardController.php:91-112 | `my_open_tickets + my_closed_tickets` is at most the number of tickets the user owns, and equal to it when no owned ticket has an unknown status; `recent_tickets` has at most 5 rows, all owned by the user, newest first |
| `Dashboard.UserCounts` | app/Http/Controllers/DashboardController.php:93-99 | the user's open-status and closed-status counts together are at most the tickets they own, and exactly that many when none has an unknown status |
| `Dashboard.UserRecent` | app/Http/Controllers/DashboardController.php:101-104 | the user's recent tickets are at most five, all their own, newest first |

## Left out

- Mail delivery and the mail templates (`app/Mail/TicketStatusUpdated.php`, `TicketCreated`): a mail is a value returned with the answer, and a send failure is not modelled.
- HTTP and JSON building, routing, `auth:sanctum` and the `role:admin` middleware: the actor is a parameter, assumed authenticated and present in the users table.
- The creator summaries added by eager loading (`with('user')`) in listings, the dashboard and comment listings: rows are returned without them.
- The users, profile and auth controllers: the `users` table is fixed in this model. No controller in the model deletes tickets.
- Laravel's input middleware (trimming, empty string to null) and the `string` type rule: a required field is modelled as present and not empty once trimmed (so whitespace-only values are rejected), and field values are already strings, priorities or statuses.
- Any status or priority string other than the known ones is one value (`UnknownStatus`, `UnknownPriority`). So distinct unknown priorities in stored rows fall into one `groupBy` group.
- Time zones and Carbon: instants are integer seconds, and the day of `whereDate` is the instant divided by 86400.
- Ordering where SQL leaves it open: `Ticket::all()`, `where(...)->get()` and a ticket's comments come in table (id) order; `groupBy` groups come in order of first appearance; ties in `latest()` keep table order.
- Validation error messages: a 422 carries no list of failing fields.
- Concurrency and transactions: each action is one atomic step on the store.
- TicketRules.Index: for a plain user the contract states which tickets are listed, not their order. The function keeps table order.
- CommentRules.Index: the contract states which comments are listed, not their order. The order is covered only by `CommentRules.ForTicketAppend`.
