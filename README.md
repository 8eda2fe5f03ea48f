# Support-ticket API access rules, in Dafny

This project models the backend of a support-ticketing application. Customers
open tickets, admins triage them, and both sides post comments and chat
messages on a ticket. The model covers the three API controllers:

- `TicketController`: list, create, show, update and delete tickets.
- `CommentController`: create, edit and delete comments.
- `MessageController`: list and post chat messages.

The database is one object, `Storage.Database`. It holds three tables (maps
from id to row) and an auto-increment counter per table. The read-only actions
(ticket list, ticket show, message list) are functions over a table's value.
The writing actions are methods that change the database in place. Each
writing method's `modifies` clause names only the fields of its own table, so
a ticket action never touches comments or messages, and no action except
posting a message touches the message table.

Every action takes the caller as a `Caller(id, role)` and answers a `Response`:
`Ok(200 | 201, payload)`, `Forbidden` (403), `NotFound` (404) or
`ValidationError(fields)` (422, naming every field that failed).

The rules the model keeps, in the order the code checks them:

- Role filtering: a customer lists and reaches only the tickets they own.
  Any other role reaches every ticket.
- Status gate: only an admin may change `status`. For anyone else a valid
  `status` in an update is silently dropped and the rest of the update applies.
- Comment ownership: only a comment's author may edit or delete it, whatever
  their role, admins included.
- Append-only messages: messages are created and never edited or removed.
- Order of checks: a missing row gives `NotFound` before any access check.
  Ticket update checks access before validating. Comment creation and message
  posting validate first.

Modules, one per file: `Domain` (entities, roles, the access predicates),
`Sequences` (table scan, `where` and `orderBy` as functions), `Validation`
(request bodies and the validation rules), `Storage` (the database object and
its invariant), and one module per controller.

Three points where the code's behaviour is easy to misread; the model follows
the code:

- Visibility is "not (customer and not owner)", not "admin or owner". So a
  user whose role is neither `customer` nor `admin` sees and edits every
  ticket, but cannot change a status. `Role` has a third case, `Other`, for this.
- The 255-character limit applies to `category` as well as `subject`.
- Creating a comment on a ticket that does not exist gives a validation error
  (422), not a 404, because the `exists` rule runs first.

## Model

| member | source | states |
|---|---|---|
| `Domain.RoleNamed` | backend/app/Http/Controllers/Api/TicketController.php:93 | a role string is the customer role exactly when it equals "customer", the admin role exactly when it equals "admin", and any other string is a third role |
| `Domain.ParsePriority` | backend/app/Http/Controllers/Api/TicketController.php:39 | a priority string is accepted exactly when it is one of low, medium, high, urgent, and the priority accepted has that name |
| `Domain.ParseStatus` | backend/app/Http/Controllers/Api/TicketController.php:89 | a status string is accepted exactly when it is one of open, in_progress, resolved, closed, and the status accepted has that name |
| `Domain.PriorityNameRoundTrip` | backend/app/Http/Controllers/Api/TicketController.php:39 | every priority's name passes the rule and reads back as that priority |
| `Domain.StatusNameRoundTrip` | backend/app/Http/Controllers/Api/TicketController.php:89 | every status's name passes the rule and reads back as that status |
| `Domain.AccessIsOwnershipForCustomers` | backend/app/Http/Controllers/Api/TicketController.php:64-66 | a customer reaches a ticket if and only if they own it; every other role always reaches it |
| `Domain.OtherRoleAccessesEverythingButStatus` | backend/app/Http/Controllers/Api/TicketController.php:80-95 | a role that is neither customer nor admin passes the access check but fails the status gate |
| `Sequences.Rows` | backend/app/Http/Controllers/Api/TicketController.php:25 | a table scan returns every row of the table and nothing else, as many rows as the table has, each row once when rows are distinct |
| `Sequences.Filter` | backend/app/Http/Controllers/Api/TicketController.php:21-23 | a `where` keeps every selected row as often as it occurred and drops every other row |
| `Sequences.SortBy` | backend/app/Http/Controllers/Api/TicketController.php:25 | an `orderBy` returns the same rows, as a permutation, ordered by the key |
| `Sequences.InsertBy` | backend/app/Http/Controllers/Api/TicketController.php:25 | inserting one row into an ordered list keeps it ordered and adds exactly that row |
| `Sequences.SameRowsAfterSort` | backend/app/Http/Controllers/Api/MessageController.php:26-29 | reordering keeps the same rows and keeps them distinct |
| `Validation.ValidateNewTicket` | backend/app/Http/Controllers/Api/TicketController.php:35-40 | creation passes if and only if subject and category are non-empty strings of at most 255 characters, description is a non-empty string and priority is one of the four names; on failure it names exactly the failing fields; on success it carries the request's values |
| `Validation.ValidateTicketUpdate` | backend/app/Http/Controllers/Api/TicketController.php:84-90 | an update passes if and only if every field present obeys its rule; on failure it names exactly the failing fields; on success the patch holds exactly the fields the request carried, with their values |
| `Validation.ValidateNewComment` | backend/app/Http/Controllers/Api/CommentController.php:17-20 | comment creation passes if and only if `ticket_id` names an existing ticket and `comment` is a non-empty string; on failure it names exactly the failing fields |
| `Validation.ValidateText` | backend/app/Http/Controllers/Api/MessageController.php:39-41 | a required text field passes if and only if it is a non-empty string, and otherwise the error names that one field |
| `TicketController.Index` | backend/app/Http/Controllers/Api/TicketController.php:14-28 | the listing answers 200 and holds exactly the tickets the caller owns when the caller is a customer, every ticket otherwise, newest `created_at` first, each once when every row sits under its own id |
| `TicketController.Show` | backend/app/Http/Controllers/Api/TicketController.php:57-69 | an unknown id gives NotFound, a customer who does not own the ticket gets Forbidden, and otherwise the stored ticket is returned unchanged with 200 |
| `TicketController.ShowAgreesWithIndex` | backend/app/Http/Controllers/Api/TicketController.php:21-23 | a ticket is shown to a caller if and only if it appears in that caller's listing |
| `TicketController.StripStatus` | backend/app/Http/Controllers/Api/TicketController.php:92-95 | the patch keeps a status only when the caller is an admin; every other key is kept as it was |
| `TicketController.Patched` | backend/app/Http/Controllers/Api/TicketController.php:97 | only the keys present in the patch change; id, owner and creation time never change; a well-formed ticket stays well formed under a validated patch |
| `TicketController.NonAdminKeepsStatus` | backend/app/Http/Controllers/Api/TicketController.php:92-97 | an update by anyone but an admin leaves the status as it was, whatever status the request carried |
| `TicketController.AdminSetsAnyStatus` | backend/app/Http/Controllers/Api/TicketController.php:89-97 | an admin's update sets the requested status whatever the previous one was |
| `TicketController.Store` | backend/app/Http/Controllers/Api/TicketController.php:33-52 | invalid input gives the validation error and changes nothing; otherwise a new ticket with a fresh id, owned by the caller, with status open and the request's fields, is added and returned with 201 |
| `TicketController.Update` | backend/app/Http/Controllers/Api/TicketController.php:74-100 | NotFound before Forbidden before validation; any refusal changes nothing; success rewrites only that ticket with the gated patch, keeps its owner, and keeps its status unless the caller is an admin |
| `TicketController.Destroy` | backend/app/Http/Controllers/Api/TicketController.php:105-118 | NotFound, then Forbidden for a customer who does not own the ticket, both changing nothing; otherwise exactly that id is removed and every other ticket is untouched |
| `CommentController.Store` | backend/app/Http/Controllers/Api/CommentController.php:15-37 | validation comes first: the answer is a validation error if and only if validation fails, naming exactly its failing fields, and never NotFound; a customer commenting on a ticket they do not own gets Forbidden and no comment is created; a valid request on a ticket the caller may reach always succeeds and adds one comment with a fresh id, the caller as author, the requested ticket and text, with 201 |
| `CommentController.AuthorCheckIgnoresRole` | backend/app/Http/Controllers/Api/CommentController.php:46-49 | the author check depends on the caller's id only, never on the role |
| `CommentController.Update` | backend/app/Http/Controllers/Api/CommentController.php:42-58 | NotFound before the author check; anyone but the author, admins included, gets Forbidden; success changes only that comment's text and keeps its author and ticket |
| `CommentController.Destroy` | backend/app/Http/Controllers/Api/CommentController.php:63-75 | NotFound before the author check; anyone but the author gets Forbidden and nothing changes; otherwise exactly that comment is removed |
| `MessageController.Index` | backend/app/Http/Controllers/Api/MessageController.php:15-32 | an unknown ticket gives NotFound, a customer who does not own it gets Forbidden, and otherwise the answer holds exactly that ticket's messages, oldest `created_at` first, each once when every row sits under its own id |
| `MessageController.Store` | backend/app/Http/Controllers/Api/MessageController.php:37-59 | validation comes before the ticket lookup, the lookup before the access check; every refusal leaves the messages unchanged; success appends one message with a fresh id, the caller as sender and the path's ticket, with 201 |
| `MessageController.ListingSurvivesAppend` | backend/app/Http/Controllers/Api/MessageController.php:15-59 | when the message table has only grown, every message a caller could list for a ticket is still listed |
| `Storage.AppendOnlyComposes` | backend/app/Http/Controllers/Api/MessageController.php:52-56 | append-only steps compose. Every step here is append-only: `MessageController.Store` promises it, and no other action's `modifies` clause names the message table. So over any run of actions the message table only grows and keeps every row unchanged |

## Left out

- Authentication: the caller's id and role are given to each action. How a
  token becomes a user is not part of this model.
- Eager loading: responses do not carry the related `user`, nor the
  `comments` that ticket listing and showing load. Payloads are records, not JSON.
- Message bodies of refusals: `Forbidden` carries no "Unauthorized" text.
- Timestamps: `created_at` is a number supplied by the caller of each action.
  `updated_at` is not modelled.
- Rows with equal `created_at`: the model lists them in id order. The contracts
  promise only the order by `created_at`, because the database decides ties.
- Cascading deletion of a ticket's comments and messages lives in the schema,
  which is not part of this model. Ticket deletion here touches only the
  ticket table.
- Database failures (server errors, foreign-key violations) are not modelled.
  Every write succeeds.
- Request middleware: text inputs are taken as already trimmed. An empty
  string counts as null, as it does after the framework's default middleware.
  `ticket_id` is modelled as an optional natural number, without string-to-number coercion.
- Ids and owner columns are natural numbers, so the strict `!==` comparisons
  of `user_id` with the caller's id are comparisons of numbers. A database
  driver that returned `user_id` as a string would make `!==` refuse even the
  owner; that behaviour is not modelled.
- Concurrency: each action is one atomic step, so two concurrent updates are
  two steps in some order (last write wins).
- The web client is not part of this model: the forms, lists, admin-only status
  select, chat polling every 3 seconds, optimistic append, API wrappers and styles.
