/**
 * The entities of the support-ticketing API (users' roles, tickets, comments,
 * chat messages), the responses the controllers return, and the two access
 * rules that every controller action repeats.
 */
module Domain {

  datatype Option<T> = None | Some(value: T)

  /** The `role` column of a user. Only the exact strings "customer" and
      "admin" are ever tested; any other value is kept as `Other`. */
  datatype Role = Customer | Admin | Other(name: string)

  /** The authenticated user making a request: their id and role. */
  datatype Caller = Caller(id: nat, role: Role)

  datatype Priority = Low | Medium | High | Urgent

  datatype Status = Open | InProgress | Resolved | Closed

  /** A row of the `tickets` table; `createdAt` is the `created_at` timestamp. */
  datatype Ticket = Ticket(
    id: nat,
    userId: nat,
    subject: string,
    description: string,
    category: string,
    priority: Priority,
    status: Status,
    createdAt: nat)

  /** A row of the `comments` table; `text` is the `comment` column. */
  datatype Comment = Comment(id: nat, ticketId: nat, userId: nat, text: string, createdAt: nat)

  /** A row of the `messages` table; `text` is the `message` column. */
  datatype Message = Message(id: nat, ticketId: nat, userId: nat, text: string, createdAt: nat)

  /** The JSON body of a successful response. */
  datatype Payload =
    | TicketBody(ticket: Ticket)
    | TicketList(tickets: seq<Ticket>)
    | CommentBody(comment: Comment)
    | MessageBody(message: Message)
    | MessageList(messages: seq<Message>)
    | Confirmation(text: string)

  /** What a controller action answers: a success with its HTTP code (200 or
      201), 403 "Unauthorized", 404 from `findOrFail`, or 422 naming the
      request fields that failed validation. */
  datatype Response =
    | Ok(code: nat, payload: Payload)
    | Forbidden
    | NotFound
    | ValidationError(fields: set<string>)

  /** The `max:255` limit on subject and category. */
  const MaxLength: nat := 255

  const PriorityNames: set<string> := {"low", "medium", "high", "urgent"}
  const StatusNames: set<string> := {"open", "in_progress", "resolved", "closed"}

  /** Reads the `role` column: strict comparison against the two known names. */
  function RoleNamed(s: string): (r: Role)
    ensures r == Customer <==> s == "customer"
    ensures r == Admin <==> s == "admin"
    ensures r.Other? ==> r.name == s
  {
    if s == "customer" then Customer else if s == "admin" then Admin else Other(s)
  }

  function PriorityName(p: Priority): string {
    match p
    case Low => "low"
    case Medium => "medium"
    case High => "high"
    case Urgent => "urgent"
  }

  function StatusName(s: Status): string {
    match s
    case Open => "open"
    case InProgress => "in_progress"
    case Resolved => "resolved"
    case Closed => "closed"
  }

  /** The `in:low,medium,high,urgent` rule, giving the priority it accepts. */
  function ParsePriority(s: string): (r: Option<Priority>)
    ensures r.Some? <==> s in PriorityNames
    ensures r.Some? ==> PriorityName(r.value) == s
  {
    if s == "low" then Some(Low)
    else if s == "medium" then Some(Medium)
    else if s == "high" then Some(High)
    else if s == "urgent" then Some(Urgent)
    else None
  }

  /** The `in:open,in_progress,resolved,closed` rule, giving the status it accepts. */
  function ParseStatus(s: string): (r: Option<Status>)
    ensures r.Some? <==> s in StatusNames
    ensures r.Some? ==> StatusName(r.value) == s
  {
    if s == "open" then Some(Open)
    else if s == "in_progress" then Some(InProgress)
    else if s == "resolved" then Some(Resolved)
    else if s == "closed" then Some(Closed)
    else None
  }

  lemma PriorityNameRoundTrip(p: Priority)
    ensures PriorityName(p) in PriorityNames
    ensures ParsePriority(PriorityName(p)) == Some(p)
  {
  }

  lemma StatusNameRoundTrip(s: Status)
    ensures StatusName(s) in StatusNames
    ensures ParseStatus(StatusName(s)) == Some(s)
  {
  }

  /** The guard every ticket-scoped action runs after `findOrFail`: the request
      is refused only when the caller is a customer who does not own the ticket. */
  predicate CanAccessTicket(caller: Caller, t: Ticket) {
    !(caller.role == Customer && t.userId != caller.id)
  }

  /** The status gate of ticket update: the test is `role !== 'admin'`. */
  predicate MayChangeStatus(caller: Caller) {
    caller.role == Admin
  }

  /** Comments may be edited or deleted by their author only, whatever the role. */
  predicate IsCommentAuthor(caller: Caller, c: Comment) {
    caller.id == c.userId
  }

  /** Access and the status gate test different roles: a role that is neither
      customer nor admin reaches every ticket but may not change a status. */
  lemma OtherRoleAccessesEverythingButStatus(caller: Caller, t: Ticket)
    requires caller.role.Other?
    ensures CanAccessTicket(caller, t) && !MayChangeStatus(caller)
  {
  }

  /** A customer reaches a ticket exactly when they own it; anybody else reaches it always. */
  lemma AccessIsOwnershipForCustomers(caller: Caller, t: Ticket)
    ensures caller.role == Customer ==> (CanAccessTicket(caller, t) <==> t.userId == caller.id)
    ensures caller.role != Customer ==> CanAccessTicket(caller, t)
  {
  }

  /** What validation guarantees of every stored ticket. */
  predicate WellFormedTicket(t: Ticket) {
    && 0 < |t.subject| <= MaxLength
    && t.description != ""
    && 0 < |t.category| <= MaxLength
  }

  /** The primary key of each table is the row's own `id`. */
  predicate TicketsKeyedById(m: map<nat, Ticket>) {
    forall k :: k in m ==> m[k].id == k
  }

  predicate CommentsKeyedById(m: map<nat, Comment>) {
    forall k :: k in m ==> m[k].id == k
  }

  predicate MessagesKeyedById(m: map<nat, Message>) {
    forall k :: k in m ==> m[k].id == k
  }
}
