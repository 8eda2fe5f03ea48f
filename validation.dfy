/**
 * The request validation rules of the three controllers. Laravel checks every
 * rule of a request and, when any fails, answers 422 naming every failing
 * field; nothing after the `validate` call runs.
 */
module Validation {
  import opened Domain

  /** One field of a JSON request body: missing, a string, or any other value
      (null, a number, an array). A blank string reaches validation as null
      under the framework's default request middleware, so `Text("")` is
      treated like null. */
  datatype Input = Absent | Text(s: string) | NonText

  /** The body of `POST /tickets` and `PUT /tickets/{id}`. */
  datatype TicketRequest = TicketRequest(
    subject: Input,
    description: Input,
    category: Input,
    priority: Input,
    status: Input)

  /** The validated fields of a new ticket. */
  datatype NewTicket = NewTicket(subject: string, description: string, category: string, priority: Priority)

  /** The validated fields of a ticket update: only the keys the request carried. */
  datatype TicketPatch = TicketPatch(
    subject: Option<string>,
    description: Option<string>,
    category: Option<string>,
    priority: Option<Priority>,
    status: Option<Status>)

  /** The body of `POST /comments`; `ticketId` is `None` when `ticket_id` is
      missing or is not an integer id. */
  datatype CommentRequest = CommentRequest(ticketId: Option<nat>, comment: Input)

  /** The outcome of `$request->validate(...)`. */
  datatype Checked<T> = Passed(value: T) | Failed(fields: set<string>)

  /** `required|string` */
  predicate Filled(v: Input) {
    v.Text? && v.s != ""
  }

  /** `required|string|max:255` */
  predicate FilledShort(v: Input) {
    Filled(v) && |v.s| <= MaxLength
  }

  /** `required|in:low,medium,high,urgent` */
  predicate IsPriority(v: Input) {
    v.Text? && v.s in PriorityNames
  }

  /** `required|in:open,in_progress,resolved,closed` */
  predicate IsStatus(v: Input) {
    v.Text? && v.s in StatusNames
  }

  /** `sometimes|...`: the rule applies only when the key is present. */
  predicate Sometimes(rule: Input -> bool, v: Input) {
    v.Absent? || rule(v)
  }

  function FailedIf(failed: bool, field: string): set<string> {
    if failed then {field} else {}
  }

  /** The patch fits a ticket: every given text is non-empty and short enough. */
  predicate PatchFits(p: TicketPatch) {
    && (p.subject.Some? ==> 0 < |p.subject.value| <= MaxLength)
    && (p.description.Some? ==> p.description.value != "")
    && (p.category.Some? ==> 0 < |p.category.value| <= MaxLength)
  }

  /** The rules of ticket creation. The request's `status` is not among them. */
  function ValidateNewTicket(req: TicketRequest): (r: Checked<NewTicket>)
    ensures r.Passed? <==>
      FilledShort(req.subject) && Filled(req.description) && FilledShort(req.category) && IsPriority(req.priority)
    ensures r.Failed? ==>
      && r.fields != {}
      && ("subject" in r.fields <==> !FilledShort(req.subject))
      && ("description" in r.fields <==> !Filled(req.description))
      && ("category" in r.fields <==> !FilledShort(req.category))
      && ("priority" in r.fields <==> !IsPriority(req.priority))
      && r.fields <= {"subject", "description", "category", "priority"}
    ensures r.Passed? ==>
      && r.value.subject == req.subject.s
      && r.value.description == req.description.s
      && r.value.category == req.category.s
      && PriorityName(r.value.priority) == req.priority.s
      && 0 < |r.value.subject| <= MaxLength
      && 0 < |r.value.category| <= MaxLength
      && r.value.description != ""
  {
    var errors :=
      FailedIf(!FilledShort(req.subject), "subject")
      + FailedIf(!Filled(req.description), "description")
      + FailedIf(!FilledShort(req.category), "category")
      + FailedIf(!IsPriority(req.priority), "priority");
    if errors != {} then Failed(errors)
    else
      Passed(NewTicket(req.subject.s, req.description.s, req.category.s, ParsePriority(req.priority.s).value))
  }

  /** The `sometimes` rules of ticket update, giving the keys the request carried. */
  function ValidateTicketUpdate(req: TicketRequest): (r: Checked<TicketPatch>)
    ensures r.Passed? <==>
      && Sometimes(FilledShort, req.subject)
      && Sometimes(Filled, req.description)
      && Sometimes(FilledShort, req.category)
      && Sometimes(IsPriority, req.priority)
      && Sometimes(IsStatus, req.status)
    ensures r.Failed? ==>
      && r.fields != {}
      && ("subject" in r.fields <==> !Sometimes(FilledShort, req.subject))
      && ("description" in r.fields <==> !Sometimes(Filled, req.description))
      && ("category" in r.fields <==> !Sometimes(FilledShort, req.category))
      && ("priority" in r.fields <==> !Sometimes(IsPriority, req.priority))
      && ("status" in r.fields <==> !Sometimes(IsStatus, req.status))
      && r.fields <= {"subject", "description", "category", "priority", "status"}
    ensures r.Passed? ==>
      && PatchFits(r.value)
      && (r.value.subject.Some? <==> req.subject.Text?)
      && (r.value.subject.Some? ==> r.value.subject.value == req.subject.s)
      && (r.value.description.Some? <==> req.description.Text?)
      && (r.value.description.Some? ==> r.value.description.value == req.description.s)
      && (r.value.category.Some? <==> req.category.Text?)
      && (r.value.category.Some? ==> r.value.category.value == req.category.s)
      && (r.value.priority.Some? <==> req.priority.Text?)
      && (r.value.priority.Some? ==> PriorityName(r.value.priority.value) == req.priority.s)
      && (r.value.status.Some? <==> req.status.Text?)
      && (r.value.status.Some? ==> StatusName(r.value.status.value) == req.status.s)
  {
    var errors :=
      FailedIf(!Sometimes(FilledShort, req.subject), "subject")
      + FailedIf(!Sometimes(Filled, req.description), "description")
      + FailedIf(!Sometimes(FilledShort, req.category), "category")
      + FailedIf(!Sometimes(IsPriority, req.priority), "priority")
      + FailedIf(!Sometimes(IsStatus, req.status), "status");
    if errors != {} then Failed(errors)
    else
      Passed(TicketPatch(
        if req.subject.Text? then Some(req.subject.s) else None,
        if req.description.Text? then Some(req.description.s) else None,
        if req.category.Text? then Some(req.category.s) else None,
        if req.priority.Text? then ParsePriority(req.priority.s) else None,
        if req.status.Text? then ParseStatus(req.status.s) else None))
  }

  /** The rules of comment creation: `ticket_id` is required and names an
      existing ticket, `comment` is a required string. */
  function ValidateNewComment(req: CommentRequest, ticketIds: set<nat>): (r: Checked<(nat, string)>)
    ensures r.Passed? <==> req.ticketId.Some? && req.ticketId.value in ticketIds && Filled(req.comment)
    ensures r.Failed? ==>
      && ("ticket_id" in r.fields <==> !(req.ticketId.Some? && req.ticketId.value in ticketIds))
      && ("comment" in r.fields <==> !Filled(req.comment))
      && r.fields <= {"ticket_id", "comment"}
    ensures r.Passed? ==> r.value == (req.ticketId.value, req.comment.s) && r.value.1 != ""
  {
    var errors :=
      FailedIf(!(req.ticketId.Some? && req.ticketId.value in ticketIds), "ticket_id")
      + FailedIf(!Filled(req.comment), "comment");
    if errors != {} then Failed(errors) else Passed((req.ticketId.value, req.comment.s))
  }

  /** A single `required|string` field, as comment update and message creation validate. */
  function ValidateText(v: Input, field: string): (r: Checked<string>)
    ensures r.Passed? <==> Filled(v)
    ensures r.Passed? ==> r.value == v.s && r.value != ""
    ensures r.Failed? ==> r.fields == {field}
  {
    if Filled(v) then Passed(v.s) else Failed({field})
  }
}
