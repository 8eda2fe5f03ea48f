/**
 * `TicketController`: list, create, show, update and delete tickets.
 * Listing and showing only read the ticket table; the other three actions
 * change it in place and touch no other table.
 */
module TicketController {
  import opened Domain
  import opened Sequences
  import opened Validation
  import opened Storage

  /** `GET /tickets`: a customer's own tickets, everybody else's view of all
      tickets, newest first. */
  function Index(caller: Caller, tickets: map<nat, Ticket>): (r: Response)
    ensures r.Ok? && r.code == 200 && r.payload.TicketList?
    ensures forall t :: t in r.payload.tickets <==>
      t in tickets.Values && (caller.role == Customer ==> t.userId == caller.id)
    ensures TicketsKeyedById(tickets) ==> Distinct(r.payload.tickets)
    ensures forall i, j :: 0 <= i < j < |r.payload.tickets| ==>
      r.payload.tickets[i].createdAt >= r.payload.tickets[j].createdAt
  {
    var rows := Rows(tickets);
    var owned := (t: Ticket) => t.userId == caller.id;
    var selected := if caller.role == Customer then Filter(rows, owned) else rows;
    assert TicketsKeyedById(tickets) ==> Distinct(selected) by {
      if TicketsKeyedById(tickets) {
        assert Injective(tickets);
        FilterKeepsDistinct(rows, owned);
      }
    }
    var newestFirst := (t: Ticket) => -(t.createdAt as int);
    var listed := SortBy(selected, newestFirst);
    SameRowsAfterSort(selected, listed);
    assert forall i, j :: 0 <= i < j < |listed| ==> newestFirst(listed[i]) <= newestFirst(listed[j]);
    Ok(200, TicketList(listed))
  }

  /** `GET /tickets/{id}`: `findOrFail`, then the customer ownership check. */
  function Show(caller: Caller, tickets: map<nat, Ticket>, id: nat): (r: Response)
    ensures r == NotFound <==> id !in tickets
    ensures r == Forbidden <==> id in tickets && caller.role == Customer && tickets[id].userId != caller.id
    ensures r.Ok? <==> id in tickets && CanAccessTicket(caller, tickets[id])
    ensures r.Ok? ==> r == Ok(200, TicketBody(tickets[id]))
  {
    if id !in tickets then NotFound
    else if !CanAccessTicket(caller, tickets[id]) then Forbidden
    else Ok(200, TicketBody(tickets[id]))
  }

  /** A ticket is shown to a caller exactly when it is in that caller's listing. */
  lemma ShowAgreesWithIndex(caller: Caller, tickets: map<nat, Ticket>, id: nat)
    requires id in tickets
    ensures Show(caller, tickets, id).Ok? <==> tickets[id] in Index(caller, tickets).payload.tickets
  {
  }

  /** The `unset($validated['status'])` step: a status given by anyone but an admin is dropped. */
  function StripStatus(caller: Caller, p: TicketPatch): (q: TicketPatch)
    ensures q.status.Some? <==> p.status.Some? && MayChangeStatus(caller)
    ensures q.status.Some? ==> q.status == p.status
    ensures q.subject == p.subject && q.description == p.description
    ensures q.category == p.category && q.priority == p.priority
  {
    if !MayChangeStatus(caller) && p.status.Some? then p.(status := None) else p
  }

  /** `$ticket->update($validated)`: the keys present in the patch are written,
      every other column keeps its value. */
  function Patched(t: Ticket, p: TicketPatch): (u: Ticket)
    ensures u.id == t.id && u.userId == t.userId && u.createdAt == t.createdAt
    ensures p.subject.None? ==> u.subject == t.subject
    ensures p.subject.Some? ==> u.subject == p.subject.value
    ensures p.description.None? ==> u.description == t.description
    ensures p.description.Some? ==> u.description == p.description.value
    ensures p.category.None? ==> u.category == t.category
    ensures p.category.Some? ==> u.category == p.category.value
    ensures p.priority.None? ==> u.priority == t.priority
    ensures p.priority.Some? ==> u.priority == p.priority.value
    ensures p.status.None? ==> u.status == t.status
    ensures p.status.Some? ==> u.status == p.status.value
    ensures WellFormedTicket(t) && PatchFits(p) ==> WellFormedTicket(u)
  {
    Ticket(
      t.id,
      t.userId,
      if p.subject.Some? then p.subject.value else t.subject,
      if p.description.Some? then p.description.value else t.description,
      if p.category.Some? then p.category.value else t.category,
      if p.priority.Some? then p.priority.value else t.priority,
      if p.status.Some? then p.status.value else t.status,
      t.createdAt)
  }

  /** Whatever a non-admin sends, an update leaves the status as it was. */
  lemma NonAdminKeepsStatus(caller: Caller, t: Ticket, p: TicketPatch)
    requires !MayChangeStatus(caller)
    ensures Patched(t, StripStatus(caller, p)).status == t.status
  {
  }

  /** An admin may move a ticket to any status from any status. */
  lemma AdminSetsAnyStatus(caller: Caller, t: Ticket, p: TicketPatch)
    requires MayChangeStatus(caller) && p.status.Some?
    ensures Patched(t, StripStatus(caller, p)).status == p.status.value
  {
  }

  /** `POST /tickets`: validate, then create an open ticket owned by the caller. */
  method Store(db: Database, caller: Caller, req: TicketRequest, now: nat) returns (r: Response)
    requires db.Valid()
    modifies db`tickets, db`nextTicketId
    ensures db.Valid()
    ensures ValidateNewTicket(req).Failed? ==>
      && r == ValidationError(ValidateNewTicket(req).fields)
      && db.tickets == old(db.tickets) && db.nextTicketId == old(db.nextTicketId)
    ensures ValidateNewTicket(req).Passed? ==>
      (var n, id := ValidateNewTicket(req).value, old(db.nextTicketId);
       && id !in old(db.tickets)
       && r == Ok(201, TicketBody(Ticket(id, caller.id, n.subject, n.description, n.category, n.priority, Open, now)))
       && db.tickets == old(db.tickets)[id := r.payload.ticket]
       && db.nextTicketId == id + 1)
  {
    var v := ValidateNewTicket(req);
    if v.Failed? {
      return ValidationError(v.fields);
    }
    var n := v.value;
    var t := Ticket(db.nextTicketId, caller.id, n.subject, n.description, n.category, n.priority, Open, now);
    db.tickets := db.tickets[t.id := t];
    db.nextTicketId := db.nextTicketId + 1;
    r := Ok(201, TicketBody(t));
  }

  /** `PUT /tickets/{id}`: `findOrFail`, the ownership check, then validation,
      then the status gate, then the write. */
  method Update(db: Database, caller: Caller, id: nat, req: TicketRequest) returns (r: Response)
    requires db.Valid()
    modifies db`tickets
    ensures db.Valid()
    ensures r == NotFound <==> id !in old(db.tickets)
    ensures r == Forbidden <==> id in old(db.tickets) && !CanAccessTicket(caller, old(db.tickets[id]))
    ensures r.ValidationError? <==>
      id in old(db.tickets) && CanAccessTicket(caller, old(db.tickets[id])) && ValidateTicketUpdate(req).Failed?
    ensures r.ValidationError? ==> r.fields == ValidateTicketUpdate(req).fields
    ensures !r.Ok? ==> db.tickets == old(db.tickets)
    ensures r.Ok? ==>
      && id in old(db.tickets) && ValidateTicketUpdate(req).Passed?
      && (var t := Patched(old(db.tickets[id]), StripStatus(caller, ValidateTicketUpdate(req).value));
          r == Ok(200, TicketBody(t)) && db.tickets == old(db.tickets)[id := t])
    ensures r.Ok? ==> db.tickets[id].userId == old(db.tickets[id].userId)
    ensures r.Ok? && !MayChangeStatus(caller) ==> db.tickets[id].status == old(db.tickets[id].status)
  {
    if id !in db.tickets {
      return NotFound;
    }
    var t := db.tickets[id];
    if !CanAccessTicket(caller, t) {
      return Forbidden;
    }
    var v := ValidateTicketUpdate(req);
    if v.Failed? {
      return ValidationError(v.fields);
    }
    var u := Patched(t, StripStatus(caller, v.value));
    db.tickets := db.tickets[id := u];
    r := Ok(200, TicketBody(u));
  }

  /** `DELETE /tickets/{id}`: `findOrFail`, the ownership check, then removal of that one row. */
  method Destroy(db: Database, caller: Caller, id: nat) returns (r: Response)
    requires db.Valid()
    modifies db`tickets
    ensures db.Valid()
    ensures r == NotFound <==> id !in old(db.tickets)
    ensures r == Forbidden <==> id in old(db.tickets) && !CanAccessTicket(caller, old(db.tickets[id]))
    ensures r.Ok? <==> id in old(db.tickets) && CanAccessTicket(caller, old(db.tickets[id]))
    ensures r.Ok? ==> r == Ok(200, Confirmation("Ticket deleted successfully")) && db.tickets == old(db.tickets) - {id}
    ensures !r.Ok? ==> db.tickets == old(db.tickets)
  {
    if id !in db.tickets {
      return NotFound;
    }
    if !CanAccessTicket(caller, db.tickets[id]) {
      return Forbidden;
    }
    db.tickets := db.tickets - {id};
    r := Ok(200, Confirmation("Ticket deleted successfully"));
  }
}
