/**
 * `MessageController`: the chat feed of a ticket. Listing only reads; posting
 * appends one row to the message table. No action edits or removes a message.
 */
module MessageController {
  import opened Domain
  import opened Sequences
  import opened Validation
  import opened Storage

  /** `GET /tickets/{ticketId}/messages`: `findOrFail` on the ticket, the
      customer ownership check, then that ticket's messages, oldest first. */
  function Index(caller: Caller, tickets: map<nat, Ticket>, messages: map<nat, Message>, ticketId: nat): (r: Response)
    ensures r == NotFound <==> ticketId !in tickets
    ensures r == Forbidden <==> ticketId in tickets && !CanAccessTicket(caller, tickets[ticketId])
    ensures r.Ok? <==> ticketId in tickets && CanAccessTicket(caller, tickets[ticketId])
    ensures r.Ok? ==>
      && r.code == 200 && r.payload.MessageList?
      && (forall m :: m in r.payload.messages <==> m in messages.Values && m.ticketId == ticketId)
      && (MessagesKeyedById(messages) ==> Distinct(r.payload.messages))
      && (forall i, j :: 0 <= i < j < |r.payload.messages| ==>
            r.payload.messages[i].createdAt <= r.payload.messages[j].createdAt)
  {
    if ticketId !in tickets then NotFound
    else if !CanAccessTicket(caller, tickets[ticketId]) then Forbidden
    else
      var rows := Rows(messages);
      var onTicket := (m: Message) => m.ticketId == ticketId;
      var selected := Filter(rows, onTicket);
      assert MessagesKeyedById(messages) ==> Distinct(selected) by {
        if MessagesKeyedById(messages) {
          assert Injective(messages);
          FilterKeepsDistinct(rows, onTicket);
        }
      }
      var oldestFirst := (m: Message) => m.createdAt as int;
      var listed := SortBy(selected, oldestFirst);
      SameRowsAfterSort(selected, listed);
      assert forall i, j :: 0 <= i < j < |listed| ==> oldestFirst(listed[i]) <= oldestFirst(listed[j]);
      Ok(200, MessageList(listed))
  }

  /** `POST /tickets/{ticketId}/messages`: validation first, then `findOrFail`
      on the ticket, the customer ownership check, then one appended row. */
  method Store(db: Database, caller: Caller, ticketId: nat, text: Input, now: nat) returns (r: Response)
    requires db.Valid()
    modifies db`messages, db`nextMessageId
    ensures db.Valid()
    ensures AppendOnly(old(db.messages), db.messages)
    ensures r.ValidationError? <==> !Filled(text)
    ensures r.ValidationError? ==> r.fields == {"message"}
    ensures r == NotFound <==> Filled(text) && ticketId !in old(db.tickets)
    ensures r == Forbidden <==>
      Filled(text) && ticketId in old(db.tickets) && !CanAccessTicket(caller, old(db.tickets[ticketId]))
    ensures !r.Ok? ==> db.messages == old(db.messages) && db.nextMessageId == old(db.nextMessageId)
    ensures r.Ok? ==>
      (var id := old(db.nextMessageId);
       && id !in old(db.messages)
       && r == Ok(201, MessageBody(Message(id, ticketId, caller.id, text.s, now)))
       && db.messages == old(db.messages)[id := r.payload.message]
       && db.nextMessageId == id + 1)
  {
    var v := ValidateText(text, "message");
    if v.Failed? {
      return ValidationError(v.fields);
    }
    if ticketId !in db.tickets {
      return NotFound;
    }
    if !CanAccessTicket(caller, db.tickets[ticketId]) {
      return Forbidden;
    }
    var m := Message(db.nextMessageId, ticketId, caller.id, v.value, now);
    db.messages := db.messages[m.id := m];
    db.nextMessageId := db.nextMessageId + 1;
    r := Ok(201, MessageBody(m));
  }

  /** Whatever a caller could read of a ticket's chat stays in that listing
      after the message table has only grown. */
  lemma ListingSurvivesAppend(
    caller: Caller, tickets: map<nat, Ticket>, before: map<nat, Message>, after: map<nat, Message>, ticketId: nat)
    requires AppendOnly(before, after)
    requires Index(caller, tickets, before, ticketId).Ok?
    ensures Index(caller, tickets, after, ticketId).Ok?
    ensures forall m :: m in Index(caller, tickets, before, ticketId).payload.messages ==>
      m in Index(caller, tickets, after, ticketId).payload.messages
  {
  }
}
