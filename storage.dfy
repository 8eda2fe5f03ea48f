/**
 * The three tables the controllers read and write, held in one object whose
 * fields the controller actions update in place. Each table has its own
 * auto-increment counter; ids start at 1 and are never reused.
 */
module Storage {
  import opened Domain

  /** Keys below the counter, each row stored under its own id, every row well formed. */
  predicate TicketTable(m: map<nat, Ticket>, next: nat) {
    1 <= next && TicketsKeyedById(m) && forall k :: k in m ==> 1 <= k < next && WellFormedTicket(m[k])
  }

  predicate CommentTable(m: map<nat, Comment>, next: nat) {
    1 <= next && CommentsKeyedById(m) && forall k :: k in m ==> 1 <= k < next && m[k].text != ""
  }

  predicate MessageTable(m: map<nat, Message>, next: nat) {
    1 <= next && MessagesKeyedById(m) && forall k :: k in m ==> 1 <= k < next && m[k].text != ""
  }

  /** `after` keeps every row of `before`, unchanged. */
  predicate AppendOnly(before: map<nat, Message>, after: map<nat, Message>) {
    forall k :: k in before ==> k in after && after[k] == before[k]
  }

  /** Successive append-only steps compose: over any run of actions the message table only grows. */
  lemma AppendOnlyComposes(a: map<nat, Message>, b: map<nat, Message>, c: map<nat, Message>)
    requires AppendOnly(a, b) && AppendOnly(b, c)
    ensures AppendOnly(a, c)
    ensures a.Keys <= c.Keys
  {
  }

  class Database {
    var tickets: map<nat, Ticket>
    var comments: map<nat, Comment>
    var messages: map<nat, Message>
    var nextTicketId: nat
    var nextCommentId: nat
    var nextMessageId: nat

    ghost predicate Valid()
      reads this
    {
      && TicketTable(tickets, nextTicketId)
      && CommentTable(comments, nextCommentId)
      && MessageTable(messages, nextMessageId)
    }

    /** An empty database. */
    constructor ()
      ensures Valid()
      ensures tickets == map[] && comments == map[] && messages == map[]
      ensures nextTicketId == 1 && nextCommentId == 1 && nextMessageId == 1
    {
      tickets, comments, messages := map[], map[], map[];
      nextTicketId, nextCommentId, nextMessageId := 1, 1, 1;
    }
  }
}
