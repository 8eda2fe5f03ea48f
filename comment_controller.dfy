/**
 * `CommentController`: create, edit and delete comments. Each action changes
 * the comment table only. Creation checks access to the ticket; editing and
 * deleting are reserved to the comment's author, admins included.
 */
module CommentController {
  import opened Domain
  import opened Validation
  import opened Storage

  /** `POST /comments`: validation (which also checks that the ticket exists),
      then the customer ownership check on that ticket, then creation. */
  method Store(db: Database, caller: Caller, req: CommentRequest, now: nat) returns (r: Response)
    requires db.Valid()
    modifies db`comments, db`nextCommentId
    ensures db.Valid()
    ensures r.ValidationError? <==> ValidateNewComment(req, old(db.tickets).Keys).Failed?
    ensures r.ValidationError? ==> r.fields == ValidateNewComment(req, old(db.tickets).Keys).fields
    ensures r == Forbidden <==>
      && ValidateNewComment(req, old(db.tickets).Keys).Passed?
      && !CanAccessTicket(caller, old(db.tickets)[req.ticketId.value])
    ensures r.Ok? <==>
      && ValidateNewComment(req, old(db.tickets).Keys).Passed?
      && CanAccessTicket(caller, old(db.tickets)[req.ticketId.value])
    ensures !r.Ok? ==> db.comments == old(db.comments) && db.nextCommentId == old(db.nextCommentId)
    ensures r.Ok? ==>
      && ValidateNewComment(req, old(db.tickets).Keys).Passed?
      && (var id := old(db.nextCommentId);
          && id !in old(db.comments)
          && r == Ok(201, CommentBody(Comment(id, req.ticketId.value, caller.id, req.comment.s, now)))
          && db.comments == old(db.comments)[id := r.payload.comment]
          && db.nextCommentId == id + 1)
    // the ticket's existence is part of validation, so the lookup after it never fails
    ensures !r.NotFound?
  {
    var v := ValidateNewComment(req, db.tickets.Keys);
    if v.Failed? {
      return ValidationError(v.fields);
    }
    var (ticketId, text) := v.value;
    if !CanAccessTicket(caller, db.tickets[ticketId]) {
      return Forbidden;
    }
    var c := Comment(db.nextCommentId, ticketId, caller.id, text, now);
    db.comments := db.comments[c.id := c];
    db.nextCommentId := db.nextCommentId + 1;
    r := Ok(201, CommentBody(c));
  }

  /** Being the author is all that counts: changing the caller's role changes nothing. */
  lemma AuthorCheckIgnoresRole(caller: Caller, c: Comment, role: Role)
    ensures IsCommentAuthor(caller, c) <==> IsCommentAuthor(Caller(caller.id, role), c)
  {
  }

  /** `PUT /comments/{id}`: `findOrFail`, the author check, validation, then the text is replaced. */
  method Update(db: Database, caller: Caller, id: nat, text: Input) returns (r: Response)
    requires db.Valid()
    modifies db`comments
    ensures db.Valid()
    ensures r == NotFound <==> id !in old(db.comments)
    ensures r == Forbidden <==> id in old(db.comments) && !IsCommentAuthor(caller, old(db.comments[id]))
    ensures r.ValidationError? <==>
      id in old(db.comments) && IsCommentAuthor(caller, old(db.comments[id])) && !Filled(text)
    ensures r.ValidationError? ==> r.fields == {"comment"}
    ensures !r.Ok? ==> db.comments == old(db.comments)
    ensures r.Ok? ==>
      && id in old(db.comments)
      && r == Ok(200, CommentBody(old(db.comments[id]).(text := text.s)))
      && db.comments == old(db.comments)[id := r.payload.comment]
  {
    if id !in db.comments {
      return NotFound;
    }
    var c := db.comments[id];
    if !IsCommentAuthor(caller, c) {
      return Forbidden;
    }
    var v := ValidateText(text, "comment");
    if v.Failed? {
      return ValidationError(v.fields);
    }
    var edited := c.(text := v.value);
    db.comments := db.comments[id := edited];
    r := Ok(200, CommentBody(edited));
  }

  /** `DELETE /comments/{id}`: `findOrFail`, the author check, then removal of that one row. */
  method Destroy(db: Database, caller: Caller, id: nat) returns (r: Response)
    requires db.Valid()
    modifies db`comments
    ensures db.Valid()
    ensures r == NotFound <==> id !in old(db.comments)
    ensures r == Forbidden <==> id in old(db.comments) && !IsCommentAuthor(caller, old(db.comments[id]))
    ensures r.Ok? <==> id in old(db.comments) && IsCommentAuthor(caller, old(db.comments[id]))
    ensures r.Ok? ==> r == Ok(200, Confirmation("Comment deleted successfully")) && db.comments == old(db.comments) - {id}
    ensures !r.Ok? ==> db.comments == old(db.comments)
  {
    if id !in db.comments {
      return NotFound;
    }
    if !IsCommentAuthor(caller, db.comments[id]) {
      return Forbidden;
    }
    db.comments := db.comments - {id};
    r := Ok(200, Confirmation("Comment deleted successfully"));
  }
}
