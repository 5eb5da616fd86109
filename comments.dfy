/** The decisions of the comment controller: list a ticket's comments, and
    validate and build a new one. `Helpdesk.Store.StoreComment` appends it. */
module CommentRules {
  import opened Model
  import opened Query

  /** `$ticket->comments()`: the comments of one ticket, in table order. */
  function ForTicket(cs: seq<Comment>, ticketId: int): (r: seq<Comment>)
    ensures forall c {:trigger c in r} :: c in r <==> c in cs && c.ticketId == ticketId
    ensures |r| <= |cs|
  {
    if cs == [] then []
    else
      assert cs == [cs[0]] + cs[1..];
      (if cs[0].ticketId == ticketId then [cs[0]] else []) + ForTicket(cs[1..], ticketId)
  }

  /** `index`: 404 for a ticket that does not exist, otherwise its comments.
      There is no role check. */
  function Index(ts: seq<Ticket>, cs: seq<Comment>, ticketId: int): (r: Response<seq<Comment>>)
    ensures r.NotFound? <==> Find(ts, ticketId).None?
    ensures r.Ok? <==> Find(ts, ticketId).Some?
    ensures r.Ok? ==> forall c :: c in r.value <==> c in cs && c.ticketId == ticketId
  {
    if Find(ts, ticketId).None? then NotFound else Ok(ForTicket(cs, ticketId))
  }

  /** `store` after route binding found `ticket`: `content` is required;
      the new comment `id` belongs to that ticket and to the actor, whatever
      the actor's role. */
  function Create(id: int, ticket: Ticket, actor: Actor, content: Option<string>, now: int): (r: Response<Comment>)
    ensures r.Created? <==> Required(content)
    ensures r.Code() == if Required(content) then 201 else 422
    ensures r.Created? ==> r.value == Comment(id, ticket.id, actor.id, content.value, now)
  {
    if Required(content) then Created(Comment(id, ticket.id, actor.id, content.value, now)) else Invalid
  }

  /** Appending a comment adds it at the end of its own ticket's list and
      leaves every other ticket's list as it was. */
  lemma {:induction false} ForTicketAppend(cs: seq<Comment>, c: Comment, ticketId: int)
    ensures ForTicket(cs + [c], ticketId) == ForTicket(cs, ticketId) + (if c.ticketId == ticketId then [c] else [])
    decreases |cs|
  {
    if cs == [] {
      assert [c][1..] == [];
    } else {
      var head := if cs[0].ticketId == ticketId then [cs[0]] else [];
      assert (cs + [c])[0] == cs[0];
      assert (cs + [c])[1..] == cs[1..] + [c];
      assert ForTicket(cs + [c], ticketId) == head + ForTicket(cs[1..] + [c], ticketId);
      assert ForTicket(cs, ticketId) == head + ForTicket(cs[1..], ticketId);
      ForTicketAppend(cs[1..], c, ticketId);
    }
  }
}
