/** The database the controllers work on: the `tickets`, `users` and
    `comments` tables, and the actions that write to them (ticket `store`,
    `update` and `assign`, comment `store`). Each action first binds the
    route's ticket, then follows the decision of `TicketRules` or
    `CommentRules` and writes its row back. */
module Helpdesk {
  import opened Model
  import opened Query
  import TicketRules
  import CommentRules

  class Store {
    var tickets: seq<Ticket>
    var users: map<int, Role>
    var comments: seq<Comment>

    /** Rows are numbered from one in insertion order, and every reference
        from a ticket or a comment names an existing user or ticket. */
    ghost predicate Valid()
      reads this
    {
      && IdsArePositions(tickets)
      && (forall i :: 0 <= i < |tickets| ==> tickets[i].userId in users)
      && (forall i :: 0 <= i < |tickets| && tickets[i].assignedTo.Some? ==> tickets[i].assignedTo.value in users)
      && (forall i :: 0 <= i < |comments| ==> comments[i].id == i + 1)
      && (forall i :: 0 <= i < |comments| ==> 1 <= comments[i].ticketId <= |tickets| && comments[i].userId in users)
    }

    constructor (users: map<int, Role>)
      ensures Valid()
      ensures this.users == users && tickets == [] && comments == []
    {
      this.users := users;
      tickets := [];
      comments := [];
    }

    /** The authenticated user with the role the `users` table gives them. */
    function ActorOf(id: int): Actor
      reads this
      requires id in users
    {
      Actor(id, users[id])
    }

    /** `TicketController::store`: on success the ticket is appended with the
        next id and shows up in its creator's `index`. */
    method StoreTicket(actor: int, input: TicketRules.TicketInput, now: int) returns (response: Response<Ticket>, mail: Option<Mail>)
      requires Valid() && actor in users
      modifies this
      ensures Valid()
      ensures users == old(users) && comments == old(comments)
      ensures Reply(response, mail) == TicketRules.Create(|old(tickets)| + 1, ActorOf(actor), input, now)
      ensures tickets == if response.Created? then old(tickets) + [response.value] else old(tickets)
      ensures response.Created? ==>
        TicketRules.Index(ActorOf(actor), tickets) == TicketRules.Index(ActorOf(actor), old(tickets)) + [response.value]
    {
      var reply := TicketRules.Create(|tickets| + 1, ActorOf(actor), input, now);
      response, mail := reply.response, reply.mail;
      if response.Created? {
        var t := response.value;
        if users[actor] == User {
          SelectAppend(tickets, t, [OwnedBy(actor)]);
          MatchesSingle(OwnedBy(actor), t);
        }
        tickets := tickets + [t];
      }
    }

    /** `TicketController::update`: 404 for an unknown id; otherwise the
        decision of `TicketRules.Update`, and on success that one row is
        replaced and nothing else changes. */
    method UpdateTicket(actor: int, id: int, changes: TicketRules.TicketChanges, now: int) returns (response: Response<Ticket>, mail: Option<Mail>)
      requires Valid() && actor in users
      modifies this
      ensures Valid()
      ensures users == old(users) && comments == old(comments)
      ensures Find(old(tickets), id).Some? <==> 1 <= id <= |old(tickets)|
      ensures Find(old(tickets), id).None? ==> response == NotFound && mail == None
      ensures Find(old(tickets), id).Some? ==>
        Reply(response, mail) == TicketRules.Update(ActorOf(actor), old(tickets)[id - 1], changes, now)
      ensures tickets == if response.Ok? then old(tickets)[id - 1 := response.value] else old(tickets)
    {
      FindByPosition(tickets, id);
      var found := Find(tickets, id);
      if found.None? {
        response, mail := NotFound, None;
        return;
      }
      var reply := TicketRules.Update(ActorOf(actor), found.value, changes, now);
      response, mail := reply.response, reply.mail;
      if response.Ok? {
        tickets := tickets[id - 1 := response.value];
      }
    }

    /** `TicketController::assign`: 404 for an unknown id; otherwise the
        decision of `TicketRules.Assign`, and on success only that row's
        assignee (and update time) changes. */
    method AssignTicket(actor: int, id: int, assignee: Option<int>, now: int) returns (response: Response<Ticket>)
      requires Valid() && actor in users
      modifies this
      ensures Valid()
      ensures users == old(users) && comments == old(comments)
      ensures Find(old(tickets), id).Some? <==> 1 <= id <= |old(tickets)|
      ensures Find(old(tickets), id).None? ==> response == NotFound
      ensures Find(old(tickets), id).Some? ==>
        response == TicketRules.Assign(ActorOf(actor), old(tickets)[id - 1], assignee, users, now)
      ensures tickets == if response.Ok? then old(tickets)[id - 1 := response.value] else old(tickets)
    {
      FindByPosition(tickets, id);
      var found := Find(tickets, id);
      if found.None? {
        response := NotFound;
        return;
      }
      response := TicketRules.Assign(ActorOf(actor), found.value, assignee, users, now);
      if response.Ok? {
        tickets := tickets[id - 1 := response.value];
      }
    }

    /** `CommentController::store`: 404 for an unknown ticket; otherwise the
        decision of `CommentRules.Create`, and on success the comment is
        appended: it ends that ticket's list, and every other ticket's list
        stays as it was. */
    method StoreComment(actor: int, ticketId: int, content: Option<string>, now: int) returns (response: Response<Comment>)
      requires Valid() && actor in users
      modifies this
      ensures Valid()
      ensures tickets == old(tickets) && users == old(users)
      ensures Find(old(tickets), ticketId).None? ==> response == NotFound
      ensures Find(old(tickets), ticketId).Some? ==>
        response == CommentRules.Create(|old(comments)| + 1, Find(old(tickets), ticketId).value, ActorOf(actor), content, now)
      ensures comments == if response.Created? then old(comments) + [response.value] else old(comments)
      ensures response.Created? ==>
        && CommentRules.ForTicket(comments, ticketId) == CommentRules.ForTicket(old(comments), ticketId) + [response.value]
        && forall other :: other != ticketId ==>
             CommentRules.ForTicket(comments, other) == CommentRules.ForTicket(old(comments), other)
    {
      FindByPosition(tickets, ticketId);
      var found := Find(tickets, ticketId);
      if found.None? {
        response := NotFound;
        return;
      }
      response := CommentRules.Create(|comments| + 1, found.value, ActorOf(actor), content, now);
      if response.Created? {
        var c := response.value;
        forall other ensures CommentRules.ForTicket(comments + [c], other) == CommentRules.ForTicket(comments, other) + (if c.ticketId == other then [c] else []) {
          CommentRules.ForTicketAppend(comments, c, other);
        }
        comments := comments + [c];
      }
    }
  }

  /** A client of the store, after the ticket tests: a plain user's new
      ticket is open with priority medium and its creator is mailed; the
      same user may not assign it; an admin assigns it to a support user. */
  method CreateAndAssign()
  {
    var store := new Store(map[1 := Admin, 2 := Support, 3 := User]);
    var input := TicketRules.TicketInput(Some("Test Ticket"), Some("Test Description"), None, None);
    assert "Test Ticket"[0] !in TrimmedChars && "Test Description"[0] !in TrimmedChars;
    assert TicketRules.ValidTicketInput(input);
    var created, mail := store.StoreTicket(3, input, 1000);
    assert created.Created? && created.value.status == Open && created.value.priority == Medium;
    assert mail == Some(TicketCreated(3, created.value));

    var refused := store.AssignTicket(3, 1, Some(2), 2000);
    assert refused == Forbidden;

    var done := store.AssignTicket(1, 1, Some(2), 3000);
    assert done.Ok? && store.tickets[0].assignedTo == Some(2);
  }
}
