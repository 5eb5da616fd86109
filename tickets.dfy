/** The decisions of the ticket controller (index, store, show, update,
    assign) as functions of the actor, the request and the rows involved.
    The writes they lead to are made by `Helpdesk.Store`. */
module TicketRules {
  import opened Model
  import opened Query

  /** `index`: a plain user lists the tickets they own; every other role,
      including an unrecognised one, lists the whole table. */
  function Index(actor: Actor, ts: seq<Ticket>): (r: seq<Ticket>)
    ensures actor.role == User ==> forall t :: t in r <==> t in ts && t.userId == actor.id
    ensures actor.role != User ==> r == ts
  {
    if actor.role == User then
      assert forall t :: Matches([OwnedBy(actor.id)], t) <==> t.userId == actor.id by {
        forall t { MatchesSingle(OwnedBy(actor.id), t); }
      }
      Select(ts, [OwnedBy(actor.id)])
    else ts
  }

  /** `show`: a missing id is 404; a plain user asking for a ticket someone
      else owns is refused; anyone else gets the row as stored. */
  function Show(actor: Actor, ts: seq<Ticket>, id: int): (r: Response<Ticket>)
    ensures r.NotFound? <==> Find(ts, id).None?
    ensures r.Forbidden? <==> Find(ts, id).Some? && actor.role == User && Find(ts, id).value.userId != actor.id
    ensures r.Ok? ==> Find(ts, id) == Some(r.value)
    ensures r.Ok? || r.Forbidden? || r.NotFound?
  {
    match Find(ts, id)
    case None => NotFound
    case Some(t) => if actor.role == User && t.userId != actor.id then Forbidden else Ok(t)
  }

  /** The fields of a `store` request. A `status` may be sent; it is ignored. */
  datatype TicketInput = TicketInput(
    title: Option<string>,
    description: Option<string>,
    priority: Option<Priority>,
    status: Option<Status>)

  /** The rule `in:low,medium,high`. */
  predicate KnownPriority(p: Priority) {
    p == Low || p == Medium || p == High
  }

  /** The rule `in:open,in_progress,closed` of `update`. */
  predicate SettableStatus(s: Status) {
    s == Open || s == InProgress || s == Closed
  }

  predicate ValidTicketInput(input: TicketInput) {
    && Required(input.title)
    && Required(input.description)
    && (input.priority.None? || KnownPriority(input.priority.value))
  }

  /** `store`: validate, then create the row `id` owned by the actor, open,
      unassigned, with priority medium unless one was given, and mail the
      creator. Any role may create. */
  function Create(id: int, actor: Actor, input: TicketInput, now: int): (r: Reply<Ticket>)
    ensures r.response.Created? <==> ValidTicketInput(input)
    ensures r.response.Code() == if ValidTicketInput(input) then 201 else 422
    ensures r.response.Created? ==>
      var t := r.response.value;
      && t.id == id
      && t.status == Open
      && t.userId == actor.id
      && t.title == input.title.value
      && t.description == input.description.value
      && t.priority == (if input.priority.Some? then input.priority.value else Medium)
      && t.assignedTo == None
      && t.createdAt == now && t.updatedAt == now
    ensures r.mail == if r.response.Created? then Some(TicketCreated(actor.id, r.response.value)) else None
  {
    if !ValidTicketInput(input) then Reply(Invalid, None)
    else
      var priority := if input.priority.Some? then input.priority.value else Medium;
      var t := Ticket(id, input.title.value, input.description.value, priority, Open, actor.id, None, now, now);
      Reply(Created(t), Some(TicketCreated(actor.id, t)))
  }

  /** The fields of an `update` request; any other field is ignored. */
  datatype TicketChanges = TicketChanges(status: Option<Status>, priority: Option<Priority>)

  predicate ValidChanges(changes: TicketChanges) {
    && (changes.status.None? || SettableStatus(changes.status.value))
    && (changes.priority.None? || KnownPriority(changes.priority.value))
  }

  /** The row after `$ticket->update(...)`: the given fields replaced, and
      `updated_at` moved to `now` only when some field really changed. */
  function Apply(t: Ticket, changes: TicketChanges, now: int): Ticket {
    var status := if changes.status.Some? then changes.status.value else t.status;
    var priority := if changes.priority.Some? then changes.priority.value else t.priority;
    var dirty := status != t.status || priority != t.priority;
    t.(status := status, priority := priority, updatedAt := if dirty then now else t.updatedAt)
  }

  /** `update`: plain users are refused before anything is validated; a
      status or priority outside its rule is rejected; otherwise only status,
      priority and the update time may change, and the owner is mailed
      exactly when a status was sent that differs from the stored one. */
  function Update(actor: Actor, t: Ticket, changes: TicketChanges, now: int): (r: Reply<Ticket>)
    ensures r.response.Forbidden? <==> actor.role == User
    ensures r.response.Invalid? <==> actor.role != User && !ValidChanges(changes)
    ensures r.response.Ok? <==> actor.role != User && ValidChanges(changes)
    ensures r.response.Ok? ==>
      var u := r.response.value;
      && u.(status := t.status, priority := t.priority, updatedAt := t.updatedAt) == t
      && u.status == (if changes.status.Some? then changes.status.value else t.status)
      && u.priority == (if changes.priority.Some? then changes.priority.value else t.priority)
      && u.updatedAt == (if u.status != t.status || u.priority != t.priority then now else t.updatedAt)
      && (u.status == t.status && u.priority == t.priority ==> u == t)
    ensures r.mail.Some? <==> r.response.Ok? && changes.status.Some? && changes.status.value != t.status
    ensures r.mail.Some? ==> r.mail.value == TicketStatusUpdated(t.userId, r.response.value)
  {
    if actor.role == User then Reply(Forbidden, None)
    else if !ValidChanges(changes) then Reply(Invalid, None)
    else
      var u := Apply(t, changes, now);
      var mail := if changes.status.Some? && changes.status.value != t.status then Some(TicketStatusUpdated(t.userId, u)) else None;
      Reply(Ok(u), mail)
  }

  /** `assign`: plain users are refused; otherwise the request must name an
      existing user (of any role), who becomes the assignee. */
  function Assign(actor: Actor, t: Ticket, assignee: Option<int>, users: map<int, Role>, now: int): (r: Response<Ticket>)
    ensures r.Forbidden? <==> actor.role == User
    ensures r.Invalid? <==> actor.role != User && !(assignee.Some? && assignee.value in users)
    ensures r.Ok? <==> actor.role != User && assignee.Some? && assignee.value in users
    ensures r.Ok? ==>
      && r.value.assignedTo == assignee
      && r.value.(assignedTo := t.assignedTo, updatedAt := t.updatedAt) == t
      && r.value.updatedAt == if t.assignedTo == assignee then t.updatedAt else now
  {
    if actor.role == User then Forbidden
    else if !(assignee.Some? && assignee.value in users) then Invalid
    else
      Ok(t.(assignedTo := assignee, updatedAt := if t.assignedTo == assignee then t.updatedAt else now))
  }

  /** `required` trims before it tests: a title of only blanks is rejected
      with 422, like a missing one. */
  lemma BlankTitleRejected(id: int, actor: Actor, input: TicketInput, now: int)
    requires input.title.Some? && forall i :: 0 <= i < |input.title.value| ==> input.title.value[i] in TrimmedChars
    ensures Create(id, actor, input, now) == Reply(Invalid, None)
  {
  }

  /** A plain user sees no ticket they do not own, whether through `index`
      or `show`. */
  lemma UserSeesOnlyOwnTickets(actor: Actor, ts: seq<Ticket>, id: int)
    requires actor.role == User
    ensures forall t :: t in Index(actor, ts) ==> t.userId == actor.id
    ensures Show(actor, ts, id).Ok? ==> Show(actor, ts, id).value.userId == actor.id
  {
  }

  /** Sending the same changes twice: the second time the row stays as the
      first left it and no mail goes out. */
  lemma {:induction false} UpdateIdempotent(actor: Actor, t: Ticket, changes: TicketChanges, now: int, later: int)
    requires Update(actor, t, changes, now).response.Ok?
    ensures var once := Update(actor, t, changes, now).response.value;
      Update(actor, once, changes, later) == Reply(Ok(once), None)
  {
  }

  /** The validation of `update` accepts no `pending` or `resolved`, although
      the ticket tests expect an admin to set both. */
  lemma PendingAndResolvedRejected(actor: Actor, t: Ticket, s: Status, now: int)
    requires actor.role == Admin && (s == Pending || s == Resolved)
    ensures Update(actor, t, TicketChanges(Some(s), None), now).response == Invalid
  {
  }

  /** Only plain users are kept from `assign`: support staff may assign,
      although the ticket tests expect them to be refused. */
  lemma SupportMayAssign(actor: Actor, t: Ticket, assignee: int, users: map<int, Role>, now: int)
    requires actor.role == Support && assignee in users
    ensures Assign(actor, t, Some(assignee), users, now).Ok?
  {
  }

  /** `assign` checks only that the target user exists: a plain user may be
      made the assignee, although the ticket tests expect a 422. */
  lemma AnyExistingUserMayBeAssignee(actor: Actor, t: Ticket, assignee: int, users: map<int, Role>, now: int)
    requires actor.role == Admin && assignee in users && users[assignee] == User
    ensures Assign(actor, t, Some(assignee), users, now) == Ok(t.(assignedTo := Some(assignee), updatedAt := if t.assignedTo == Some(assignee) then t.updatedAt else now))
  {
  }
}
