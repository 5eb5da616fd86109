/** Entities of the helpdesk: users' roles, tickets, comments, and the shape of
    a controller's answer (HTTP status plus an optional mail). */
module Model {

  datatype Option<+T> = None | Some(value: T)

  /** The `role` column of a user; any string other than the three the
      controllers test for is `Other`. */
  datatype Role = Admin | Support | User | Other

  /** The `status` column. `UnknownStatus` stands for any other string, both a
      value found in the table and a value sent in a request. */
  datatype Status = Open | InProgress | Pending | Resolved | Closed | UnknownStatus

  /** The `priority` column, with `UnknownPriority` for any other string. */
  datatype Priority = Low | Medium | High | UnknownPriority

  /** The authenticated user making a request. */
  datatype Actor = Actor(id: int, role: Role)

  /** A row of the `tickets` table. Timestamps are integer instants in seconds. */
  datatype Ticket = Ticket(
    id: int,
    title: string,
    description: string,
    priority: Priority,
    status: Status,
    userId: int,
    assignedTo: Option<int>,
    createdAt: int,
    updatedAt: int)

  /** A row of the `comments` table. */
  datatype Comment = Comment(id: int, ticketId: int, userId: int, content: string, createdAt: int)

  /** What a controller action answers. */
  datatype Response<+T> = Ok(value: T) | Created(value: T) | Forbidden | Invalid | NotFound
  {
    /** The HTTP status code of the answer. */
    function Code(): int {
      match this
      case Ok(_) => 200
      case Created(_) => 201
      case Forbidden => 403
      case Invalid => 422
      case NotFound => 404
    }
  }

  /** The two mailables the ticket actions send, with the id of the recipient user. */
  datatype Mail = TicketCreated(to: int, ticket: Ticket) | TicketStatusUpdated(to: int, ticket: Ticket)

  /** An answer together with the mail the action sends, if any. */
  datatype Reply<+T> = Reply(response: Response<T>, mail: Option<Mail>)

  /** The characters PHP's `trim` strips: space, tab, line feed, carriage
      return, NUL and vertical tab. */
  const TrimmedChars: set<char> := {' ', '\t', '\n', '\r', '\0', '\U{0B}'}

  /** Laravel's `required` rule on one request field: present, and not empty
      once trimmed, so a value of only spaces is rejected too. */
  predicate Required(field: Option<string>) {
    field.Some? && exists i :: 0 <= i < |field.value| && field.value[i] !in TrimmedChars
  }

  const SecondsPerDay: int := 86400

  /** The calendar day of an instant, as `whereDate` compares it. */
  function DayOf(instant: int): int {
    instant / SecondsPerDay
  }
}
