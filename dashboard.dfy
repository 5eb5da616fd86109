/** The dashboard controller: statistics over the ticket table, one set per
    role. Every figure is a query of the `Query` module. */
module Dashboard {
  import opened Model
  import opened Query

  const ActiveStatuses: set<Status> := {Open, InProgress, Pending}
  const DoneStatuses: set<Status> := {Resolved, Closed}
  const UrgentStatuses: set<Status> := {Open, InProgress}

  const RecentLimit: nat := 5
  const AssignedLimit: nat := 10

  datatype Stats =
    | AdminStats(
        totalUsers: nat,
        totalTickets: nat,
        ticketsOpen: nat,
        ticketsInProgress: nat,
        ticketsByPriority: seq<PriorityGroup>,
        recentTickets: seq<Ticket>)
    | SupportStats(
        assignedTicketsCount: nat,
        resolvedTicketsToday: nat,
        resolvedTicketsTotal: nat,
        unassignedTicketsCount: nat,
        urgentAssignedTickets: seq<Ticket>,
        myAssignedTickets: seq<Ticket>)
    | UserStats(
        myOpenTickets: nat,
        myClosedTickets: nat,
        recentTickets: seq<Ticket>)

  /** `getStats`: each known role gets its own statistics; any other role is
      refused with 403. */
  function GetStats(actor: Actor, ts: seq<Ticket>, totalUsers: nat, today: int): (r: Response<Stats>)
    ensures r.Forbidden? <==> actor.role == Other
    ensures r.Ok? <==> actor.role != Other
    ensures actor.role == Admin ==> r == Ok(AdminStatsOf(ts, totalUsers))
    ensures actor.role == Support ==> r == Ok(SupportStatsOf(actor.id, ts, today))
    ensures actor.role == User ==> r == Ok(UserStatsOf(actor.id, ts))
  {
    match actor.role
    case Admin => Ok(AdminStatsOf(ts, totalUsers))
    case Support => Ok(SupportStatsOf(actor.id, ts, today))
    case User => Ok(UserStatsOf(actor.id, ts))
    case Other => Forbidden
  }

  function AdminStatsOf(ts: seq<Ticket>, totalUsers: nat): Stats {
    AdminStats(
      totalUsers,
      |ts|,
      |Select(ts, [StatusIn({Open})])|,
      |Select(ts, [StatusIn({InProgress})])|,
      GroupByPriority(ts),
      Latest(ts, RecentLimit))
  }

  /** The base query of the support statistics, `where('assigned_to', id)`. */
  function AssignedQuery(supportId: int): seq<Clause> {
    [AssignedTo(supportId)]
  }

  function SupportStatsOf(supportId: int, ts: seq<Ticket>, today: int): Stats {
    var base := AssignedQuery(supportId);
    SupportStats(
      |Select(ts, base + [StatusIn(ActiveStatuses)])|,
      |Select(ts, [AssignedTo(supportId), StatusIn(DoneStatuses), UpdatedOn(today)])|,
      |Select(ts, [AssignedTo(supportId), StatusIn(DoneStatuses)])|,
      |Select(ts, [Unassigned, StatusIn({Open})])|,
      Select(ts, base + [PriorityIs(High), StatusIn(UrgentStatuses)]),
      Latest(Select(ts, base + [StatusIn(ActiveStatuses)]), AssignedLimit))
  }

  function UserStatsOf(userId: int, ts: seq<Ticket>): Stats {
    UserStats(
      |Select(ts, [OwnedBy(userId), StatusIn(ActiveStatuses)])|,
      |Select(ts, [OwnedBy(userId), StatusIn(DoneStatuses)])|,
      Latest(Select(ts, [OwnedBy(userId)]), RecentLimit))
  }

  /** The admin figures: the open and in-progress counts are those of their
      status and together stay within the total; the priority groups are
      distinct, positive and add up to the total; at most five recent
      tickets, newest first, none older than a ticket left out. */
  lemma AdminStatsFacts(ts: seq<Ticket>, totalUsers: nat)
    ensures var s := AdminStatsOf(ts, totalUsers);
      && s.totalUsers == totalUsers
      && s.totalTickets == |ts|
      && s.ticketsOpen + s.ticketsInProgress <= s.totalTickets
      && Totals(s.ticketsByPriority) == s.totalTickets
      && GroupKeys(s.ticketsByPriority) == PrioritiesIn(ts)
      && (forall i, j :: 0 <= i < j < |s.ticketsByPriority| ==> s.ticketsByPriority[i].priority != s.ticketsByPriority[j].priority)
      && (forall g :: g in s.ticketsByPriority ==> g.total == |Select(ts, [PriorityIs(g.priority)])| > 0)
      && |s.recentTickets| == (if |ts| < RecentLimit then |ts| else RecentLimit)
      && NewestFirst(s.recentTickets)
      && multiset(s.recentTickets) <= multiset(ts)
  {
    forall t | t in ts && Matches([StatusIn({Open})], t)
      ensures Matches([], t) && !Matches([StatusIn({InProgress})], t)
    {
      MatchesSingle(StatusIn({Open}), t);
      MatchesSingle(StatusIn({InProgress}), t);
    }
    SelectPartition(ts, [], [StatusIn({Open})], [StatusIn({InProgress})]);
    assert Select(ts, []) == ts by { SelectAll(ts); }
    GroupTotals(ts);
    GroupKeysArePriorities(ts);
    GroupsDistinct(ts);
    GroupCounts(ts);
  }

  /** A query with no clauses returns the whole table. */
  lemma {:induction false} SelectAll(ts: seq<Ticket>)
    ensures Select(ts, []) == ts
    decreases |ts|
  {
    if ts != [] {
      SelectAll(ts[1..]);
      assert ts == [ts[0]] + ts[1..];
    }
  }

  /** The support figures: today's resolved count stays within the total
      resolved; urgent tickets are the actor's, high priority, open or in
      progress, and no more than the assigned count; at most ten of the
      actor's active tickets are listed, newest first. */
  lemma SupportStatsFacts(supportId: int, ts: seq<Ticket>, today: int)
    ensures var s := SupportStatsOf(supportId, ts, today);
      && s.resolvedTicketsToday <= s.resolvedTicketsTotal
      && (forall t :: t in s.urgentAssignedTickets <==>
            t in ts && t.assignedTo == Some(supportId) && t.priority == High && t.status in UrgentStatuses)
      && |s.urgentAssignedTickets| <= s.assignedTicketsCount
      && |s.myAssignedTickets| <= AssignedLimit
      && |s.myAssignedTickets| <= s.assignedTicketsCount
      && (forall t :: t in s.myAssignedTickets ==> t in ts && t.assignedTo == Some(supportId) && t.status in ActiveStatuses)
      && NewestFirst(s.myAssignedTickets)
  {
    var doneQuery := [AssignedTo(supportId), StatusIn(DoneStatuses)];
    var doneTodayQuery := [AssignedTo(supportId), StatusIn(DoneStatuses), UpdatedOn(today)];
    forall t ensures Matches(doneTodayQuery, t) ==> Matches(doneQuery, t) {
      MatchesTriple(AssignedTo(supportId), StatusIn(DoneStatuses), UpdatedOn(today), t);
      MatchesPair(AssignedTo(supportId), StatusIn(DoneStatuses), t);
    }
    SelectMonotone(ts, doneTodayQuery, doneQuery);

    var urgentQuery := AssignedQuery(supportId) + [PriorityIs(High), StatusIn(UrgentStatuses)];
    var activeQuery := AssignedQuery(supportId) + [StatusIn(ActiveStatuses)];
    assert urgentQuery == [AssignedTo(supportId), PriorityIs(High), StatusIn(UrgentStatuses)];
    assert activeQuery == [AssignedTo(supportId), StatusIn(ActiveStatuses)];
    forall t
      ensures Matches(urgentQuery, t) <==> t.assignedTo == Some(supportId) && t.priority == High && t.status in UrgentStatuses
      ensures Matches(activeQuery, t) <==> t.assignedTo == Some(supportId) && t.status in ActiveStatuses
    {
      MatchesTriple(AssignedTo(supportId), PriorityIs(High), StatusIn(UrgentStatuses), t);
      MatchesPair(AssignedTo(supportId), StatusIn(ActiveStatuses), t);
    }
    SelectMonotone(ts, urgentQuery, activeQuery);

    var mine := Select(ts, activeQuery);
    var listed := Latest(mine, AssignedLimit);
    forall t | t in listed ensures t in mine {
      assert t in multiset(listed);
    }
  }

  /** The user figures: open and closed counts together are at most the
      number of tickets the user owns, and exactly that number when every
      owned ticket has one of the five known statuses; at most five recent
      tickets, all the user's own, newest first. */
  lemma UserStatsFacts(userId: int, ts: seq<Ticket>)
    ensures var s := UserStatsOf(userId, ts);
      && s.myOpenTickets + s.myClosedTickets <= |Select(ts, [OwnedBy(userId)])|
      && ((forall t :: t in ts && t.userId == userId ==> t.status != UnknownStatus) ==>
            s.myOpenTickets + s.myClosedTickets == |Select(ts, [OwnedBy(userId)])|)
      && |s.recentTickets| <= RecentLimit
      && (forall t :: t in s.recentTickets ==> t in ts && t.userId == userId)
      && NewestFirst(s.recentTickets)
  {
    UserCounts(userId, ts);
    UserRecent(userId, ts);
  }

  /** The open and closed counts of a user split the tickets they own. */
  lemma UserCounts(userId: int, ts: seq<Ticket>)
    ensures |Select(ts, [OwnedBy(userId), StatusIn(ActiveStatuses)])| + |Select(ts, [OwnedBy(userId), StatusIn(DoneStatuses)])|
      <= |Select(ts, [OwnedBy(userId)])|
    ensures (forall t :: t in ts && t.userId == userId ==> t.status != UnknownStatus) ==>
      |Select(ts, [OwnedBy(userId), StatusIn(ActiveStatuses)])| + |Select(ts, [OwnedBy(userId), StatusIn(DoneStatuses)])|
        == |Select(ts, [OwnedBy(userId)])|
  {
    var ownedQuery := [OwnedBy(userId)];
    var openQuery := [OwnedBy(userId), StatusIn(ActiveStatuses)];
    var closedQuery := [OwnedBy(userId), StatusIn(DoneStatuses)];
    forall t ensures Matches(ownedQuery, t) <==> t.userId == userId {
      MatchesSingle(OwnedBy(userId), t);
    }
    forall t ensures Matches(openQuery, t) <==> t.userId == userId && t.status in ActiveStatuses {
      MatchesPair(OwnedBy(userId), StatusIn(ActiveStatuses), t);
    }
    forall t ensures Matches(closedQuery, t) <==> t.userId == userId && t.status in DoneStatuses {
      MatchesPair(OwnedBy(userId), StatusIn(DoneStatuses), t);
    }
    SelectPartition(ts, ownedQuery, openQuery, closedQuery);
  }

  /** A user's recent tickets are at most five of their own, newest first. */
  lemma UserRecent(userId: int, ts: seq<Ticket>)
    ensures var recent := Latest(Select(ts, [OwnedBy(userId)]), RecentLimit);
      && |recent| <= RecentLimit
      && (forall t :: t in recent ==> t in ts && t.userId == userId)
      && NewestFirst(recent)
  {
    var mine := Select(ts, [OwnedBy(userId)]);
    forall t ensures Matches([OwnedBy(userId)], t) <==> t.userId == userId {
      MatchesSingle(OwnedBy(userId), t);
    }
    var recent := Latest(mine, RecentLimit);
    forall t | t in recent ensures t in mine {
      assert t in multiset(recent);
    }
  }
}
