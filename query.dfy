/** The part of the query builder the controllers use, over the ticket table
    as a sequence in id order: `find`, chains of `where` clauses, `count`,
    and `latest()->take(n)`. */
module Query {
  import opened Model

  /** One `where` clause of a ticket query. */
  datatype Clause =
    | OwnedBy(userId: int)            // where('user_id', id)
    | AssignedTo(assignee: int)       // where('assigned_to', id)
    | Unassigned                      // whereNull('assigned_to')
    | StatusIn(statuses: set<Status>) // where('status', s) and whereIn('status', [...])
    | PriorityIs(priority: Priority)  // where('priority', p)
    | UpdatedOn(day: int)             // whereDate('updated_at', day)

  predicate Holds(c: Clause, t: Ticket) {
    match c
    case OwnedBy(u) => t.userId == u
    case AssignedTo(u) => t.assignedTo == Some(u)
    case Unassigned => t.assignedTo.None?
    case StatusIn(ss) => t.status in ss
    case PriorityIs(p) => t.priority == p
    case UpdatedOn(d) => DayOf(t.updatedAt) == d
  }

  /** A chain of clauses is their conjunction. */
  predicate Matches(q: seq<Clause>, t: Ticket) {
    forall i :: 0 <= i < |q| ==> Holds(q[i], t)
  }

  lemma MatchesSingle(c: Clause, t: Ticket)
    ensures Matches([c], t) <==> Holds(c, t)
  {
    assert [c][0] == c;
  }

  lemma MatchesPair(c1: Clause, c2: Clause, t: Ticket)
    ensures Matches([c1, c2], t) <==> Holds(c1, t) && Holds(c2, t)
  {
    assert [c1, c2][0] == c1 && [c1, c2][1] == c2;
  }

  lemma MatchesTriple(c1: Clause, c2: Clause, c3: Clause, t: Ticket)
    ensures Matches([c1, c2, c3], t) <==> Holds(c1, t) && Holds(c2, t) && Holds(c3, t)
  {
    assert [c1, c2, c3][0] == c1 && [c1, c2, c3][1] == c2 && [c1, c2, c3][2] == c3;
  }

  /** `->get()` of a query: the matching rows, in table order. */
  function Select(ts: seq<Ticket>, q: seq<Clause>): (r: seq<Ticket>)
    ensures forall t {:trigger t in r} :: t in r <==> t in ts && Matches(q, t)
    ensures |r| <= |ts|
  {
    if ts == [] then []
    else
      assert ts == [ts[0]] + ts[1..];
      (if Matches(q, ts[0]) then [ts[0]] else []) + Select(ts[1..], q)
  }

  /** `Ticket::find(id)`, as route model binding uses it. */
  function Find(ts: seq<Ticket>, id: int): (r: Option<Ticket>)
    ensures r.Some? ==> r.value in ts && r.value.id == id
    ensures r.None? ==> forall t :: t in ts ==> t.id != id
  {
    if ts == [] then None
    else if ts[|ts| - 1].id == id then Some(ts[|ts| - 1])
    else
      assert ts == ts[..|ts| - 1] + [ts[|ts| - 1]];
      Find(ts[..|ts| - 1], id)
  }

  /** Every ticket's id is its position in the table plus one. */
  ghost predicate IdsArePositions(ts: seq<Ticket>) {
    forall i :: 0 <= i < |ts| ==> ts[i].id == i + 1
  }

  /** In such a table, `find(id)` is the row at position `id - 1`. */
  lemma FindByPosition(ts: seq<Ticket>, id: int)
    requires IdsArePositions(ts)
    ensures Find(ts, id) == if 1 <= id <= |ts| then Some(ts[id - 1]) else None
  {
  }

  /** A table that grows by one row: every query gains that row at its end
      when it matches, and is otherwise unchanged. */
  lemma {:induction false} SelectAppend(ts: seq<Ticket>, t: Ticket, q: seq<Clause>)
    ensures Select(ts + [t], q) == Select(ts, q) + (if Matches(q, t) then [t] else [])
    decreases |ts|
  {
    if ts == [] {
      assert [t][1..] == [];
    } else {
      assert (ts + [t])[1..] == ts[1..] + [t];
      SelectAppend(ts[1..], t, q);
    }
  }

  /** A query whose clauses imply another's never counts more rows. */
  lemma {:induction false} SelectMonotone(ts: seq<Ticket>, q1: seq<Clause>, q2: seq<Clause>)
    requires forall t :: t in ts && Matches(q1, t) ==> Matches(q2, t)
    ensures |Select(ts, q1)| <= |Select(ts, q2)|
    decreases |ts|
  {
    if ts != [] {
      assert ts == [ts[0]] + ts[1..];
      SelectMonotone(ts[1..], q1, q2);
    }
  }

  /** Two disjoint refinements of a query count no more than the query
      together, and exactly as much when they cover all its rows. */
  lemma {:induction false} SelectPartition(ts: seq<Ticket>, q: seq<Clause>, q1: seq<Clause>, q2: seq<Clause>)
    requires forall t :: t in ts && Matches(q1, t) ==> Matches(q, t) && !Matches(q2, t)
    requires forall t :: t in ts && Matches(q2, t) ==> Matches(q, t)
    ensures |Select(ts, q1)| + |Select(ts, q2)| <= |Select(ts, q)|
    ensures (forall t :: t in ts && Matches(q, t) ==> Matches(q1, t) || Matches(q2, t)) ==>
              |Select(ts, q1)| + |Select(ts, q2)| == |Select(ts, q)|
    decreases |ts|
  {
    if ts != [] {
      assert ts == [ts[0]] + ts[1..];
      SelectPartition(ts[1..], q, q1, q2);
    }
  }

  /** Rows in `latest()` order: newest `created_at` first. */
  ghost predicate NewestFirst(s: seq<Ticket>) {
    forall i, j :: 0 <= i < j < |s| ==> s[i].createdAt >= s[j].createdAt
  }

  function Insert(t: Ticket, s: seq<Ticket>): (r: seq<Ticket>)
    requires NewestFirst(s)
    ensures NewestFirst(r)
    ensures multiset(r) == multiset(s) + multiset{t}
    ensures |r| == |s| + 1
    ensures r[0] == t || (s != [] && r[0] == s[0])
  {
    if s == [] || t.createdAt >= s[0].createdAt then [t] + s
    else
      assert s == [s[0]] + s[1..];
      [s[0]] + Insert(t, s[1..])
  }

  /** `->latest()`: the rows sorted newest first. */
  function SortNewestFirst(ts: seq<Ticket>): (r: seq<Ticket>)
    ensures NewestFirst(r)
    ensures multiset(r) == multiset(ts)
  {
    if ts == [] then []
    else
      assert ts == [ts[0]] + ts[1..];
      Insert(ts[0], SortNewestFirst(ts[1..]))
  }

  /** `->latest()->take(n)`: at most `n` rows, newest first, and no row left
      out is newer than a row taken. */
  function Latest(ts: seq<Ticket>, n: nat): (r: seq<Ticket>)
    ensures |r| == if |ts| < n then |ts| else n
    ensures NewestFirst(r)
    ensures multiset(r) <= multiset(ts)
    ensures forall t, u :: t in multiset(ts) - multiset(r) && u in r ==> t.createdAt <= u.createdAt
  {
    var sorted := SortNewestFirst(ts);
    var k := if |ts| < n then |ts| else n;
    LatestLeftOut(ts, sorted, k);
    sorted[..k]
  }

  lemma LatestLeftOut(ts: seq<Ticket>, sorted: seq<Ticket>, k: nat)
    requires NewestFirst(sorted) && multiset(sorted) == multiset(ts) && k <= |ts|
    ensures |sorted| == |ts|
    ensures multiset(sorted[..k]) <= multiset(ts)
    ensures multiset(ts) - multiset(sorted[..k]) == multiset(sorted[k..])
    ensures forall t, u :: t in multiset(sorted[k..]) && u in sorted[..k] ==> t.createdAt <= u.createdAt
  {
    assert |sorted| == |multiset(sorted)| == |multiset(ts)| == |ts|;
    assert sorted == sorted[..k] + sorted[k..];
    forall t, u | t in multiset(sorted[k..]) && u in sorted[..k]
      ensures t.createdAt <= u.createdAt
    {
      var j :| 0 <= j < |sorted[k..]| && sorted[k..][j] == t;
      var i :| 0 <= i < k && sorted[..k][i] == u;
      assert sorted[i] == u && sorted[k + j] == t;
    }
  }

  /** One row of `select('priority', count(*) as total)->groupBy('priority')`. */
  datatype PriorityGroup = PriorityGroup(priority: Priority, total: nat)

  function WithoutPriority(ts: seq<Ticket>, p: Priority): (r: seq<Ticket>)
    ensures forall t {:trigger t in r} :: t in r <==> t in ts && t.priority != p
  {
    if ts == [] then []
    else
      assert ts == [ts[0]] + ts[1..];
      (if ts[0].priority != p then [ts[0]] else []) + WithoutPriority(ts[1..], p)
  }

  lemma SelectPriorityStep(ts: seq<Ticket>, o: Priority)
    requires ts != []
    ensures |Select(ts, [PriorityIs(o)])| == (if ts[0].priority == o then 1 else 0) + |Select(ts[1..], [PriorityIs(o)])|
  {
    MatchesSingle(PriorityIs(o), ts[0]);
  }

  /** Dropping one priority removes exactly its rows. */
  lemma {:induction false} WithoutPriorityCount(ts: seq<Ticket>, p: Priority)
    ensures |WithoutPriority(ts, p)| + |Select(ts, [PriorityIs(p)])| == |ts|
    decreases |ts|
  {
    if ts != [] {
      WithoutPriorityCount(ts[1..], p);
      SelectPriorityStep(ts, p);
    }
  }

  /** Dropping one priority keeps every other priority's count. */
  lemma {:induction false} WithoutPriorityKeeps(ts: seq<Ticket>, p: Priority, o: Priority)
    requires o != p
    ensures |Select(WithoutPriority(ts, p), [PriorityIs(o)])| == |Select(ts, [PriorityIs(o)])|
    decreases |ts|
  {
    if ts != [] {
      var rest := WithoutPriority(ts[1..], p);
      WithoutPriorityKeeps(ts[1..], p, o);
      SelectPriorityStep(ts, o);
      if ts[0].priority != p {
        var r := [ts[0]] + rest;
        assert WithoutPriority(ts, p) == r;
        SelectPriorityStep(r, o);
        assert r[1..] == rest;
      } else {
        assert WithoutPriority(ts, p) == rest;
      }
    }
  }

  /** The groups of `groupBy('priority')`, one per priority present in the
      table, in order of first appearance. */
  function GroupByPriority(ts: seq<Ticket>): seq<PriorityGroup>
    decreases |ts|
  {
    if ts == [] then []
    else
      var p := ts[0].priority;
      MatchesSingle(PriorityIs(p), ts[0]);
      WithoutPriorityCount(ts, p);
      [PriorityGroup(p, |Select(ts, [PriorityIs(p)])|)] + GroupByPriority(WithoutPriority(ts, p))
  }

  function GroupKeys(groups: seq<PriorityGroup>): set<Priority> {
    set g | g in groups :: g.priority
  }

  function PrioritiesIn(ts: seq<Ticket>): set<Priority> {
    set t | t in ts :: t.priority
  }

  /** There is a group for every priority in the table and for no other. */
  lemma {:induction false} GroupKeysArePriorities(ts: seq<Ticket>)
    ensures GroupKeys(GroupByPriority(ts)) == PrioritiesIn(ts)
    decreases |ts|
  {
    if ts != [] {
      var p := ts[0].priority;
      var rest := WithoutPriority(ts, p);
      MatchesSingle(PriorityIs(p), ts[0]);
      WithoutPriorityCount(ts, p);
      GroupKeysArePriorities(rest);
      var g := PriorityGroup(p, |Select(ts, [PriorityIs(p)])|);
      assert GroupByPriority(ts) == [g] + GroupByPriority(rest);
      assert GroupKeys([g] + GroupByPriority(rest)) == {p} + GroupKeys(GroupByPriority(rest));
      assert PrioritiesIn(ts) == {p} + PrioritiesIn(rest);
    }
  }

  /** No priority has two groups. */
  lemma {:induction false} GroupsDistinct(ts: seq<Ticket>)
    ensures var r := GroupByPriority(ts);
      forall i, j :: 0 <= i < j < |r| ==> r[i].priority != r[j].priority
    decreases |ts|
  {
    if ts != [] {
      var p := ts[0].priority;
      var rest := WithoutPriority(ts, p);
      MatchesSingle(PriorityIs(p), ts[0]);
      WithoutPriorityCount(ts, p);
      GroupsDistinct(rest);
      GroupKeysArePriorities(rest);
      var tail := GroupByPriority(rest);
      assert forall j :: 0 <= j < |tail| ==> tail[j].priority in GroupKeys(tail);
    }
  }

  /** Each group's total is the number of rows with its priority, and is positive. */
  lemma {:induction false} GroupCounts(ts: seq<Ticket>)
    ensures var r := GroupByPriority(ts);
      forall i :: 0 <= i < |r| ==> r[i].total == |Select(ts, [PriorityIs(r[i].priority)])| > 0
    decreases |ts|
  {
    if ts != [] {
      var p := ts[0].priority;
      var rest := WithoutPriority(ts, p);
      MatchesSingle(PriorityIs(p), ts[0]);
      WithoutPriorityCount(ts, p);
      GroupCounts(rest);
      GroupKeysArePriorities(rest);
      var tail := GroupByPriority(rest);
      forall j | 0 <= j < |tail|
        ensures tail[j].total == |Select(ts, [PriorityIs(tail[j].priority)])|
      {
        assert tail[j].priority in GroupKeys(tail);
        WithoutPriorityKeeps(ts, p, tail[j].priority);
      }
    }
  }

  function Totals(groups: seq<PriorityGroup>): nat {
    if groups == [] then 0 else groups[0].total + Totals(groups[1..])
  }

  /** The group counts add up to the number of rows. */
  lemma {:induction false} GroupTotals(ts: seq<Ticket>)
    ensures Totals(GroupByPriority(ts)) == |ts|
    decreases |ts|
  {
    if ts != [] {
      var p := ts[0].priority;
      assert Matches([PriorityIs(p)], ts[0]);
      WithoutPriorityCount(ts, p);
      GroupTotals(WithoutPriority(ts, p));
    }
  }
}
