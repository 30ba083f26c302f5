/** Who waits for what, and in which order they are served (crates/core/src/wait.rs). */
module WaitQueues {
  import opened Wrappers
  import opened ResourceKeys
  import opened Leases

  type Ticket = nat

  datatype Waiter = Waiter(ticket: Ticket, agent: AgentId, resource: string, mode: Mode, since: Time, priority: int) {
    /** Higher priority first, then arrival. */
    predicate AheadOf(other: Waiter) {
      priority > other.priority || (priority == other.priority && ticket < other.ticket)
    }

    predicate InTheWayOf(mine: Waiter) {
      Overlaps(resource, mine.resource) && (mode == Exclusive || mine.mode == Exclusive)
    }
  }

  /** One step of a ring of waits: an agent, what it waits for, and who holds that. */
  datatype Blocked = Blocked(agent: AgentId, resource: string, heldBy: AgentId)

  ghost predicate Ordered(ws: seq<Waiter>) {
    && (forall i, j :: 0 <= i < j < |ws| ==> ws[i].AheadOf(ws[j]))
    && (forall i, j :: 0 <= i < j < |ws| ==> ws[i].ticket != ws[j].ticket)
  }

  /** Everyone served before `mine` that excludes it: the reference for a queue place. */
  ghost function InFront(ws: seq<Waiter>, mine: Waiter): set<Ticket> {
    set w | w in ws && w.AheadOf(mine) && w.InTheWayOf(mine) :: w.ticket
  }

  function PartitionPoint(ws: seq<Waiter>, w: Waiter): (n: nat)
    ensures n <= |ws|
    ensures forall i :: 0 <= i < n ==> ws[i].AheadOf(w)
    ensures n < |ws| ==> !ws[n].AheadOf(w)
  {
    if ws == [] || !ws[0].AheadOf(w) then 0 else 1 + PartitionPoint(ws[1..], w)
  }

  function Inserted(ws: seq<Waiter>, w: Waiter): seq<Waiter> {
    var at := PartitionPoint(ws, w);
    ws[..at] + [w] + ws[at..]
  }

  /** Where the ticket stands, or the queue's length. */
  function IndexOf(ws: seq<Waiter>, ticket: Ticket): (n: nat)
    ensures n <= |ws|
    ensures n < |ws| ==> ws[n].ticket == ticket
    ensures forall i :: 0 <= i < n ==> ws[i].ticket != ticket
  {
    if ws == [] || ws[0].ticket == ticket then 0 else 1 + IndexOf(ws[1..], ticket)
  }

  function Removed(ws: seq<Waiter>, ticket: Ticket): seq<Waiter> {
    var at := IndexOf(ws, ticket);
    if at == |ws| then ws else ws[..at] + ws[at + 1..]
  }

  /** One wait is in another's way exactly when what it waits for, once given, would be: leases
      and waits exclude each other by one rule. */
  lemma WaitsExcludeLikeLeases(w: Waiter, mine: Waiter, id: LeaseId, note: Option<string>, now: Time)
    requires w.agent != mine.agent
    ensures w.InTheWayOf(mine) <==>
            Fresh(id, Request(w.resource, w.agent, w.mode, 60, note, false), now).Blocks(mine.agent, mine.mode, mine.resource)
    ensures w.InTheWayOf(mine) <==> Overlaps(w.resource, mine.resource) && !(w.mode == Shared && mine.mode == Shared)
  {
  }

  // ----- The order is one total order, and stays so -----

  lemma InsertAhead(ws: seq<Waiter>, w: Waiter, i: nat)
    requires Ordered(ws) && (forall x <- ws :: x.ticket < w.ticket) && PartitionPoint(ws, w) <= i < |ws|
    ensures w.AheadOf(ws[i])
  {
    var at := PartitionPoint(ws, w);
    assert ws[at] in ws && !ws[at].AheadOf(w);
    assert i > at ==> ws[at].AheadOf(ws[i]);
  }

  lemma InsertedAt(ws: seq<Waiter>, w: Waiter, i: nat)
    requires i <= |ws|
    ensures var at, ws' := PartitionPoint(ws, w), Inserted(ws, w);
            |ws'| == |ws| + 1 && ws'[i] == if i < at then ws[i] else if i == at then w else ws[i - 1]
  {
  }

  lemma InsertKeepsPair(ws: seq<Waiter>, w: Waiter, i: nat, j: nat)
    requires Ordered(ws) && (forall x <- ws :: x.ticket < w.ticket) && i < j <= |ws|
    ensures var ws' := Inserted(ws, w);
            |ws'| == |ws| + 1 && ws'[i].AheadOf(ws'[j]) && ws'[i].ticket != ws'[j].ticket
  {
    var at := PartitionPoint(ws, w);
    InsertedAt(ws, w, i);
    InsertedAt(ws, w, j);
    if i == at {
      assert ws[j - 1] in ws;
      InsertAhead(ws, w, j - 1);
    } else if j == at {
      assert ws[i] in ws;
    }
  }

  lemma InsertKeepsOrder(ws: seq<Waiter>, w: Waiter)
    requires Ordered(ws) && forall x <- ws :: x.ticket < w.ticket
    ensures Ordered(Inserted(ws, w))
    ensures forall x :: x in Inserted(ws, w) <==> x in ws || x == w
  {
    var at, ws' := PartitionPoint(ws, w), Inserted(ws, w);
    forall i, j | 0 <= i < j < |ws'|
      ensures ws'[i].AheadOf(ws'[j]) && ws'[i].ticket != ws'[j].ticket
    {
      InsertKeepsPair(ws, w, i, j);
    }
    InsertHolds(ws[..at], w, ws[at..]);
    assert ws[..at] + ws[at..] == ws;
  }

  lemma InsertHolds(a: seq<Waiter>, w: Waiter, b: seq<Waiter>)
    ensures forall x :: x in a + [w] + b <==> x in a + b || x == w
  {
  }

  lemma RemoveKeepsOrder(ws: seq<Waiter>, ticket: Ticket)
    requires Ordered(ws)
    ensures Ordered(Removed(ws, ticket))
    ensures forall x :: x in Removed(ws, ticket) <==> x in ws && x.ticket != ticket
  {
    var at := IndexOf(ws, ticket);
    if at < |ws| {
      var ws' := Removed(ws, ticket);
      assert forall i :: 0 <= i < at ==> ws'[i] == ws[i];
      assert forall i :: at <= i < |ws'| ==> ws'[i] == ws[i + 1];
      forall x | x in ws && x.ticket != ticket
        ensures x in ws'
      {
        var i :| 0 <= i < |ws| && ws[i] == x;
        assert i < at ==> ws'[i] == x;
        assert i > at ==> ws'[i - 1] == x;
      }
    }
  }

  // ----- What a place means -----

  /** A newcomer moves back exactly those it outranks and excludes. */
  lemma JoinMovesBackExactly(ws: seq<Waiter>, w: Waiter, mine: Waiter)
    requires Ordered(ws) && mine in ws && forall x <- ws :: x.ticket < w.ticket
    ensures InFront(Inserted(ws, w), mine)
         == InFront(ws, mine) + (if w.priority > mine.priority && w.InTheWayOf(mine) then {w.ticket} else {})
    ensures w.ticket !in InFront(ws, mine)
  {
    InsertKeepsOrder(ws, w);
  }

  /** A wait that ends lets through exactly those it stood in front of. */
  lemma LeaveLetsThroughExactly(ws: seq<Waiter>, ticket: Ticket, mine: Waiter)
    requires Ordered(ws) && mine in ws && mine.ticket != ticket
    ensures InFront(Removed(ws, ticket), mine) == InFront(ws, mine) - {ticket}
  {
    RemoveKeepsOrder(ws, ticket);
  }

  /** A queue never wedges on its own order: its head has nobody in front. */
  lemma HeadIsNext(ws: seq<Waiter>)
    requires Ordered(ws) && ws != []
    ensures InFront(ws, ws[0]) == {}
  {
    forall w | w in ws
      ensures !w.AheadOf(ws[0])
    {
      var i :| 0 <= i < |ws| && ws[i] == w;
      assert i > 0 ==> ws[0].AheadOf(ws[i]);
    }
  }

  /** All waiters whose turn it is may proceed together. */
  lemma NextWaitersAreCompatible(ws: seq<Waiter>, a: Waiter, b: Waiter)
    requires a in ws && b in ws && a.ticket != b.ticket
    requires InFront(ws, a) == {} && InFront(ws, b) == {}
    ensures !a.InTheWayOf(b)
  {
    assert a.ticket !in InFront(ws, b);
    assert b.ticket !in InFront(ws, a);
    OverlapIsSymmetric(a.resource, b.resource);
  }

  // ----- Whole runs of a queue -----

  datatype Queue = Queue(waiters: seq<Waiter>, next: Ticket)

  ghost predicate ValidQueue(q: Queue) {
    Ordered(q.waiters) && forall w <- q.waiters :: w.ticket < q.next
  }

  ghost predicate Joins(q: Queue, q': Queue, w: Waiter) {
    w.ticket == q.next && q' == Queue(Inserted(q.waiters, w), q.next + 1)
  }

  ghost predicate Leaves(q: Queue, q': Queue, ticket: Ticket) {
    q' == Queue(Removed(q.waiters, ticket), q.next)
  }

  ghost predicate QueueStep(q: Queue, q': Queue) {
    (exists w :: Joins(q, q', w)) || (exists ticket :: Leaves(q, q', ticket))
  }

  ghost predicate QueueRun(run: seq<Queue>) {
    && run != [] && ValidQueue(run[0])
    && forall i :: 0 < i < |run| ==> QueueStep(run[i - 1], run[i])
  }

  lemma {:induction false} RunStaysValid(run: seq<Queue>, k: nat)
    requires QueueRun(run) && k < |run|
    ensures ValidQueue(run[k])
  {
    if k > 0 {
      RunStaysValid(run, k - 1);
      var q, q' := run[k - 1], run[k];
      if w :| Joins(q, q', w) {
        InsertKeepsOrder(q.waiters, w);
      } else {
        var ticket :| Leaves(q, q', ticket);
        RemoveKeepsOrder(q.waiters, ticket);
      }
    }
  }

  /** Fairness over every run: while nobody of a higher priority joins, nobody ever gets in
      front of a waiter; those in front of it can only dwindle. */
  lemma {:induction false} NobodyOvertakes(run: seq<Queue>, k: nat, mine: Waiter)
    requires QueueRun(run) && k < |run|
    requires forall i :: 0 <= i <= k ==> mine in run[i].waiters
    requires forall i, w :: 0 < i <= k && w in run[i].waiters && w !in run[i - 1].waiters ==> w.priority <= mine.priority
    ensures InFront(run[k].waiters, mine) <= InFront(run[0].waiters, mine)
  {
    if k > 0 {
      NobodyOvertakes(run, k - 1, mine);
      RunStaysValid(run, k - 1);
      var q, q' := run[k - 1], run[k];
      if w :| Joins(q, q', w) {
        InsertKeepsOrder(q.waiters, w);
        assert w !in q.waiters;
        JoinMovesBackExactly(q.waiters, w, mine);
      } else {
        var ticket :| Leaves(q, q', ticket);
        RemoveKeepsOrder(q.waiters, ticket);
        if mine.ticket != ticket {
          LeaveLetsThroughExactly(q.waiters, ticket, mine);
        }
      }
    }
  }

  lemma OneMoreInFront(ws: seq<Waiter>, i: nat, mine: Waiter)
    requires Ordered(ws) && i < |ws|
    ensures |InFront(ws[..i + 1], mine)|
         == |InFront(ws[..i], mine)| + if ws[i].AheadOf(mine) && ws[i].InTheWayOf(mine) then 1 else 0
  {
    var before, w := ws[..i], ws[i];
    assert ws[..i + 1] == before + [w];
    assert w.ticket !in InFront(before, mine);
    if w.AheadOf(mine) && w.InTheWayOf(mine) {
      assert InFront(before + [w], mine) == InFront(before, mine) + {w.ticket};
    } else {
      assert InFront(before + [w], mine) == InFront(before, mine);
    }
  }

  // ----- The queue as the daemon keeps it -----

  class WaitQueue {
    var waiters: seq<Waiter>
    var broken: map<Ticket, seq<Blocked>>
    var nextTicket: Ticket

    ghost predicate Valid()
      reads this
    {
      && ValidQueue(Queue(waiters, nextTicket))
      && (forall t <- broken :: t < nextTicket && forall w <- waiters :: w.ticket != t)
    }

    constructor ()
      ensures Valid() && waiters == [] && broken == map[] && nextTicket == 0
    {
      waiters, broken, nextTicket := [], map[], 0;
    }

    method Join(agent: AgentId, resource: string, mode: Mode, priority: int, now: Time) returns (ticket: Ticket)
      requires Valid()
      modifies this
      ensures Valid() && ticket == old(nextTicket) && broken == old(broken)
      ensures Joins(Queue(old(waiters), old(nextTicket)), Queue(waiters, nextTicket),
                    Waiter(ticket, agent, resource, mode, now, priority))
    {
      ticket := nextTicket;
      nextTicket := nextTicket + 1;
      var w := Waiter(ticket, agent, resource, mode, now, priority);
      InsertKeepsOrder(waiters, w);
      waiters := Inserted(waiters, w);
    }

    method Leave(ticket: Ticket) returns (gone: Option<Waiter>)
      requires Valid()
      modifies this
      ensures Valid() && nextTicket == old(nextTicket)
      ensures waiters == Removed(old(waiters), ticket) && broken == old(broken) - {ticket}
      ensures gone.Some? ==> gone.value in old(waiters) && gone.value.ticket == ticket
      ensures gone.None? <==> forall w <- old(waiters) :: w.ticket != ticket
    {
      RemoveKeepsOrder(waiters, ticket);
      broken := broken - {ticket};
      var at := IndexOf(waiters, ticket);
      if at == |waiters| {
        return None;
      }
      gone := Some(waiters[at]);
      waiters := waiters[..at] + waiters[at + 1..];
    }

    /** The wait leaves the queue and is remembered, with its ring, until its claim reads it. */
    method BreakRing(ticket: Ticket, cycle: seq<Blocked>) returns (gone: Option<Waiter>)
      requires Valid()
      modifies this
      ensures Valid() && nextTicket == old(nextTicket)
      ensures waiters == Removed(old(waiters), ticket)
      ensures gone.None? <==> forall w <- old(waiters) :: w.ticket != ticket
      ensures gone.Some? ==> gone.value in old(waiters) && gone.value.ticket == ticket
                             && broken == old(broken)[ticket := cycle] && |waiters| == |old(waiters)| - 1
      ensures gone.None? ==> broken == old(broken) && waiters == old(waiters)
    {
      RemoveKeepsOrder(waiters, ticket);
      var at := IndexOf(waiters, ticket);
      if at == |waiters| {
        return None;
      }
      broken := broken[ticket := cycle];
      gone := Some(waiters[at]);
      waiters := waiters[..at] + waiters[at + 1..];
    }

    /** The published queue place is the number of those in front, and 0 means its turn. */
    method Position(ticket: Ticket) returns (place: Option<nat>)
      requires Valid()
      ensures place.None? <==> forall w <- waiters :: w.ticket != ticket
      ensures forall mine <- waiters :: mine.ticket == ticket ==> place == Some(|InFront(waiters, mine)|)
    {
      var at := IndexOf(waiters, ticket);
      if at == |waiters| {
        return None;
      }
      var mine := waiters[at];
      var count := 0;
      for i := 0 to |waiters|
        invariant count == |InFront(waiters[..i], mine)|
      {
        OneMoreInFront(waiters, i, mine);
        if waiters[i].AheadOf(mine) && waiters[i].InTheWayOf(mine) {
          count := count + 1;
        }
      }
      assert waiters[..|waiters|] == waiters;
      place := Some(count);
    }

    method IsNext(ticket: Ticket) returns (yes: bool)
      requires Valid()
      ensures yes <==> exists mine <- waiters :: mine.ticket == ticket && InFront(waiters, mine) == {}
    {
      var place := Position(ticket);
      yes := place == Some(0);
    }
  }
}
