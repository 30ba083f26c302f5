/** Two more runs of the daemon: a waiter that is not woken, and a ring that is no deadlock
    (crates/agentd/src/daemon.rs, crates/core/src/wait.rs). */
module WaitCases {
  import opened Wrappers
  import opened ResourceKeys
  import opened Leases
  import opened WaitQueues
  import opened Rings
  import opened Deadlocks
  import opened Arbiter
  import opened Fairness
  import opened HeldUp
  import opened Wakeups
  import opened SharedRings
  import opened ArbiterCases

  // ----- A gift that wakes nobody -----

  lemma GiftIsAll(t: Table, id: LeaseId, x: AgentId, y: AgentId, r: string)
    requires t == map[id := Given(id, r, y)] && x != y
    ensures Offered(t, y, {id}, 0) == {id}
    ensures Blocking(t, id, Waiting(0, x, r, 0)) && forall k <- t :: k == id
  {
  }

  lemma WaitsAlone(id: LeaseId, x: AgentId, y: AgentId, r: string)
    requires x != y
    ensures CalmlyReached(State(map[id := Given(id, r, y)], Queue([Waiting(0, x, r, 0)], 1)))
  {
    StartIsCalmlyReached();
    ThenGranted(START, r, y, id);
    var s := WithLease(START, id, r, y);
    assert s == State(map[id := Given(id, r, y)], START.queue);
    FirstWaitIsReached(s.leases, x, r);
  }

  /** `x` waits for what `y` holds, and `y` hands it over to `x`: nothing is in the way of `x` any
      more, and nothing it listens for has been announced. */
  lemma GiftWakesNobody(id: LeaseId, x: AgentId, y: AgentId, r: string)
    requires x != y
    ensures var s, mine := State(map[id := Given(id, r, y)], Queue([Waiting(0, x, r, 0)], 1)), Waiting(0, x, r, 0);
            var step := HandsOver(y, x, {id}, 0);
            var s' := AfterHandoff(s, step);
            && Reachable(s) && Inv(s) && Takes(s, s', step) && mine in s'.queue.waiters
            && Stalled(s, mine) && !Stalled(s', mine) && !Woken(s, s', step, mine)
  {
    WaitsAlone(id, x, y, r);
    var s, mine := State(map[id := Given(id, r, y)], Queue([Waiting(0, x, r, 0)], 1)), Waiting(0, x, r, 0);
    CalmlyReachedIsSafe(s);
    GiftIsAll(s.leases, id, x, y, r);
    var step := HandsOver(y, x, {id}, 0);
    assert s.queue.waiters[0] == mine;
    assert InFront(s.queue.waiters, mine) == {};
    HandoffFreesExactlyWhen(s, AfterHandoff(s, step), step, mine);
    ClearedIsWokenExactlyUnless(s, AfterHandoff(s, step), step, mine);
  }

  // ----- A ring of shared leases -----

  function AskShared(key: string, holder: AgentId): Request {
    Request(key, holder, Shared, 60, None, false)
  }

  function GivenShared(id: LeaseId, key: string, holder: AgentId): Lease { Fresh(id, AskShared(key, holder), 0) }

  lemma ThenGrantedShared(s: State, key: string, holder: AgentId, id: LeaseId)
    requires CalmlyReached(s) && Young(s.leases) && id !in s.leases && !IsWaiting(s.queue.waiters, holder)
    requires forall k <- s.leases :: s.leases[k].holder != holder && !Overlaps(s.leases[k].resource, key)
    ensures CalmlyReached(s.(leases := s.leases[id := GivenShared(id, key, holder)]))
  {
    assert Live(s.leases, 0) == s.leases;
    assert Blockers(s.leases, AskShared(key, holder)) == {};
    var s' := s.(leases := s.leases[id := GivenShared(id, key, holder)]);
    CalmlyReachesNext(s, s', TriesFirst(AskShared(key, holder), 0, id, New(GivenShared(id, key, holder))));
  }

  /** `x` shares one file of a directory, `v` has another to itself, and `y` has something else. */
  ghost predicate Sharing(t: Table, x: AgentId, y: AgentId, v: AgentId, one: string, two: string, other: string) {
    && Young(t)
    && (forall k <- t :: t[k].holder == x ==> t[k].resource == one && t[k].mode == Shared)
    && (forall k <- t :: t[k].holder == y ==> t[k].resource == other)
    && (exists k <- t :: t[k].holder == x && t[k].resource == one)
    && (exists k <- t :: t[k].holder == y && t[k].resource == other)
    && (exists k <- t :: t[k].holder == v && t[k].resource == two && t[k].mode == Exclusive)
  }

  lemma ThisIsSharing(t: Table, i: LeaseId, j: LeaseId, k: LeaseId, x: AgentId, y: AgentId, v: AgentId, one: string, two: string, other: string)
    requires i != j && i != k && j != k && x != y && x != v && y != v
    requires t == map[j := Given(j, two, v), k := Given(k, other, y), i := GivenShared(i, one, x)]
    ensures Sharing(t, x, y, v, one, two, other)
  {
    assert t[i].holder == x && t[j].holder == v && t[k].holder == y;
  }

  lemma SharingIsReached(i: LeaseId, j: LeaseId, k: LeaseId, x: AgentId, y: AgentId, v: AgentId, one: string, two: string, other: string)
    returns (s: State)
    requires i != j && i != k && j != k && x != y && x != v && y != v && Apart(one, two) && Apart(one, other) && Apart(two, other)
    ensures CalmlyReached(s) && s.queue == START.queue && Sharing(s.leases, x, y, v, one, two, other)
  {
    var s2 := TwoTaken(j, k, v, y, two, other);
    ThenGrantedShared(s2, one, x, i);
    s := s2.(leases := s2.leases[i := GivenShared(i, one, x)]);
    ThisIsSharing(s.leases, i, j, k, x, y, v, one, two, other);
  }

  /** Wants the directory, to share. */
  function WantsToShare(y: AgentId, dir: string): Waiter { Waiter(0, y, dir, Shared, 0, 0) }

  lemma SharerWaits(t: Table, y: AgentId, dir: string)
    requires CalmlyReached(State(t, START.queue)) && Young(t)
    ensures CalmlyReached(State(t, Queue([WantsToShare(y, dir)], 1)))
  {
    var s, w := State(t, START.queue), WantsToShare(y, dir);
    StoppersAreIdle(t, [], y, dir);
    ThenWaits(s, w);
    assert WithWaiter(s, w).queue.waiters == [w];
  }

  lemma FollowsOne(w: Waiter)
    ensures (w.agent, w.resource) in Followed(LastWaits(WaitList([w])))
  {
    var waits := WaitList([w]);
    LastStands(waits);
    assert waits == [(w.agent, w.resource)] && waits[0] in waits;
    assert (w.agent, LastWaits(waits)[w.agent]) in waits;
  }

  lemma HolderStops(t: Table, k: LeaseId, agent: AgentId, key: string)
    requires k in t && t[k].holder != agent && Overlaps(t[k].resource, key)
    ensures Stops(Holdings(t), t[k].holder, agent, key)
  {
    assert (t[k].resource, t[k].holder) in Held(t);
  }

  lemma TwoStopEachOther(holders: Ground, waits: set<Wait>, x: AgentId, y: AgentId, q: string, r: string)
    requires Stops(holders, y, x, r) && Stops(holders, x, y, q) && (y, q) in waits
    ensures Ring([Blocked(x, r, y), Blocked(y, q, x)], x, r, holders, waits)
  {
  }

  lemma SearchFindsRing(t: Table, x: AgentId, y: AgentId, v: AgentId, dir: string, one: string, two: string, other: string)
    requires x != y && Sharing(t, x, y, v, one, two, other) && Overlaps(one, dir)
    ensures !SearchIsClear(t, [WantsToShare(y, dir)], x, other)
  {
    FollowsOne(WantsToShare(y, dir));
    var k :| k in t && t[k].holder == y && t[k].resource == other;
    HolderStops(t, k, x, other);
    var i :| i in t && t[i].holder == x && t[i].resource == one;
    HolderStops(t, i, y, dir);
    TwoStopEachOther(Holdings(t), Followed(LastWaits(WaitList([WantsToShare(y, dir)]))), x, y, dir, other);
  }

  lemma SharersAreNotBarred(t: Table, x: AgentId, y: AgentId, v: AgentId, dir: string, one: string, two: string, other: string, wx: Waiter)
    requires x != y && Sharing(t, x, y, v, one, two, other) && wx.agent == x
    ensures NoLoop({WantsToShare(y, dir), wx}, BarsEdge(t))
  {
    var wy := WantsToShare(y, dir);
    assert !Bars(t, wy, wx) && !Bars(t, wy, wy) && !Bars(t, wx, wx);
    DeadEndIsNoLoop({wy, wx}, BarsEdge(t), wy);
  }

  /** `y`, which holds `other`, waits to share a directory, for `v` alone: the lease of `x` in it is
      shared. A claim of `x` for `other` finds a ring and is refused, or ends the wait of `y`,
      though no deadlock would come of it. */
  lemma SharedRingIsNoDeadlock(i: LeaseId, j: LeaseId, k: LeaseId, x: AgentId, y: AgentId, v: AgentId,
                               dir: string, one: string, two: string, other: string) returns (s: State)
    requires i != j && i != k && j != k && x != y && x != v && y != v && Laid(dir, one, two, other)
    ensures var wy, wx := WantsToShare(y, dir), Waiting(1, x, other, 0);
            && Reachable(s) && Inv(s) && s.queue.waiters == [wy] && !SearchIsClear(s.leases, s.queue.waiters, x, other)
            && forall stuck: set<Waiter> :: stuck <= {wy, wx} ==> !InDeadlock(s.leases, stuck)
  {
    var s0 := SharingIsReached(i, j, k, x, y, v, one, two, other);
    var t := s0.leases;
    assert s0 == State(t, START.queue);
    SharerWaits(t, y, dir);
    s := State(t, Queue([WantsToShare(y, dir)], 1));
    CalmlyReachedIsSafe(s);
    SearchFindsRing(t, x, y, v, dir, one, two, other);
    SharersAreNotBarred(t, x, y, v, dir, one, two, other, Waiting(1, x, other, 0));
    DeadlockIsALoop(t, {WantsToShare(y, dir), Waiting(1, x, other, 0)});
  }
}
