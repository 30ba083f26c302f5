/** Runs of the daemon in which a promise one might expect does not hold
    (crates/agentd/src/daemon/leases.rs, waiting.rs, recovery.rs). */
module ArbiterCases {
  import opened Wrappers
  import opened ResourceKeys
  import opened Leases
  import opened WaitQueues
  import opened Rings
  import opened Deadlocks
  import opened Arbiter
  import opened Fairness
  import opened HeldUp

  function Ask(key: string, holder: AgentId): Request {
    Request(key, holder, Exclusive, 60, None, false)
  }

  function Given(id: LeaseId, key: string, holder: AgentId): Lease { Fresh(id, Ask(key, holder), 0) }

  function Waiting(ticket: Ticket, agent: AgentId, key: string, priority: int): Waiter {
    Waiter(ticket, agent, key, Exclusive, 0, priority)
  }

  /** Leases given at the start, for a minute. */
  ghost predicate Young(t: Table) {
    forall k <- t :: !t[k].IsExpired(0)
  }

  function GrantOf(key: string, holder: AgentId, id: LeaseId): Step {
    TriesFirst(Ask(key, holder), 0, id, New(Given(id, key, holder)))
  }

  /** With nothing in the way, a first attempt is given its lease. */
  lemma FirstIsGranted(s: State, key: string, holder: AgentId, id: LeaseId)
    requires Young(s.leases) && id !in s.leases
    requires forall k <- s.leases :: s.leases[k].holder != holder && !Overlaps(s.leases[k].resource, key)
    ensures Takes(s, s.(leases := s.leases[id := Given(id, key, holder)]), GrantOf(key, holder, id))
  {
    assert Live(s.leases, 0) == s.leases;
    assert Blockers(s.leases, Ask(key, holder)) == {};
  }

  /** Nobody who stops the agent waits, so waiting closes no ring. */
  lemma StoppersAreIdle(t: Table, ws: seq<Waiter>, agent: AgentId, key: string)
    requires forall k <- t, w <- ws :: t[k].holder != agent && Overlaps(t[k].resource, key) ==> w.agent != t[k].holder
    ensures SearchIsClear(t, ws, agent, key)
  {
    var waits := Followed(LastWaits(WaitList(ws)));
    FollowedAreWaits(WaitList(ws));
    WaitListIsWaits(ws);
    forall b, w | Stops(Holdings(t), b, agent, key) && w in waits
      ensures w.0 != b
    {
      StopperHolds(t, b, agent, key);
      assert w in Waits(ws);
    }
    NoRingThroughIdle(Holdings(t), waits, agent, key);
  }

  lemma StopperHolds(t: Table, holder: AgentId, agent: AgentId, key: string)
    requires Stops(Holdings(t), holder, agent, key)
    ensures exists k <- t :: t[k].holder == holder && Overlaps(t[k].resource, key)
  {
    var h :| h in Held(t) && h.1 == holder && Overlaps(h.0, key);
    var k :| k in t && (t[k].resource, t[k].holder) == h;
  }

  /** A claim that conflicts goes to the end of a queue of its own priority. */
  lemma WaitsAtTheEnd(s: State, w: Waiter)
    requires ValidQueue(s.queue) && Young(s.leases) && w.ticket == s.queue.next && SearchIsClear(s.leases, s.queue.waiters, w.agent, w.resource)
    requires forall x <- s.queue.waiters :: x.priority == w.priority
    ensures Takes(s, State(s.leases, Queue(s.queue.waiters + [w], s.queue.next + 1)), StartsWaiting(s.queue.waiters, w, 0))
  {
    assert Live(s.leases, 0) == s.leases;
    var ws := s.queue.waiters;
    assert forall i :: 0 <= i < |ws| ==> ws[i].AheadOf(w);
    assert PartitionPoint(ws, w) == |ws|;
    assert ws[..|ws|] + [w] + ws[|ws|..] == ws + [w];
  }

  // ----- Going on from a state, one thing at a time -----

  /** Nothing has expired, and everybody asks alike. */
  ghost predicate Plain(s: State, priority: int) {
    Young(s.leases) && forall w <- s.queue.waiters :: w.priority == priority
  }

  function WithLease(s: State, id: LeaseId, key: string, holder: AgentId): State {
    s.(leases := s.leases[id := Given(id, key, holder)])
  }

  function WithWaiter(s: State, w: Waiter): State {
    State(s.leases, Queue(s.queue.waiters + [w], s.queue.next + 1))
  }

  function WithoutLease(s: State, id: LeaseId): State { s.(leases := s.leases - {id}) }

  lemma ThenGranted(s: State, key: string, holder: AgentId, id: LeaseId)
    requires CalmlyReached(s) && Young(s.leases) && id !in s.leases && !IsWaiting(s.queue.waiters, holder)
    requires forall k <- s.leases :: s.leases[k].holder != holder && !Overlaps(s.leases[k].resource, key)
    ensures CalmlyReached(WithLease(s, id, key, holder))
  {
    FirstIsGranted(s, key, holder, id);
    CalmlyReachesNext(s, WithLease(s, id, key, holder), GrantOf(key, holder, id));
  }

  lemma ThenWaits(s: State, w: Waiter)
    requires CalmlyReached(s) && Plain(s, w.priority) && w.ticket == s.queue.next && !IsWaiting(s.queue.waiters, w.agent)
    requires SearchIsClear(s.leases, s.queue.waiters, w.agent, w.resource)
    ensures CalmlyReached(WithWaiter(s, w))
  {
    CalmlyReachedIsSafe(s);
    WaitsAtTheEnd(s, w);
    CalmlyReachesNext(s, WithWaiter(s, w), StartsWaiting(s.queue.waiters, w, 0));
  }

  lemma ThenReleased(s: State, id: LeaseId)
    requires CalmlyReached(s)
    ensures CalmlyReached(WithoutLease(s, id))
  {
    CalmlyReachedIsSafe(s);
    assert Takes(s, WithoutLease(s, id), LetsGo);
    CalmlyReachesNext(s, WithoutLease(s, id), LetsGo);
  }

  // ----- A newcomer takes what somebody waits for -----

  /** `y` holds `r`, then `x` waits for it, then `y` lets go. */
  function Queued(x: AgentId, y: AgentId, r: string): State {
    WithoutLease(WithWaiter(WithLease(START, "1", r, y), Waiting(0, x, r, 9)), "1")
  }

  lemma QueuedIsReached(x: AgentId, y: AgentId, r: string)
    requires x != y
    ensures CalmlyReached(Queued(x, y, r))
  {
    StartIsCalmlyReached();
    ThenGranted(START, r, y, "1");
    var s1 := WithLease(START, "1", r, y);
    StoppersAreIdle(s1.leases, s1.queue.waiters, x, r);
    ThenWaits(s1, Waiting(0, x, r, 9));
    ThenReleased(WithWaiter(s1, Waiting(0, x, r, 9)), "1");
  }

  /** `x` has waited for `r`, which is free at last; `z`, which has not, is given it first,
      whatever the priority of `x`. */
  lemma NewcomerOvertakes(x: AgentId, y: AgentId, z: AgentId, r: string)
    requires x != y && x != z
    ensures var s, step := Queued(x, y, r), GrantOf(r, z, "2");
            var s' := WithLease(s, "2", r, z);
            Reachable(s) && Takes(s, s', step) && Overtakes(s, s', step, Waiting(0, x, r, 9))
  {
    QueuedIsReached(x, y, r);
    var s, step := Queued(x, y, r), GrantOf(r, z, "2");
    CalmlyReachedIsSafe(s);
    FirstIsGranted(s, r, z, "2");
    assert Waiting(0, x, r, 9) in s.queue.waiters;
    OvertakenExactlyWhen(s, WithLease(s, "2", r, z), step, Waiting(0, x, r, 9));
  }

  // ----- A grant to an agent that waits elsewhere -----

  /** The keys are apart. */
  predicate Apart(a: string, b: string) { !Overlaps(a, b) && !Overlaps(b, a) }

  /** `y` holds `r` and `z` holds `q`; `x` waits for `r` and `y` for `q`. */
  function Crossing(x: AgentId, y: AgentId, z: AgentId, q: string, r: string): State {
    WithWaiter(WithWaiter(WithLease(WithLease(START, "1", r, y), "2", q, z), Waiting(0, x, r, 0)), Waiting(1, y, q, 0))
  }

  lemma CrossingIsReached(x: AgentId, y: AgentId, z: AgentId, q: string, r: string)
    requires x != y && y != z && x != z && Apart(q, r)
    ensures CalmlyReached(Crossing(x, y, z, q, r))
  {
    StartIsCalmlyReached();
    ThenGranted(START, r, y, "1");
    var s1 := WithLease(START, "1", r, y);
    ThenGranted(s1, q, z, "2");
    var s2 := WithLease(s1, "2", q, z);
    StoppersAreIdle(s2.leases, s2.queue.waiters, x, r);
    ThenWaits(s2, Waiting(0, x, r, 0));
    var s3 := WithWaiter(s2, Waiting(0, x, r, 0));
    StoppersAreIdle(s3.leases, s3.queue.waiters, y, q);
    ThenWaits(s3, Waiting(1, y, q, 0));
  }

  lemma RingOfTwo(s: State, x: AgentId, y: AgentId, q: string, r: string, i: LeaseId, j: LeaseId)
    requires x != y && (x, r) in Waits(s.queue.waiters) && (y, q) in Waits(s.queue.waiters)
    requires i in s.leases && s.leases[i].holder == y && s.leases[i].resource == r
    requires j in s.leases && s.leases[j].holder == x && s.leases[j].resource == q
    ensures !Inv(s)
  {
    var waits, holders := Waits(s.queue.waiters), Holdings(s.leases);
    assert Stops(holders, y, x, r) by { assert (r, y) in holders.held; }
    assert Stops(holders, x, y, q) by { assert (q, x) in holders.held; }
    assert Ring([Blocked(x, r, y), Blocked(y, q, x)], x, r, holders, waits);
  }

  /** `x` waits for `r`, which `y` holds, and `y` for `q`, which is free again. A second claim of
      `x` is given `q` at its first attempt, with no search: now they wait for each other. */
  lemma GrantToWaiterClosesRing(x: AgentId, y: AgentId, z: AgentId, q: string, r: string)
    requires x != y && y != z && x != z && Apart(q, r)
    ensures var s, step := WithoutLease(Crossing(x, y, z, q, r), "2"), GrantOf(q, x, "3");
            var s' := WithLease(s, "3", q, x);
            Reachable(s) && Inv(s) && Takes(s, s', step) && !Inv(s')
  {
    CrossingIsReached(x, y, z, q, r);
    ThenReleased(Crossing(x, y, z, q, r), "2");
    var s := WithoutLease(Crossing(x, y, z, q, r), "2");
    var s' := WithLease(s, "3", q, x);
    CalmlyReachedIsSafe(s);
    FirstIsGranted(s, q, x, "3");
    assert s'.queue.waiters[0] == Waiting(0, x, r, 0) && s'.queue.waiters[1] == Waiting(1, y, q, 0);
    RingOfTwo(s', x, y, q, r, "1", "3");
  }

  // ----- A handoff to an agent that waits -----

  function AfterHandoff(s: State, step: Step): State
    requires step.HandsOver?
  {
    s.(leases := Moved(s.leases, Offered(s.leases, step.from, step.ids, step.now), step.to, step.now))
  }

  lemma CrossingHas(x: AgentId, y: AgentId, z: AgentId, q: string, r: string)
    ensures var s := Crossing(x, y, z, q, r);
            && s.leases == map["1" := Given("1", r, y), "2" := Given("2", q, z)]
            && (x, r) in Waits(s.queue.waiters) && (y, q) in Waits(s.queue.waiters)
  {
    var ws := Crossing(x, y, z, q, r).queue.waiters;
    assert ws[0] == Waiting(0, x, r, 0) && ws[1] == Waiting(1, y, q, 0);
  }

  lemma HandsOverSecond(t: Table, x: AgentId, y: AgentId, z: AgentId, q: string, r: string)
    requires t == map["1" := Given("1", r, y), "2" := Given("2", q, z)] && y != z
    ensures var t' := Moved(t, Offered(t, z, {"2"}, 0), x, 0);
            "1" in t' && t'["1"] == t["1"] && "2" in t' && t'["2"].holder == x && t'["2"].resource == q
    ensures NothingStranded(t, z, {"2"}, 0)
  {
    assert Offered(t, z, {"2"}, 0) == {"2"};
  }

  /** `x` waits for what `y` holds, `y` for what `z` holds, and `z` hands that to `x`: nothing is
      stranded, and no search is made. */
  lemma HandoffClosesRing(x: AgentId, y: AgentId, z: AgentId, q: string, r: string)
    requires x != y && y != z && x != z && Apart(q, r)
    ensures var s, step := Crossing(x, y, z, q, r), HandsOver(z, x, {"2"}, 0);
            var s' := AfterHandoff(s, step);
            Reachable(s) && Inv(s) && Takes(s, s', step) && StrandsNothing(s, step) && !Inv(s')
  {
    CrossingIsReached(x, y, z, q, r);
    CrossingHas(x, y, z, q, r);
    var s, step := Crossing(x, y, z, q, r), HandsOver(z, x, {"2"}, 0);
    CalmlyReachedIsSafe(s);
    HandsOverSecond(s.leases, x, y, z, q, r);
    RingOfTwo(AfterHandoff(s, step), x, y, q, r, "1", "2");
  }

  // ----- Waits behind waits -----

  predicate Four(x: AgentId, y: AgentId, z: AgentId, v: AgentId) {
    x != y && x != z && x != v && y != z && y != v && z != v
  }

  /** Two files of one directory, and something apart from them all. */
  predicate Laid(dir: string, one: string, two: string, other: string) {
    && Overlaps(one, dir) && Overlaps(dir, two) && Apart(one, two) && Apart(one, other) && Apart(two, other)
  }

  /** `z` holds one file of a directory, `v` another, and `x` something else. */
  ghost predicate Taken(t: Table, i: LeaseId, j: LeaseId, k: LeaseId, x: AgentId, z: AgentId, v: AgentId, one: string, two: string, other: string) {
    i != j && i != k && j != k && t == map[i := Given(i, one, z), j := Given(j, two, v), k := Given(k, other, x)]
  }

  lemma TwoTaken(i: LeaseId, j: LeaseId, z: AgentId, v: AgentId, one: string, two: string) returns (s: State)
    requires i != j && z != v && Apart(one, two)
    ensures CalmlyReached(s) && s.queue == START.queue && s.leases == map[i := Given(i, one, z), j := Given(j, two, v)]
  {
    StartIsCalmlyReached();
    ThenGranted(START, one, z, i);
    var s1 := WithLease(START, i, one, z);
    ThenGranted(s1, two, v, j);
    s := WithLease(s1, j, two, v);
  }

  lemma TakenIsReached(i: LeaseId, j: LeaseId, k: LeaseId, x: AgentId, z: AgentId, v: AgentId, one: string, two: string, other: string) returns (s: State)
    requires i != j && i != k && j != k && x != z && x != v && z != v && Apart(one, two) && Apart(one, other) && Apart(two, other)
    ensures CalmlyReached(s) && s.queue == START.queue && Taken(s.leases, i, j, k, x, z, v, one, two, other)
  {
    var s2 := TwoTaken(i, j, z, v, one, two);
    ThenGranted(s2, other, x, k);
    s := WithLease(s2, k, other, x);
  }

  /** No holder waits. */
  lemma NoHolderWaits(t: Table, ws: seq<Waiter>, agent: AgentId, key: string)
    requires forall k <- t, w <- ws :: w.agent != t[k].holder
    ensures SearchIsClear(t, ws, agent, key)
  {
    StoppersAreIdle(t, ws, agent, key);
  }

  /** One more waits behind those there are, none of whom holds anything. */
  lemma ThenAlsoWaits(s: State, w: Waiter)
    requires CalmlyReached(s) && Plain(s, w.priority) && w.ticket == s.queue.next && !IsWaiting(s.queue.waiters, w.agent)
    requires forall k <- s.leases, o <- s.queue.waiters :: o.agent != s.leases[k].holder
    ensures CalmlyReached(WithWaiter(s, w))
  {
    NoHolderWaits(s.leases, s.queue.waiters, w.agent, w.resource);
    ThenWaits(s, w);
  }

  /** `y` waits for the directory, and `x` behind it for the file of `v`. */
  lemma WaitedIsReached(t: Table, x: AgentId, y: AgentId, dir: string, two: string)
    requires x != y && CalmlyReached(State(t, START.queue)) && Young(t) && forall k <- t :: t[k].holder != y
    ensures CalmlyReached(State(t, Queue([Waiting(0, y, dir, 0), Waiting(1, x, two, 0)], 2)))
  {
    var s, wy, wx := State(t, START.queue), Waiting(0, y, dir, 0), Waiting(1, x, two, 0);
    ThenAlsoWaits(s, wy);
    var s1 := State(t, Queue([wy], 1));
    assert WithWaiter(s, wy) == s1;
    ThenAlsoWaits(s1, wx);
    assert WithWaiter(s1, wx).queue.waiters == [wy, wx];
  }

  /** Nobody else has what the agent wants. */
  ghost predicate OnlyHolder(t: Table, agent: AgentId, key: string, only: AgentId) {
    forall k <- t :: t[k].holder != agent && Overlaps(t[k].resource, key) ==> t[k].holder == only
  }

  lemma StoppersOf(t: Table, agent: AgentId, key: string, only: AgentId)
    requires OnlyHolder(t, agent, key, only)
    ensures forall b :: Stops(Holdings(t), b, agent, key) ==> b == only
  {
    forall b | Stops(Holdings(t), b, agent, key)
      ensures b == only
    {
      StopperHolds(t, b, agent, key);
    }
  }

  lemma TakenStoppers(t: Table, i: LeaseId, j: LeaseId, k: LeaseId, x: AgentId, z: AgentId, v: AgentId, one: string, two: string, other: string)
    requires Taken(t, i, j, k, x, z, v, one, two, other) && !Overlaps(two, other) && !Overlaps(one, two)
    ensures forall b :: Stops(Holdings(t), b, z, other) ==> b == x
    ensures forall b :: Stops(Holdings(t), b, x, two) ==> b == v
  {
    StoppersOf(t, z, other, x);
    StoppersOf(t, x, two, v);
  }

  lemma LastSearchIsClear(t: Table, x: AgentId, y: AgentId, z: AgentId, v: AgentId, dir: string, two: string, other: string)
    requires Four(x, y, z, v)
    requires forall b :: Stops(Holdings(t), b, z, other) ==> b == x
    requires forall b :: Stops(Holdings(t), b, x, two) ==> b == v
    ensures SearchIsClear(t, [Waiting(0, y, dir, 0), Waiting(1, x, two, 0)], z, other)
  {
    var ws := [Waiting(0, y, dir, 0), Waiting(1, x, two, 0)];
    var waits := Followed(LastWaits(WaitList(ws)));
    FollowedAreWaits(WaitList(ws));
    WaitListIsWaits(ws);
    assert forall w <- waits :: w == (y, dir) || w == (x, two);
    NoRingThroughNearlyIdle(Holdings(t), waits, z, other);
  }

  /** Then `z` waits for what `x` holds, and `v` lets go. */
  lemma StandstillIsReached(t: Table, j: LeaseId, x: AgentId, y: AgentId, z: AgentId, dir: string, two: string, other: string)
    requires x != y && x != z && y != z && Young(t)
    requires CalmlyReached(State(t, Queue([Waiting(0, y, dir, 0), Waiting(1, x, two, 0)], 2)))
    requires SearchIsClear(t, [Waiting(0, y, dir, 0), Waiting(1, x, two, 0)], z, other)
    ensures CalmlyReached(State(t - {j}, Queue([Waiting(0, y, dir, 0), Waiting(1, x, two, 0), Waiting(2, z, other, 0)], 3)))
  {
    var s := State(t, Queue([Waiting(0, y, dir, 0), Waiting(1, x, two, 0)], 2));
    ThenWaits(s, Waiting(2, z, other, 0));
    var s1 := WithWaiter(s, Waiting(2, z, other, 0));
    assert s1.queue == Queue([Waiting(0, y, dir, 0), Waiting(1, x, two, 0), Waiting(2, z, other, 0)], 3);
    ThenReleased(s1, j);
  }

  lemma HeldUpByLease(t: Table, w: Waiter, o: Waiter, k: LeaseId)
    requires k in t && t[k].holder == o.agent != w.agent && Overlaps(t[k].resource, w.resource)
    ensures HoldsUp(t, w, o)
  {
    assert (t[k].resource, t[k].holder) in Held(t);
    assert Stops(Holdings(t), o.agent, w.agent, w.resource);
  }

  lemma LoopOfThree(s: State, a: Waiter, b: Waiter, c: Waiter)
    requires {a, b, c} <= Nodes(s) && HoldsUp(s.leases, a, b) && HoldsUp(s.leases, b, c) && HoldsUp(s.leases, c, a)
    ensures Loop([a, b, c], Nodes(s), EdgeOf(s.leases)) && !Flows(s)
  {
    var path := [a, b, c];
    assert Loop(path, Nodes(s), EdgeOf(s.leases));
  }

  lemma StandstillLoops(s: State, i: LeaseId, k: LeaseId, wy: Waiter, wx: Waiter, wz: Waiter)
    requires s.queue.waiters == [wy, wx, wz] && i in s.leases && k in s.leases
    requires s.leases[i].holder == wz.agent != wy.agent && Overlaps(s.leases[i].resource, wy.resource)
    requires s.leases[k].holder == wx.agent != wz.agent && Overlaps(s.leases[k].resource, wz.resource)
    requires wy.AheadOf(wx) && wy.InTheWayOf(wx)
    ensures Loop([wy, wz, wx], Nodes(s), EdgeOf(s.leases)) && !Flows(s) && wy.ticket in InFront(s.queue.waiters, wx)
  {
    var ws := s.queue.waiters;
    assert ws[0] == wy && ws[1] == wx && ws[2] == wz;
    assert wy in ws && wx in ws && wz in ws;
    HeldUpByLease(s.leases, wy, wz, i);
    HeldUpByLease(s.leases, wz, wx, k);
    LoopOfThree(s, wy, wz, wx);
  }

  lemma LeftStanding(t: Table, i: LeaseId, j: LeaseId, k: LeaseId, x: AgentId, z: AgentId, v: AgentId, one: string, two: string, other: string)
    requires Taken(t, i, j, k, x, z, v, one, two, other) && !Overlaps(one, two)
    ensures Young(t) && forall l <- t :: t[l].holder in {x, z, v}
    ensures var t' := t - {j}; i in t' && t'[i] == Given(i, one, z) && k in t' && t'[k] == Given(k, other, x)
                               && forall l <- t' :: !t'[l].Blocks(x, Exclusive, two)
  {
  }

  /** What is left once `v` has let go. */
  ghost predicate AtAStandstill(s: State, i: LeaseId, k: LeaseId, x: AgentId, y: AgentId, z: AgentId, dir: string, one: string, two: string, other: string) {
    && s.queue.waiters == [Waiting(0, y, dir, 0), Waiting(1, x, two, 0), Waiting(2, z, other, 0)]
    && i in s.leases && s.leases[i] == Given(i, one, z) && k in s.leases && s.leases[k] == Given(k, other, x)
    && forall l <- s.leases :: !s.leases[l].Blocks(x, Exclusive, two)
  }

  lemma ComesToAStandstill(i: LeaseId, j: LeaseId, k: LeaseId, x: AgentId, y: AgentId, z: AgentId, v: AgentId,
                           dir: string, one: string, two: string, other: string) returns (s: State)
    requires i != j && i != k && j != k && Four(x, y, z, v) && Apart(one, two) && Apart(one, other) && Apart(two, other)
    ensures CalmlyReached(s) && AtAStandstill(s, i, k, x, y, z, dir, one, two, other)
  {
    var s0 := TakenIsReached(i, j, k, x, z, v, one, two, other);
    var t := s0.leases;
    assert s0 == State(t, START.queue);
    WaitedIsReached(t, x, y, dir, two);
    TakenStoppers(t, i, j, k, x, z, v, one, two, other);
    LastSearchIsClear(t, x, y, z, v, dir, two, other);
    StandstillIsReached(t, j, x, y, z, dir, two, other);
    LeftStanding(t, i, j, k, x, z, v, one, two, other);
    s := State(t - {j}, Queue([Waiting(0, y, dir, 0), Waiting(1, x, two, 0), Waiting(2, z, other, 0)], 3));
  }

  /** Every check has been made, every wait is single, and the daemon's promise holds; yet once
      `v` has let go, `y` waits for a lease of `z`, `z` for one of `x`, and `x`, whose file
      nobody holds, for its turn behind `y`. */
  lemma QueueOrderCanHoldUp(i: LeaseId, j: LeaseId, k: LeaseId, x: AgentId, y: AgentId, z: AgentId, v: AgentId,
                            dir: string, one: string, two: string, other: string) returns (s: State)
    requires i != j && i != k && j != k && Four(x, y, z, v) && Laid(dir, one, two, other)
    ensures var wy, wx, wz := Waiting(0, y, dir, 0), Waiting(1, x, two, 0), Waiting(2, z, other, 0);
            && Reachable(s) && Inv(s) && s.queue.waiters == [wy, wx, wz]
            && (forall l <- s.leases :: !Blocking(s.leases, l, wx)) && wy.ticket in InFront(s.queue.waiters, wx)
            && Loop([wy, wz, wx], Nodes(s), EdgeOf(s.leases)) && !Flows(s)
  {
    s := ComesToAStandstill(i, j, k, x, y, z, v, dir, one, two, other);
    CalmlyReachedIsSafe(s);
    StandstillLoops(s, i, k, Waiting(0, y, dir, 0), Waiting(1, x, two, 0), Waiting(2, z, other, 0));
  }

  function PathKey(path: string): string { "path:" + path }

  lemma KindOfKey(kind: string, value: string)
    requires ':' !in kind
    ensures Kind(kind + ":" + value) == kind && Value(kind + ":" + value) == value
  {
    var key := kind + ":" + value;
    FindFrom(key, ':', |kind|);
    assert key[..|kind|] == kind && key[|kind| + 1..] == value;
  }

  lemma PathKeyParts(path: string)
    ensures Kind(PathKey(path)) == "path" && Value(PathKey(path)) == path
  {
    KindOfKey("path", path);
    assert "path" + ":" + path == PathKey(path);
  }

  lemma NoSlashToTrim(path: string)
    requires path != "" && path[|path| - 1] != '/'
    ensures TrimSlashes(path) == path
  {
  }

  lemma FileOverlapsDirectory(dir: string, name: string)
    requires dir != "" && dir[|dir| - 1] != '/'
    ensures Overlaps(PathKey(dir), PathKey(dir + "/" + name)) && Overlaps(PathKey(dir + "/" + name), PathKey(dir))
  {
    PathKeyParts(dir);
    PathKeyParts(dir + "/" + name);
    NoSlashToTrim(dir);
    assert (dir + "/" + name)[|dir|] == '/' && dir <= dir + "/" + name;
  }

  lemma SiblingsAreApart(a: string, b: string)
    requires |a| == |b| && a != b && a != "" && a[|a| - 1] != '/' && b[|b| - 1] != '/'
    ensures Apart(PathKey(a), PathKey(b))
  {
    PathKeyParts(a);
    PathKeyParts(b);
    NoSlashToTrim(a);
    NoSlashToTrim(b);
    assert PathKey(a)[5..] == a && PathKey(b)[5..] == b;
  }

  lemma KindsAreApart(a: string, b: string)
    requires Kind(a) != Kind(b)
    ensures Apart(a, b)
  {
  }

  function In(dir: string, name: string): string { dir + "/" + name }

  lemma NamesDiffer(dir: string, one: string, two: string)
    requires one != two && |one| == |two| > 0 && one[|one| - 1] != '/' && two[|two| - 1] != '/'
    ensures |In(dir, one)| == |In(dir, two)| && In(dir, one) != In(dir, two) && In(dir, one) != ""
    ensures In(dir, one)[|In(dir, one)| - 1] != '/' && In(dir, two)[|In(dir, two)| - 1] != '/'
  {
    assert In(dir, one)[|dir| + 1..] == one && In(dir, two)[|dir| + 1..] == two;
  }

  function TaskKey(task: string): string { "task:" + task }

  lemma TaskIsApart(path: string, task: string)
    ensures Apart(PathKey(path), TaskKey(task))
  {
    PathKeyParts(path);
    KindOfKey("task", task);
    assert "task" + ":" + task == TaskKey(task);
    assert "path"[0] != "task"[0];
    KindsAreApart(PathKey(path), TaskKey(task));
  }

  /** Such keys there are: a directory, two files in it, and a task. */
  lemma SuchKeysThereAre(dir: string, one: string, two: string, task: string)
    requires dir != "" && dir[|dir| - 1] != '/' && one != two && |one| == |two| > 0 && one[|one| - 1] != '/' && two[|two| - 1] != '/'
    ensures Laid(PathKey(dir), PathKey(In(dir, one)), PathKey(In(dir, two)), TaskKey(task))
  {
    FileOverlapsDirectory(dir, one);
    FileOverlapsDirectory(dir, two);
    NamesDiffer(dir, one, two);
    SiblingsAreApart(In(dir, one), In(dir, two));
    TaskIsApart(In(dir, one), task);
    TaskIsApart(In(dir, two), task);
  }

  // ----- A second wait of an agent that waits -----

  lemma FirstWaitIsReached(t: Table, y: AgentId, q: string)
    requires CalmlyReached(State(t, START.queue)) && Young(t)
    ensures CalmlyReached(State(t, Queue([Waiting(0, y, q, 0)], 1)))
  {
    var s := State(t, START.queue);
    StoppersAreIdle(t, [], y, q);
    ThenWaits(s, Waiting(0, y, q, 0));
    assert WithWaiter(s, Waiting(0, y, q, 0)).queue.waiters == [Waiting(0, y, q, 0)];
  }

  lemma NobodyIdleStops(t: Table, ws: seq<Waiter>, agent: AgentId, key: string)
    requires forall k <- t, w <- ws :: t[k].holder != agent && Overlaps(t[k].resource, key) ==> w.agent != t[k].holder
    ensures forall cycle :: !Ring(cycle, agent, key, Holdings(t), Waits(ws))
  {
    forall b, w | Stops(Holdings(t), b, agent, key) && w in Waits(ws)
      ensures w.0 != b
    {
      StopperHolds(t, b, agent, key);
    }
    NoRingThroughIdle(Holdings(t), Waits(ws), agent, key);
  }

  /** A second wait, for what only idle agents hold, is reached and keeps the promise. */
  lemma ThenWaitsToo(s: State, w: Waiter)
    requires CalmlyReached(s) && Plain(s, w.priority) && w.ticket == s.queue.next
    requires forall k <- s.leases, o <- s.queue.waiters ::
               s.leases[k].holder != w.agent && Overlaps(s.leases[k].resource, w.resource) ==> o.agent != s.leases[k].holder
    ensures Reachable(WithWaiter(s, w)) && Inv(WithWaiter(s, w))
  {
    CalmlyReachedIsSafe(s);
    StoppersAreIdle(s.leases, s.queue.waiters, w.agent, w.resource);
    NobodyIdleStops(s.leases, s.queue.waiters, w.agent, w.resource);
    WaitsAtTheEnd(s, w);
    var step := StartsWaiting(s.queue.waiters, w, 0);
    ReachesNext(s, WithWaiter(s, w), step);
    StepIsSafeExactlyWhen(s, WithWaiter(s, w), step);
  }

  /** `y` waits for `q`, then also for `f`, which an idle agent holds: no ring is closed. */
  lemma SecondWaitIsReached(t: Table, y: AgentId, z: AgentId, q: string, f: string)
    requires y != z && Young(t) && OnlyHolder(t, y, f, z) && CalmlyReached(State(t, Queue([Waiting(0, y, q, 0)], 1)))
    ensures var s := State(t, Queue([Waiting(0, y, q, 0), Waiting(1, y, f, 0)], 2)); Reachable(s) && Inv(s)
  {
    var s, w := State(t, Queue([Waiting(0, y, q, 0)], 1)), Waiting(1, y, f, 0);
    ThenWaitsToo(s, w);
    assert WithWaiter(s, w).queue.waiters == [Waiting(0, y, q, 0), w];
  }

  lemma LastOfTwo(y: AgentId, q: string, f: string)
    ensures var ws := [Waiting(0, y, q, 0), Waiting(1, y, f, 0)];
            forall w <- Followed(LastWaits(WaitList(ws))) :: w == (y, f)
  {
    var waits := WaitList([Waiting(0, y, q, 0), Waiting(1, y, f, 0)]);
    assert waits == [(y, q), (y, f)];
    assert waits[..1] == [(y, q)];
    assert LastWaits(waits[..1]) == map[y := q];
  }

  /** The search for `x` follows only the second wait of `y`, and finds `z` idle. */
  lemma SecondWaitHides(t: Table, x: AgentId, y: AgentId, z: AgentId, q: string, f: string, r: string)
    requires y != z && x != z && OnlyHolder(t, x, r, y) && OnlyHolder(t, y, f, z)
    ensures SearchIsClear(t, [Waiting(0, y, q, 0), Waiting(1, y, f, 0)], x, r)
  {
    var ws := [Waiting(0, y, q, 0), Waiting(1, y, f, 0)];
    LastOfTwo(y, q, f);
    StoppersOf(t, x, r, y);
    StoppersOf(t, y, f, z);
    NoRingThroughNearlyIdle(Holdings(t), Followed(LastWaits(WaitList(ws))), x, r);
  }

  /** `x` holds `q`, `z` holds `f`, and `y` holds `r`. */
  lemma TakenHas(t: Table, i: LeaseId, j: LeaseId, k: LeaseId, x: AgentId, y: AgentId, z: AgentId, q: string, f: string, r: string)
    requires Taken(t, i, j, k, y, x, z, q, f, r) && Apart(q, f) && Apart(q, r) && Apart(f, r)
    ensures Young(t) && OnlyHolder(t, x, r, y) && OnlyHolder(t, y, f, z)
    ensures i in t && t[i] == Given(i, q, x) && k in t && t[k] == Given(k, r, y)
  {
  }

  /** The search of `x` for `r`, which `y` holds, is clear, though `y` waits for what `x` holds. */
  ghost predicate Hides(s: State, x: AgentId, y: AgentId, q: string, r: string, i: LeaseId, j: LeaseId) {
    && Plain(s, 0) && x != y && (y, q) in Waits(s.queue.waiters) && SearchIsClear(s.leases, s.queue.waiters, x, r)
    && i in s.leases && s.leases[i].holder == y && s.leases[i].resource == r
    && j in s.leases && s.leases[j].holder == x && s.leases[j].resource == q
  }

  lemma ClearSearchClosesRing(s: State, x: AgentId, y: AgentId, q: string, r: string, i: LeaseId, j: LeaseId)
    requires Inv(s) && Hides(s, x, y, q, r, i, j)
    ensures var w := Waiting(s.queue.next, x, r, 0);
            Takes(s, WithWaiter(s, w), StartsWaiting(s.queue.waiters, w, 0)) && !Inv(WithWaiter(s, w))
  {
    var w := Waiting(s.queue.next, x, r, 0);
    WaitsAtTheEnd(s, w);
    var ws := s.queue.waiters;
    assert (ws + [w])[|ws|] == w && forall o <- ws :: o in ws + [w];
    RingOfTwo(WithWaiter(s, w), x, y, q, r, i, j);
  }

  lemma WaitsTwice(t: Table, x: AgentId, y: AgentId, z: AgentId, q: string, f: string, r: string)
    requires x != y && y != z && x != z && CalmlyReached(State(t, START.queue))
    requires Young(t) && OnlyHolder(t, x, r, y) && OnlyHolder(t, y, f, z)
    ensures var s := State(t, Queue([Waiting(0, y, q, 0), Waiting(1, y, f, 0)], 2));
            Reachable(s) && Inv(s) && SearchIsClear(s.leases, s.queue.waiters, x, r)
  {
    FirstWaitIsReached(t, y, q);
    SecondWaitIsReached(t, y, z, q, f);
    SecondWaitHides(t, x, y, z, q, f, r);
  }

  lemma HidingIsReached(i: LeaseId, j: LeaseId, k: LeaseId, x: AgentId, y: AgentId, z: AgentId, q: string, f: string, r: string) returns (s: State)
    requires i != j && i != k && j != k && x != y && y != z && x != z && Apart(q, f) && Apart(q, r) && Apart(f, r)
    ensures Reachable(s) && Inv(s) && Hides(s, x, y, q, r, k, i)
  {
    var s0 := TakenIsReached(i, j, k, y, x, z, q, f, r);
    var t := s0.leases;
    assert s0 == State(t, START.queue);
    TakenHas(t, i, j, k, x, y, z, q, f, r);
    WaitsTwice(t, x, y, z, q, f, r);
    s := State(t, Queue([Waiting(0, y, q, 0), Waiting(1, y, f, 0)], 2));
    assert s.queue.waiters[0] == Waiting(0, y, q, 0);
  }

  /** `y` waits for `q`, which `x` holds, and then also for `f`. When `x` comes to wait for `r`,
      which `y` holds, its search is clear, and the two wait for each other. */
  lemma SecondWaitHidesRing(i: LeaseId, j: LeaseId, k: LeaseId, x: AgentId, y: AgentId, z: AgentId, q: string, f: string, r: string)
    returns (s: State, s': State, step: Step)
    requires i != j && i != k && j != k && x != y && y != z && x != z && Apart(q, f) && Apart(q, r) && Apart(f, r)
    ensures Reachable(s) && Inv(s) && step.StartsWaiting? && Takes(s, s', step) && !Inv(s')
  {
    s := HidingIsReached(i, j, k, x, y, z, q, f, r);
    ClearSearchClosesRing(s, x, y, q, r, k, i);
    var w := Waiting(s.queue.next, x, r, 0);
    s', step := WithWaiter(s, w), StartsWaiting(s.queue.waiters, w, 0);
  }

  // ----- A lease left behind -----

  /** An agent may take more of what it has. */
  lemma ThenTakesMore(s: State, key: string, holder: AgentId, id: LeaseId)
    requires CalmlyReached(s) && Young(s.leases) && id !in s.leases && !IsWaiting(s.queue.waiters, holder)
    requires forall k <- s.leases :: s.leases[k].holder == holder && s.leases[k].resource != key
    ensures CalmlyReached(WithLease(s, id, key, holder))
  {
    assert Live(s.leases, 0) == s.leases;
    assert Blockers(s.leases, Ask(key, holder)) == {};
    CalmlyReachesNext(s, WithLease(s, id, key, holder), GrantOf(key, holder, id));
  }

  lemma TwoOfOne(i: LeaseId, j: LeaseId, from: AgentId, dir: string, file: string)
    requires i != j && dir != file
    ensures CalmlyReached(WithLease(WithLease(START, i, dir, from), j, file, from))
  {
    StartIsCalmlyReached();
    ThenGranted(START, dir, from, i);
    ThenTakesMore(WithLease(START, i, dir, from), file, from, j);
  }

  /** `from` takes two leases in each other's way, which it may, and hands over one of them. */
  lemma HandoffStrands(i: LeaseId, j: LeaseId, from: AgentId, to: AgentId, dir: string, file: string)
    requires i != j && from != to && Overlaps(dir, file) && dir != file
    ensures var s, step := WithLease(WithLease(START, i, dir, from), j, file, from), HandsOver(from, to, {i}, 0);
            var s' := AfterHandoff(s, step);
            Reachable(s) && Inv(s) && Takes(s, s', step) && !Exclusion(s'.leases)
  {
    TwoOfOne(i, j, from, dir, file);
    var s := WithLease(WithLease(START, i, dir, from), j, file, from);
    CalmlyReachedIsSafe(s);
    StrandedLeaseBreaksExclusion(s.leases, from, to, i, j, 0);
  }

  /** So it is for a directory and a file in it. */
  lemma HandoffStrandsLease(i: LeaseId, j: LeaseId, from: AgentId, to: AgentId, dir: string, name: string) returns (s: State, s': State, step: Step)
    requires i != j && from != to && dir != "" && dir[|dir| - 1] != '/'
    ensures Reachable(s) && Inv(s) && Takes(s, s', step) && step.HandsOver? && !Exclusion(s'.leases)
  {
    FileOverlapsDirectory(dir, name);
    var d, f := PathKey(dir), PathKey(dir + "/" + name);
    assert |d| != |f|;
    HandoffStrands(i, j, from, to, d, f);
    s, step := WithLease(WithLease(START, i, d, from), j, f, from), HandsOver(from, to, {i}, 0);
    s' := AfterHandoff(s, step);
  }
}
