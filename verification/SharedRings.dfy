/** Rings and modes (crates/core/src/wait.rs): the search takes every overlapping lease to stop
    a wait, whether or not both are shared. What a deadlock is, when a ring is one, and that the
    search misses none. */
module SharedRings {
  import opened ResourceKeys
  import opened Leases
  import opened WaitQueues
  import opened Rings
  import opened Arbiter
  import opened Fairness
  import opened HeldUp

  /** A lease of `o`'s agent keeps `w` from being granted, in the mode it waits for. */
  ghost predicate Bars(t: Table, w: Waiter, o: Waiter) {
    exists k <- t :: t[k].holder == o.agent && Blocking(t, k, w)
  }

  ghost function BarsEdge(t: Table): Edge {
    (w: Waiter, o: Waiter) => Bars(t, w, o)
  }

  /** What the search goes by. */
  ghost function StopsEdge(t: Table): Edge {
    (w: Waiter, o: Waiter) => Stops(Holdings(t), o.agent, w.agent, w.resource)
  }

  lemma WhoBarsStops(t: Table, w: Waiter, o: Waiter)
    requires Bars(t, w, o)
    ensures Stops(Holdings(t), o.agent, w.agent, w.resource)
  {
    var k :| k in t && t[k].holder == o.agent && Blocking(t, k, w);
    assert (t[k].resource, t[k].holder) in Held(t);
  }

  /** Without shared leases, or for an exclusive wait, the two are one. */
  lemma WhoStopsBars(t: Table, w: Waiter, o: Waiter)
    requires Stops(Holdings(t), o.agent, w.agent, w.resource) && (w.mode == Exclusive || forall k <- t :: t[k].mode == Exclusive)
    ensures Bars(t, w, o)
  {
    var h :| h in Held(t) && h.1 == o.agent && Overlaps(h.0, w.resource);
    var k :| k in t && (t[k].resource, t[k].holder) == h;
    assert Blocking(t, k, w);
  }

  // ----- What a deadlock is -----

  ghost predicate HeldByOne(stuck: set<Waiter>, agent: AgentId) {
    exists w <- stuck :: w.agent == agent
  }

  /** Leases have been let go, but none of those waiters' agents. */
  ghost predicate StillHold(t: Table, t': Table, stuck: set<Waiter>) {
    && (forall k <- t' :: k in t && t'[k] == t[k])
    && (forall k <- t :: HeldByOne(stuck, t[k].holder) ==> k in t')
  }

  /** Whatever everybody else lets go, none of the waiters can be granted what it waits for. */
  ghost predicate InDeadlock(t: Table, stuck: set<Waiter>) {
    stuck != {} && forall t', w :: StillHold(t, t', stuck) && w in stuck ==> Barred(t', w)
  }

  /** Waiters are deadlocked exactly when each is barred, in its own mode, by one of them. */
  lemma InDeadlockExactlyWhen(t: Table, stuck: set<Waiter>)
    ensures InDeadlock(t, stuck) <==> stuck != {} && forall w <- stuck :: HeldWithin(BarsEdge(t), stuck, w)
  {
    if InDeadlock(t, stuck) {
      var t' := map k | k in t && HeldByOne(stuck, t[k].holder) :: t[k];
      assert StillHold(t, t', stuck);
      forall w <- stuck
        ensures HeldWithin(BarsEdge(t), stuck, w)
      {
        assert Barred(t', w);
        var k :| k in t' && Blocking(t', k, w);
        var o :| o in stuck && o.agent == t[k].holder;
        assert Blocking(t, k, w);
        assert BarsEdge(t)(w, o);
      }
    }
    if stuck != {} && forall w <- stuck :: HeldWithin(BarsEdge(t), stuck, w) {
      forall t', w | StillHold(t, t', stuck) && w in stuck
        ensures Barred(t', w)
      {
        StaysBarred(t, t', stuck, w);
      }
    }
  }

  lemma StaysBarred(t: Table, t': Table, stuck: set<Waiter>, w: Waiter)
    requires StillHold(t, t', stuck) && HeldWithin(BarsEdge(t), stuck, w)
    ensures Barred(t', w)
  {
    var o :| o in stuck && BarsEdge(t)(w, o);
    var k :| k in t && t[k].holder == o.agent && Blocking(t, k, w);
    assert HeldByOne(stuck, t[k].holder);
    assert k in t' && Blocking(t', k, w);
  }

  function Members(path: seq<Waiter>): set<Waiter> { set w | w in path }

  lemma LoopHoldsItself(path: seq<Waiter>, nodes: set<Waiter>, edge: Edge)
    requires Loop(path, nodes, edge)
    ensures Members(path) != {} && Members(path) <= nodes && forall w <- Members(path) :: HeldWithin(edge, Members(path), w)
  {
    assert path[0] in Members(path);
    forall w <- Members(path)
      ensures w in nodes && HeldWithin(edge, Members(path), w)
    {
      var i :| 0 <= i < |path| && path[i] == w;
      assert edge(path[i], path[After(i, |path|)]) && path[After(i, |path|)] in Members(path);
    }
  }

  /** Some of the waiters are deadlocked exactly when there is a loop in which each bars the one
      before it in its own mode. */
  lemma DeadlockIsALoop(t: Table, nodes: set<Waiter>)
    ensures (exists stuck: set<Waiter> :: stuck <= nodes && InDeadlock(t, stuck)) <==> !NoLoop(nodes, BarsEdge(t))
  {
    if stuck: set<Waiter> :| stuck <= nodes && InDeadlock(t, stuck) {
      InDeadlockExactlyWhen(t, stuck);
      if NoLoop(nodes, BarsEdge(t)) {
        var free := SomeoneIsFree(nodes, BarsEdge(t), stuck);
      }
    }
    if path :| Loop(path, nodes, BarsEdge(t)) {
      LoopHoldsItself(path, nodes, BarsEdge(t));
      InDeadlockExactlyWhen(t, Members(path));
    }
  }

  // ----- When a ring is a deadlock -----

  /** No member of the ring is stopped by another than the next. */
  ghost predicate Direct(t: Table, path: seq<Waiter>) {
    forall i, j :: 0 <= i < |path| && 0 <= j < |path| && StopsEdge(t)(path[i], path[j]) ==> path[j].agent == path[After(i, |path|)].agent
  }

  ghost predicate EachBars(t: Table, path: seq<Waiter>) {
    forall i :: 0 <= i < |path| ==> Bars(t, path[i], path[After(i, |path|)])
  }

  lemma EachBarsIsDeadlock(t: Table, path: seq<Waiter>)
    requires path != [] && EachBars(t, path)
    ensures InDeadlock(t, Members(path))
  {
    assert Loop(path, Members(path), BarsEdge(t));
    LoopHoldsItself(path, Members(path), BarsEdge(t));
    InDeadlockExactlyWhen(t, Members(path));
  }

  /** A ring in which each holder's lease excludes the wait before it is a deadlock; and a ring
      without short cuts is one exactly then. */
  lemma RingIsDeadlockExactlyWhen(t: Table, path: seq<Waiter>)
    requires Loop(path, Members(path), StopsEdge(t))
    ensures EachBars(t, path) ==> InDeadlock(t, Members(path))
    ensures Direct(t, path) ==> (InDeadlock(t, Members(path)) <==> EachBars(t, path))
  {
    if EachBars(t, path) {
      EachBarsIsDeadlock(t, path);
    }
    if Direct(t, path) && InDeadlock(t, Members(path)) {
      InDeadlockExactlyWhen(t, Members(path));
      DirectDeadlockBars(t, path);
    }
  }

  lemma DirectDeadlockBars(t: Table, path: seq<Waiter>)
    requires Direct(t, path) && forall w <- Members(path) :: HeldWithin(BarsEdge(t), Members(path), w)
    ensures EachBars(t, path)
  {
    forall i | 0 <= i < |path|
      ensures Bars(t, path[i], path[After(i, |path|)])
    {
      assert path[i] in Members(path);
      NextBars(t, path, i);
    }
  }

  lemma NextBars(t: Table, path: seq<Waiter>, i: nat)
    requires i < |path| && Direct(t, path) && HeldWithin(BarsEdge(t), Members(path), path[i])
    ensures Bars(t, path[i], path[After(i, |path|)])
  {
    var o :| o in Members(path) && BarsEdge(t)(path[i], o);
    var j :| 0 <= j < |path| && path[j] == o;
    WhoBarsStops(t, path[i], o);
    assert StopsEdge(t)(path[i], path[j]);
  }

  /** Where every wait, or every lease, is exclusive, each ring is a deadlock. */
  lemma ExclusiveRingIsDeadlock(t: Table, path: seq<Waiter>)
    requires Loop(path, Members(path), StopsEdge(t))
    requires (forall w <- path :: w.mode == Exclusive) || forall k <- t :: t[k].mode == Exclusive
    ensures InDeadlock(t, Members(path))
  {
    forall i | 0 <= i < |path|
      ensures Bars(t, path[i], path[After(i, |path|)])
    {
      assert StopsEdge(t)(path[i], path[After(i, |path|)]) && path[i] in path;
      WhoStopsBars(t, path[i], path[After(i, |path|)]);
    }
    RingIsDeadlockExactlyWhen(t, path);
  }

  // ----- The search misses none -----

  ghost function WaitsOf(stuck: set<Waiter>): set<Wait> {
    set w | w in stuck :: (w.agent, w.resource)
  }

  lemma NotHeldWithin(t: Table, stuck: set<Waiter>, w: Waiter)
    requires !StoppedWithin(Holdings(t), WaitsOf(stuck), (w.agent, w.resource))
    ensures !HeldWithin(BarsEdge(t), stuck, w)
  {
    forall o <- stuck
      ensures !Bars(t, w, o)
    {
      assert (o.agent, o.resource) in WaitsOf(stuck);
      if Bars(t, w, o) {
        WhoBarsStops(t, w, o);
      }
    }
  }

  lemma OneIsNotHeld(t: Table, waits: set<Wait>, stuck: set<Waiter>) returns (w: Waiter)
    requires Acyclic(Holdings(t), waits) && stuck != {} && WaitsOf(stuck) <= waits
    ensures w in stuck && !HeldWithin(BarsEdge(t), stuck, w)
  {
    var one :| one in stuck;
    assert (one.agent, one.resource) in WaitsOf(stuck);
    NoMutualWait(Holdings(t), waits, WaitsOf(stuck));
    var u :| u in WaitsOf(stuck) && !StoppedWithin(Holdings(t), WaitsOf(stuck), u);
    w :| w in stuck && (w.agent, w.resource) == u;
    NotHeldWithin(t, stuck, w);
  }

  /** The arbiter's promise leaves no deadlock among its waiters. */
  lemma PromiseLeavesNoDeadlock(s: State, stuck: set<Waiter>)
    requires Inv(s) && stuck <= Nodes(s)
    ensures !InDeadlock(s.leases, stuck)
  {
    if stuck != {} {
      InDeadlockExactlyWhen(s.leases, stuck);
      assert forall w <- stuck :: w in s.queue.waiters;
      var w := OneIsNotHeld(s.leases, Waits(s.queue.waiters), stuck);
    }
  }

  /** A way with one edge, to somebody from whom none goes on, is no loop. */
  lemma DeadEndIsNoLoop(nodes: set<Waiter>, edge: Edge, last: Waiter)
    requires forall w <- nodes, o <- nodes :: edge(w, o) ==> w != last && o == last
    ensures NoLoop(nodes, edge)
  {
    forall path: seq<Waiter>
      ensures !Loop(path, nodes, edge)
    {
      if path != [] {
        var n := After(0, |path|);
        assert After(n, |path|) < |path|;
        if path[0] in nodes && path[n] in nodes && path[After(n, |path|)] in nodes {
          assert !(edge(path[0], path[n]) && edge(path[n], path[After(n, |path|)]));
        }
      }
    }
  }
}
