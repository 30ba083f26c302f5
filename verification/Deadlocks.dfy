/** Finding a ring of waits before it closes, and choosing where to break it
    (crates/core/src/wait.rs). */
module Deadlocks {
  import opened Wrappers
  import opened ResourceKeys
  import opened Leases
  import opened WaitQueues
  import opened Rings

  /** The waits the search follows: collected into a map, an agent's last one stands. */
  function LastWaits(waits: seq<Wait>): map<AgentId, string> {
    if waits == [] then map[] else
    LastWaits(waits[..|waits| - 1])[waits[|waits| - 1].0 := waits[|waits| - 1].1]
  }

  ghost function Followed(waiting: map<AgentId, string>): set<Wait> {
    set a | a in waiting :: (a, waiting[a])
  }

  ghost function GroundOf(holders: seq<Holding>, meets: (string, string) -> bool): Ground {
    Ground(SetOf(holders), meets)
  }

  ghost function SetOf<T(!new)>(s: seq<T>): set<T> {
    set x | x in s
  }

  /** Everyone `agent`, wanting `want`, can be stopped by has been seen, and none is the requester. */
  ghost predicate Explored(holders: Ground, agent: AgentId, want: string, requester: AgentId, seen: set<AgentId>) {
    forall b :: Stops(holders, b, agent, want) ==> b in seen && b != requester
  }

  /** Where the search stands: at `from`, at the end of a chain of distinct, seen agents. */
  ghost predicate Reached(path: seq<Blocked>, from: AgentId, want: string, requester: AgentId, resource: string,
                          holders: Ground, waiting: map<AgentId, string>, seen: set<AgentId>) {
    && Chain(path, holders, Followed(waiting)) && DistinctAgents(path)
    && (forall i :: 0 <= i < |path| ==> path[i].agent in seen && path[i].agent != from)
    && requester in seen && from in seen
    && (if path == [] then from == requester && want == resource
        else path[0].agent == requester && path[0].resource == resource
             && path[|path| - 1].heldBy == from && from in waiting && want == waiting[from])
  }

  /** Every agent newly seen has been explored to the end. */
  ghost predicate Done(holders: Ground, waiting: map<AgentId, string>, requester: AgentId, seen: set<AgentId>, seen': set<AgentId>) {
    forall a <- waiting :: a in seen' && a !in seen ==> Explored(holders, a, waiting[a], requester, seen')
  }

  lemma ChainGrows(path: seq<Blocked>, last: Blocked, holders: Ground, waits: set<Wait>)
    requires Chain(path, holders, waits) && Stops(holders, last.heldBy, last.agent, last.resource)
    requires path != [] ==> last.agent == path[|path| - 1].heldBy && (last.agent, last.resource) in waits
    ensures Chain(path + [last], holders, waits)
  {
  }

  lemma AgentsGrow(path: seq<Blocked>, last: Blocked)
    requires DistinctAgents(path) && forall i :: 0 <= i < |path| ==> path[i].agent != last.agent
    ensures DistinctAgents(path + [last])
  {
  }

  lemma ClosesRing(path: seq<Blocked>, from: AgentId, want: string, requester: AgentId, resource: string,
                   holders: Ground, waiting: map<AgentId, string>, seen: set<AgentId>)
    requires Reached(path, from, want, requester, resource, holders, waiting, seen)
    requires Stops(holders, requester, from, want)
    ensures var longer := path + [Blocked(from, want, requester)];
            Ring(longer, requester, resource, holders, Followed(waiting)) && DistinctAgents(longer)
  {
    ChainGrows(path, Blocked(from, want, requester), holders, Followed(waiting));
    AgentsGrow(path, Blocked(from, want, requester));
  }

  lemma StepsDown(path: seq<Blocked>, from: AgentId, want: string, holder: AgentId, requester: AgentId, resource: string,
                  holders: Ground, waiting: map<AgentId, string>, seen: set<AgentId>)
    requires Reached(path, from, want, requester, resource, holders, waiting, seen)
    requires Stops(holders, holder, from, want) && holder !in seen && holder in waiting
    ensures Reached(path + [Blocked(from, want, holder)], holder, waiting[holder], requester, resource, holders, waiting, seen + {holder})
  {
    ChainGrows(path, Blocked(from, want, holder), holders, Followed(waiting));
    AgentsGrow(path, Blocked(from, want, holder));
  }

  lemma SeenGrows(path: seq<Blocked>, from: AgentId, want: string, requester: AgentId, resource: string,
                  holders: Ground, waiting: map<AgentId, string>, seen: set<AgentId>, seen': set<AgentId>)
    requires Reached(path, from, want, requester, resource, holders, waiting, seen) && seen <= seen'
    ensures Reached(path, from, want, requester, resource, holders, waiting, seen')
  {
  }

  lemma DoneThrough(holders: Ground, waiting: map<AgentId, string>, requester: AgentId,
                    seen: set<AgentId>, seen1: set<AgentId>, holder: AgentId, seen2: set<AgentId>)
    requires Done(holders, waiting, requester, seen, seen1) && seen1 + {holder} <= seen2
    requires Done(holders, waiting, requester, seen1 + {holder}, seen2)
    requires holder in waiting ==> Explored(holders, holder, waiting[holder], requester, seen2)
    ensures Done(holders, waiting, requester, seen, seen2)
  {
    forall a <- waiting | a in seen2 && a !in seen
      ensures Explored(holders, a, waiting[a], requester, seen2)
    {
      assert a in seen1 ==> Explored(holders, a, waiting[a], requester, seen1);
    }
  }

  lemma AllSeenIsExplored(holders: seq<Holding>, from: AgentId, want: string, requester: AgentId, seen: set<AgentId>, meets: (string, string) -> bool)
    requires forall j :: 0 <= j < |holders| && holders[j].1 != from && meets(holders[j].0, want) ==>
               holders[j].1 in seen && holders[j].1 != requester
    ensures Explored(GroundOf(holders, meets), from, want, requester, seen)
  {
  }

  /** One step of the depth-first search: from `from`, which wants `want`, to every agent
      holding something that overlaps it. */
  method Walk(from: AgentId, want: string, requester: AgentId, ghost resource: string, holders: seq<Holding>,
              waiting: map<AgentId, string>, path: seq<Blocked>, seen: set<AgentId>, meets: (string, string) -> bool)
    returns (found: bool, path': seq<Blocked>, seen': set<AgentId>)
    requires Reached(path, from, want, requester, resource, GroundOf(holders, meets), waiting, seen)
    ensures seen <= seen'
    ensures found ==> Ring(path', requester, resource, GroundOf(holders, meets), Followed(waiting)) && DistinctAgents(path')
    ensures !found ==> path' == path && Explored(GroundOf(holders, meets), from, want, requester, seen')
    ensures !found ==> Done(GroundOf(holders, meets), waiting, requester, seen, seen')
    decreases waiting.Keys - seen
  {
    ghost var all := GroundOf(holders, meets);
    path', seen' := path, seen;
    for k := 0 to |holders|
      invariant path' == path && seen <= seen'
      invariant Reached(path, from, want, requester, resource, all, waiting, seen')
      invariant forall j :: 0 <= j < k && holders[j].1 != from && meets(holders[j].0, want) ==>
                  holders[j].1 in seen' && holders[j].1 != requester
      invariant Done(all, waiting, requester, seen, seen')
    {
      var (held, holder) := holders[k];
      if !meets(held, want) {
        continue;
      }
      if holder == from {
        continue;
      }
      assert Stops(all, holder, from, want) by {
        assert (held, holder) in all.held;
      }
      var longer := path + [Blocked(from, want, holder)];
      if holder == requester {
        ClosesRing(path, from, want, requester, resource, all, waiting, seen');
        return true, longer, seen';
      }
      if holder !in seen' {
        ghost var seen1 := seen';
        if holder in waiting {
          StepsDown(path, from, want, holder, requester, resource, all, waiting, seen');
          seen' := seen' + {holder};
          var deeper, p, s := Walk(holder, waiting[holder], requester, resource, holders, waiting, longer, seen', meets);
          if deeper {
            return true, p, s;
          }
          seen' := s;
        } else {
          seen' := seen' + {holder};
        }
        DoneThrough(all, waiting, requester, seen, seen1, holder, seen');
        SeenGrows(path, from, want, requester, resource, all, waiting, seen1, seen');
      }
    }
    AllSeenIsExplored(holders, from, want, requester, seen', meets);
    found := false;
  }

  /** Nothing reachable from the requester leads back to it. */
  lemma {:induction false} ExploredHasNoRing(requester: AgentId, resource: string, holders: Ground,
                                             waiting: map<AgentId, string>, seen: set<AgentId>,
                                             cycle: seq<Blocked>, k: nat)
    requires Explored(holders, requester, resource, requester, seen)
    requires Done(holders, waiting, requester, {requester}, seen)
    requires Ring(cycle, requester, resource, holders, Followed(waiting)) && k < |cycle|
    ensures cycle[k].heldBy in seen && cycle[k].heldBy != requester
  {
    if k > 0 {
      ExploredHasNoRing(requester, resource, holders, waiting, seen, cycle, k - 1);
    }
  }

  /** The waits of one agent are all for one thing. */
  ghost predicate WaitsAgree(waits: seq<Wait>) {
    forall i, j :: 0 <= i < |waits| && 0 <= j < |waits| && waits[i].0 == waits[j].0 ==> waits[i].1 == waits[j].1
  }

  lemma {:induction false} LastStands(waits: seq<Wait>)
    ensures forall a <- LastWaits(waits) :: (a, LastWaits(waits)[a]) in waits
    ensures forall w <- waits :: w.0 in LastWaits(waits)
  {
    if waits != [] {
      var n := |waits| - 1;
      LastStands(waits[..n]);
      assert waits == waits[..n] + [waits[n]];
    }
  }

  /** The search follows every wait exactly when no agent waits for two things. */
  lemma AllFollowedExactlyWhen(waits: seq<Wait>)
    ensures Followed(LastWaits(waits)) == SetOf(waits) <==> WaitsAgree(waits)
  {
    LastStands(waits);
    var m := LastWaits(waits);
    if WaitsAgree(waits) {
      forall w | w in waits
        ensures w in Followed(m)
      {
        assert (w.0, m[w.0]) in waits;
        assert m[w.0] == w.1;
      }
    }
    if Followed(m) == SetOf(waits) {
      forall i, j | 0 <= i < |waits| && 0 <= j < |waits| && waits[i].0 == waits[j].0
        ensures waits[i].1 == waits[j].1
      {
        assert waits[i] in SetOf(waits) && waits[j] in SetOf(waits);
      }
    }
  }

  /** The waits followed are among those there are. */
  lemma FollowedAreWaits(waits: seq<Wait>)
    ensures Followed(LastWaits(waits)) <= SetOf(waits)
  {
    LastStands(waits);
  }

  /** So where no agent waits for two things, an answer of no ring is the truth of all waits. */
  lemma NoRingIsNoRing(requester: AgentId, resource: string, holders: Ground, waits: seq<Wait>)
    requires WaitsAgree(waits) && forall cycle :: !Ring(cycle, requester, resource, holders, Followed(LastWaits(waits)))
    ensures forall cycle :: !Ring(cycle, requester, resource, holders, SetOf(waits))
  {
    AllFollowedExactlyWhen(waits);
  }

  /** The search is exact: it answers a genuine ring of distinct agents, or there is none among
      the waits it follows; and none at all where no agent waits for two things. */
  method Deadlock(requester: AgentId, resource: string, holders: seq<Holding>, waits: seq<Wait>, meets: (string, string) -> bool)
    returns (r: Option<seq<Blocked>>)
    ensures r.Some? ==> Ring(r.value, requester, resource, GroundOf(holders, meets), Followed(LastWaits(waits))) && DistinctAgents(r.value)
    ensures r.None? ==> forall cycle :: !Ring(cycle, requester, resource, GroundOf(holders, meets), Followed(LastWaits(waits)))
    ensures r.Some? ==> Ring(r.value, requester, resource, GroundOf(holders, meets), SetOf(waits))
    ensures r.None? && WaitsAgree(waits) ==> forall cycle :: !Ring(cycle, requester, resource, GroundOf(holders, meets), SetOf(waits))
  {
    var waiting := LastWaits(waits);
    var found, path, seen := Walk(requester, resource, requester, resource, holders, waiting, [], {requester}, meets);
    ghost var ground := GroundOf(holders, meets);
    if found {
      FollowedAreWaits(waits);
      ChainMonotone(path, ground, Followed(waiting), ground, SetOf(waits));
      return Some(path);
    }
    forall cycle: seq<Blocked>
      ensures !Ring(cycle, requester, resource, ground, Followed(waiting))
    {
      if Ring(cycle, requester, resource, ground, Followed(waiting)) {
        ExploredHasNoRing(requester, resource, ground, waiting, seen, cycle, |cycle| - 1);
      }
    }
    if WaitsAgree(waits) {
      NoRingIsNoRing(requester, resource, ground, waits);
    }
    r := None;
  }

  // ----- Where a ring is broken -----

  datatype Victim = Victim(step: nat, ticket: Option<Ticket>)

  predicate Matches(w: Waiter, step: Blocked) {
    w.agent == step.agent && w.resource == step.resource
  }

  /** `w`, queued, is ended rather than `other`: a lower priority, the later among equals. */
  predicate EndedBefore(w: Waiter, other: Waiter) {
    w.priority < other.priority || (w.priority == other.priority && w.ticket >= other.ticket)
  }

  ghost predicate IsWorst(w: Waiter, step: nat, cycle: seq<Blocked>, priority: int, waiters: seq<Waiter>) {
    && step < |cycle| && w.agent == cycle[step].agent && w.resource == cycle[step].resource && w.priority < priority
    && forall i, o <- waiters :: 0 < i < |cycle| && o.agent == cycle[i].agent && o.resource == cycle[i].resource ==>
         w.priority < o.priority || (w.priority == o.priority && o.ticket <= w.ticket)
  }

  /** The newcomer is the victim unless some queued wait of the ring has a strictly lower
      priority; then the lowest is, and among equals the youngest. */
  method ChooseVictim(cycle: seq<Blocked>, priority: int, waiters: seq<Waiter>) returns (v: Victim)
    ensures v.ticket.None? ==> v.step == 0
    ensures v.ticket.None? ==>
              forall i, w <- waiters :: 0 < i < |cycle| && w.agent == cycle[i].agent && w.resource == cycle[i].resource ==> w.priority >= priority
    ensures v.ticket.Some? ==> 0 < v.step < |cycle|
    ensures v.ticket.Some? ==> exists w <- waiters :: w.ticket == v.ticket.value && IsWorst(w, v.step, cycle, priority, waiters)
  {
    var best: Option<Waiter> := None;
    var step := 0;
    for i := 0 to |cycle|
      invariant best.None? ==> forall k, o <- waiters :: 0 < k < i && Matches(o, cycle[k]) ==> o.priority >= priority
      invariant best.Some? ==> 0 < step < |cycle| && best.value in waiters && Matches(best.value, cycle[step]) && best.value.priority < priority
      invariant best.Some? ==> forall k, o <- waiters :: 0 < k < i && Matches(o, cycle[k]) ==> EndedBefore(best.value, o)
    {
      if i == 0 {
        continue; // the newcomer's own step
      }
      for j := 0 to |waiters|
        invariant best.None? ==> forall k, o <- waiters :: 0 < k < i && Matches(o, cycle[k]) ==> o.priority >= priority
        invariant best.None? ==> forall o <- waiters[..j] :: Matches(o, cycle[i]) ==> o.priority >= priority
        invariant best.Some? ==> 0 < step < |cycle| && best.value in waiters && Matches(best.value, cycle[step]) && best.value.priority < priority
        invariant best.Some? ==> forall k, o <- waiters :: 0 < k < i && Matches(o, cycle[k]) ==> EndedBefore(best.value, o)
        invariant best.Some? ==> forall o <- waiters[..j] :: Matches(o, cycle[i]) ==> EndedBefore(best.value, o)
      {
        var w := waiters[j];
        if Matches(w, cycle[i]) && w.priority < priority && (best.None? || EndedBefore(w, best.value)) {
          best, step := Some(w), i;
        }
        assert waiters[..j + 1] == waiters[..j] + [w];
      }
      assert waiters[..|waiters|] == waiters;
    }
    assert best.Some? ==> IsWorst(best.value, step, cycle, priority, waiters);
    v := if best.Some? then Victim(step, Some(best.value.ticket)) else Victim(0, None);
  }
}
