/** Rings of waits, over any notion of two resources being in each other's way: what closes
    one, what cannot, and what it means that there is none (crates/core/src/wait.rs). */
module Rings {
  import opened Leases
  import opened WaitQueues

  /** Who holds what, and who waits for what. */
  type Holding = (string, AgentId)
  type Wait = (AgentId, string)

  /** What is held, and when two resources are in each other's way. */
  datatype Ground = Ground(held: set<Holding>, meets: (string, string) -> bool)

  ghost predicate Holds(holders: Ground, agent: AgentId, want: string) {
    exists h <- holders.held :: h.1 == agent && holders.meets(h.0, want)
  }

  /** An agent is stopped by everyone else holding something that overlaps what it wants. */
  ghost predicate Stops(holders: Ground, holder: AgentId, agent: AgentId, want: string) {
    holder != agent && Holds(holders, holder, want)
  }

  /** Each step is stopped by the agent of the next, which is itself waiting. */
  ghost predicate Chain(path: seq<Blocked>, holders: Ground, waits: set<Wait>) {
    && (forall i :: 0 <= i < |path| ==> Stops(holders, path[i].heldBy, path[i].agent, path[i].resource))
    && (forall i :: 0 < i < |path| ==> path[i].agent == path[i - 1].heldBy && (path[i].agent, path[i].resource) in waits)
  }

  /** A ring closed by `requester` wanting `resource`. */
  ghost predicate Ring(cycle: seq<Blocked>, requester: AgentId, resource: string, holders: Ground, waits: set<Wait>) {
    && cycle != [] && Chain(cycle, holders, waits)
    && cycle[0].agent == requester && cycle[0].resource == resource
    && cycle[|cycle| - 1].heldBy == requester
  }

  ghost predicate DistinctAgents(path: seq<Blocked>) {
    forall i, j :: 0 <= i < j < |path| ==> path[i].agent != path[j].agent
  }

  /** No wait is in a ring of waits. */
  ghost predicate Acyclic(holders: Ground, waits: set<Wait>) {
    forall w, cycle :: w in waits ==> !Ring(cycle, w.0, w.1, holders, waits)
  }

  // ----- Rings under change -----

  lemma ChainMonotone(path: seq<Blocked>, holders: Ground, waits: set<Wait>, holders': Ground, waits': set<Wait>)
    requires Chain(path, holders, waits) && waits <= waits' && holders'.meets == holders.meets
    requires forall h <- holders.held, i :: 0 <= i < |path| && h.1 == path[i].heldBy ==> h in holders'.held
    ensures Chain(path, holders', waits')
  {
    forall i | 0 <= i < |path|
      ensures Stops(holders', path[i].heldBy, path[i].agent, path[i].resource)
    {
      assert Stops(holders, path[i].heldBy, path[i].agent, path[i].resource);
      var h :| h in holders.held && h.1 == path[i].heldBy && holders.meets(h.0, path[i].resource);
      assert h in holders'.held;
    }
  }

  /** Letting go of leases or waits never closes a ring. */
  lemma FewerEdgesStayAcyclic(holders: Ground, waits: set<Wait>, holders': Ground, waits': set<Wait>)
    requires Acyclic(holders, waits) && waits' <= waits
    requires holders'.held <= holders.held && holders'.meets == holders.meets
    ensures Acyclic(holders', waits')
  {
    forall w, cycle | w in waits' && Ring(cycle, w.0, w.1, holders', waits')
      ensures false
    {
      ChainMonotone(cycle, holders', waits', holders, waits);
      assert Ring(cycle, w.0, w.1, holders, waits);
    }
  }

  lemma RotatesTo(cycle: seq<Blocked>, w: Wait, i: nat, holders: Ground, waits: set<Wait>)
    requires Ring(cycle, w.0, w.1, holders, waits) && w in waits && i < |cycle|
    ensures Ring(cycle[i..] + cycle[..i], cycle[i].agent, cycle[i].resource, holders, waits)
  {
    var turned, n := cycle[i..] + cycle[..i], |cycle|;
    forall k | 0 <= k < n
      ensures Stops(holders, turned[k].heldBy, turned[k].agent, turned[k].resource)
      ensures k > 0 ==> turned[k].agent == turned[k - 1].heldBy && (turned[k].agent, turned[k].resource) in waits
    {
      var at := if k < n - i then i + k else k - (n - i);
      assert turned[k] == cycle[at];
      assert Stops(holders, cycle[at].heldBy, cycle[at].agent, cycle[at].resource);
      if k > 0 {
        assert turned[k - 1] == cycle[if at == 0 then n - 1 else at - 1];
      }
    }
    assert turned[n - 1] == cycle[if i == 0 then n - 1 else i - 1];
  }

  /** The part of a ring up to its first return to where it starts. */
  lemma FirstReturn(cycle: seq<Blocked>, agent: AgentId, resource: string, holders: Ground, waits: set<Wait>)
    returns (k: nat)
    requires Ring(cycle, agent, resource, holders, waits)
    ensures 0 < k <= |cycle| && Ring(cycle[..k], agent, resource, holders, waits)
    ensures forall i :: 0 < i < k ==> cycle[i].agent != agent
  {
    k := 1;
    while cycle[k - 1].heldBy != agent
      invariant 0 < k <= |cycle|
      invariant forall i :: 0 < i < k ==> cycle[i].agent != agent
      decreases |cycle| - k
    {
      k := k + 1;
    }
  }

  /** A ring that a new wait closes goes through the new wait, even where the agent has others. */
  lemma RingAfterJoin(holders: Ground, waits: set<Wait>, agent: AgentId, resource: string, w: Wait, cycle: seq<Blocked>)
    requires w in waits + {(agent, resource)} && Ring(cycle, w.0, w.1, holders, waits + {(agent, resource)})
    ensures (w in waits && Ring(cycle, w.0, w.1, holders, waits)) || exists through :: Ring(through, agent, resource, holders, waits)
  {
    var waits' := waits + {(agent, resource)};
    if i :| 0 <= i < |cycle| && cycle[i].agent == agent && cycle[i].resource == resource {
      RotatesTo(cycle, w, i, holders, waits');
      var turned := cycle[i..] + cycle[..i];
      var k := FirstReturn(turned, agent, resource, holders, waits');
      assert Ring(turned[..k], agent, resource, holders, waits);
    } else {
      assert cycle[0].agent == w.0 && cycle[0].resource == w.1;
    }
  }

  /** A wait closes a ring somewhere exactly when one goes through it: one check decides, and it
      need not look at the new wait itself. */
  lemma JoinIsSafeExactlyWhen(holders: Ground, waits: set<Wait>, agent: AgentId, resource: string)
    requires Acyclic(holders, waits)
    ensures Acyclic(holders, waits + {(agent, resource)}) <==> forall cycle :: !Ring(cycle, agent, resource, holders, waits)
  {
    var waits' := waits + {(agent, resource)};
    if Acyclic(holders, waits') {
      forall cycle: seq<Blocked>
        ensures !Ring(cycle, agent, resource, holders, waits)
      {
        assert (agent, resource) in waits' && !Ring(cycle, agent, resource, holders, waits');
      }
    }
    if forall cycle :: !Ring(cycle, agent, resource, holders, waits) {
      forall w, cycle: seq<Blocked> | w in waits'
        ensures !Ring(cycle, w.0, w.1, holders, waits')
      {
        if Ring(cycle, w.0, w.1, holders, waits') {
          RingAfterJoin(holders, waits, agent, resource, w, cycle);
        }
      }
    }
  }

  /** The second step of a ring: somebody who stops the agent, and what it waits for. */
  lemma SecondStep(cycle: seq<Blocked>, agent: AgentId, resource: string, holders: Ground, waits: set<Wait>) returns (b: AgentId, w: Wait, c: AgentId)
    requires Ring(cycle, agent, resource, holders, waits)
    ensures Stops(holders, b, agent, resource) && w in waits && w.0 == b && Stops(holders, c, w.0, w.1)
    ensures c == agent || exists u <- waits :: u.0 == c
  {
    assert Stops(holders, cycle[0].heldBy, cycle[0].agent, cycle[0].resource);
    b, w, c := cycle[0].heldBy, (cycle[1].agent, cycle[1].resource), cycle[1].heldBy;
    if |cycle| > 2 {
      assert (cycle[2].agent, cycle[2].resource) in waits;
    }
  }

  /** Where nobody who stops the agent waits, there is no ring through it. */
  lemma NoRingThroughIdle(holders: Ground, waits: set<Wait>, agent: AgentId, resource: string)
    requires forall b, w :: Stops(holders, b, agent, resource) && w in waits ==> w.0 != b
    ensures forall cycle :: !Ring(cycle, agent, resource, holders, waits)
  {
    forall cycle: seq<Blocked>
      ensures !Ring(cycle, agent, resource, holders, waits)
    {
      if Ring(cycle, agent, resource, holders, waits) {
        var b, w, c := SecondStep(cycle, agent, resource, holders, waits);
      }
    }
  }

  /** Nor is there where those who stop it, as far as they wait, are stopped only by others that
      do not. */
  lemma NoRingThroughNearlyIdle(holders: Ground, waits: set<Wait>, agent: AgentId, resource: string)
    requires forall b, w, c :: Stops(holders, b, agent, resource) && w in waits && w.0 == b && Stops(holders, c, w.0, w.1) ==>
               c != agent && forall u <- waits :: u.0 != c
    ensures forall cycle :: !Ring(cycle, agent, resource, holders, waits)
  {
    forall cycle: seq<Blocked>
      ensures !Ring(cycle, agent, resource, holders, waits)
    {
      if Ring(cycle, agent, resource, holders, waits) {
        var b, w, c := SecondStep(cycle, agent, resource, holders, waits);
      }
    }
  }

  /** A ring that a gain closes goes through the agent that gained. */
  lemma RingAfterGain(holders: Ground, holders': Ground, waits: set<Wait>, agent: AgentId, w: Wait, cycle: seq<Blocked>)
    requires holders'.meets == holders.meets && w in waits && Ring(cycle, w.0, w.1, holders', waits)
    requires forall h <- holders'.held :: h.1 != agent ==> h in holders.held
    ensures Ring(cycle, w.0, w.1, holders, waits) ||
            exists v, through :: v in waits && v.0 == agent && Ring(through, v.0, v.1, holders', waits)
  {
    if i :| 0 <= i < |cycle| && cycle[i].agent == agent {
      var v := (cycle[i].agent, cycle[i].resource);
      assert v in waits;
      RotatesTo(cycle, w, i, holders', waits);
      assert Ring(cycle[i..] + cycle[..i], v.0, v.1, holders', waits);
    } else {
      forall i | 0 <= i < |cycle|
        ensures cycle[i].heldBy != agent
      {
        assert if i + 1 < |cycle| then cycle[i].heldBy == cycle[i + 1].agent else cycle[i].heldBy == cycle[0].agent;
      }
      ChainMonotone(cycle, holders', waits, holders, waits);
    }
  }

  /** Leases coming to one agent close a ring exactly when its own wait, if it has one, is
      in a ring of the new table: one check decides. */
  lemma GainIsSafeExactlyWhen(holders: Ground, holders': Ground, waits: set<Wait>, agent: AgentId)
    requires Acyclic(holders, waits) && holders'.meets == holders.meets
    requires forall h <- holders'.held :: h.1 != agent ==> h in holders.held
    ensures Acyclic(holders', waits) <==>
            forall w, cycle :: w in waits && w.0 == agent ==> !Ring(cycle, w.0, w.1, holders', waits)
  {
    if forall w, cycle :: w in waits && w.0 == agent ==> !Ring(cycle, w.0, w.1, holders', waits) {
      forall w, cycle: seq<Blocked> | w in waits
        ensures !Ring(cycle, w.0, w.1, holders', waits)
      {
        if Ring(cycle, w.0, w.1, holders', waits) {
          RingAfterGain(holders, holders', waits, agent, w, cycle);
        }
      }
    }
  }

  // ----- What being free of rings means -----

  /** Some member of the set stands in `w`'s way. */
  ghost predicate StoppedWithin(holders: Ground, stuck: set<Wait>, w: Wait) {
    exists o <- stuck :: Stops(holders, o.0, w.0, w.1)
  }

  /** In no set of waiting agents does everyone wait for another member: some member is
      stopped only by agents outside it. */
  lemma NoMutualWait(holders: Ground, waits: set<Wait>, stuck: set<Wait>)
    requires Acyclic(holders, waits) && stuck <= waits && stuck != {}
    ensures exists w <- stuck :: !StoppedWithin(holders, stuck, w)
  {
    var w :| w in stuck;
    if StoppedWithin(holders, stuck, w) {
      var o :| o in stuck && Stops(holders, o.0, w.0, w.1);
      var free := FollowWaits(holders, waits, stuck, [Blocked(w.0, w.1, o.0)], o);
    }
  }

  ghost predicate OnPath(path: seq<Blocked>, w: Wait) {
    exists i :: 0 <= i < |path| && path[i].agent == w.0 && path[i].resource == w.1
  }

  ghost function OffPath(path: seq<Blocked>, stuck: set<Wait>): set<Wait> {
    set w | w in stuck && !OnPath(path, w)
  }

  lemma NotBack(holders: Ground, waits: set<Wait>, path: seq<Blocked>, next: Wait)
    requires Acyclic(holders, waits) && next in waits
    requires path != [] && Chain(path, holders, waits) && next.0 == path[|path| - 1].heldBy
    ensures !OnPath(path, next)
  {
    forall i | 0 <= i < |path|
      ensures path[i].agent != next.0 || path[i].resource != next.1
    {
      assert !Ring(path[i..], next.0, next.1, holders, waits);
      ChainSuffix(path, i, holders, waits);
      assert path[i..][0] == path[i] && path[i..][|path| - i - 1] == path[|path| - 1];
    }
  }

  lemma ChainSuffix(path: seq<Blocked>, i: nat, holders: Ground, waits: set<Wait>)
    requires Chain(path, holders, waits) && i <= |path|
    ensures Chain(path[i..], holders, waits)
  {
  }

  /** Following waits inside the set never comes back on itself, so it ends. */
  lemma {:induction false} FollowWaits(holders: Ground, waits: set<Wait>, stuck: set<Wait>, path: seq<Blocked>, next: Wait)
    returns (free: Wait)
    requires Acyclic(holders, waits) && stuck <= waits && next in stuck
    requires path != [] && Chain(path, holders, waits) && next.0 == path[|path| - 1].heldBy
    ensures free in stuck && !StoppedWithin(holders, stuck, free)
    decreases OffPath(path, stuck)
  {
    NotBack(holders, waits, path, next);
    if StoppedWithin(holders, stuck, next) {
      var o :| o in stuck && Stops(holders, o.0, next.0, next.1);
      var longer := path + [Blocked(next.0, next.1, o.0)];
      LongerPath(path, next, o.0, stuck);
      free := FollowWaits(holders, waits, stuck, longer, o);
    } else {
      free := next;
    }
  }

  lemma LongerPath(path: seq<Blocked>, next: Wait, heldBy: AgentId, stuck: set<Wait>)
    requires next in stuck && !OnPath(path, next)
    ensures OffPath(path + [Blocked(next.0, next.1, heldBy)], stuck) < OffPath(path, stuck)
  {
    var longer := path + [Blocked(next.0, next.1, heldBy)];
    assert longer[|path|] == Blocked(next.0, next.1, heldBy);
    forall w | OnPath(path, w)
      ensures OnPath(longer, w)
    {
      var i :| 0 <= i < |path| && path[i].agent == w.0 && path[i].resource == w.1;
      assert longer[i] == path[i];
    }
    assert OnPath(longer, next);
    assert next in OffPath(path, stuck) && next !in OffPath(longer, stuck);
  }
}
