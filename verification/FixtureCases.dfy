/** Runs in which a stranger's process group is signalled (scripts/sustained_use.py), each by one
    step that is not safe. */
module FixtureCases {
  import opened Wrappers
  import opened FixtureProcesses

  const LEADER := Identity(10, 10, 0)
  const PINNED := map[10 := LEADER]

  /** Group 10 has been remembered and checked; the caller's own group is 1. */
  function Checked(world: World, members: Pinned): State {
    State(world, PINNED, members, {10}, {(10, 0)}, {})
  }

  /** The system does something, and the fixture stays as it is. */
  lemma Goes(world: World, members: Pinned, e: Event, world': World)
    requires Reachable(Checked(world, members), 1) && Can(world, e) && After(world, e) == world'
    ensures Reachable(Checked(world', members), 1)
  {
    ReachesNext(Checked(world, members), 1, Environment(e));
  }

  lemma Begins(world: World)
    requires Sound(world) && 10 in world.processes && world.processes[10] == Process(0, 10, 0)
    ensures Reachable(Checked(world, PINNED), 1)
  {
    var s0 := Start(world);
    assert IsRun([s0], 1, []);
    assert Reachable(s0, 1);
    var readings := map[10 := Is(LEADER)];
    assert Honest(world, readings);
    ReachesNext(s0, 1, Remember(10, Is(LEADER)));
    OnlyItsGroup(world);
    var s1 := State(world, PINNED, PINNED, {}, {(10, 0)}, {});
    assert Next(s0, 1, Remember(10, Is(LEADER))) == s1;
    ReachesNext(s1, 1, Check(readings, {}));
    assert Next(s1, 1, Check(readings, {})) == Checked(world, PINNED);
  }

  lemma OnlyItsGroup(world: World)
    requires Sound(world) && 10 in world.processes && world.processes[10] == Process(0, 10, 0)
    ensures Incarnations(world, {10}) == {(10, 0)}
  {
    assert (10, 0) in Incarnations(world, {10});
  }

  lemma NotInUse(world: World, group: nat)
    requires forall p <- world.processes :: world.processes[p].group != group
    ensures !InUse(world, group)
  {
  }

  // ---- A row read too late ----

  /** The leader of group 10 has exited since the check, 10 has been used for a new process
      that leads a new group 10, and process 11 of that group is in the list. */
  function Recycled(): World { World(map[10 := Process(2, 10, 2), 11 := Process(3, 10, 2)], 4, 3) }

  /** 10 is a child of 20 by now, in the group of 20. */
  function Reused(): World { World(map[20 := Process(1, 20, 1), 10 := Process(2, 20, 1)], 3, 2) }

  lemma ReusedIsReached()
    ensures Reachable(Checked(Reused(), PINNED), 1)
  {
    var w0 := World(map[10 := Process(0, 10, 0), 20 := Process(1, 20, 1)], 2, 2);
    var w1 := World(map[20 := Process(1, 20, 1)], 2, 2);
    Begins(w0);
    Goes(w0, PINNED, Exits(10), w1);
    NotInUse(w1, 10);
    Goes(w1, PINNED, Forks(10, 20), Reused());
  }

  lemma RecycledIsReached()
    ensures Reachable(Checked(Recycled(), PINNED), 1)
  {
    var w3 := World(map[20 := Process(1, 20, 1), 10 := Process(2, 10, 2)], 3, 3);
    var w4 := World(map[20 := Process(1, 20, 1), 10 := Process(2, 10, 2), 11 := Process(3, 10, 2)], 4, 3);
    ReusedIsReached();
    NotInUse(Reused(), 10);
    Goes(Reused(), PINNED, Leads(10), w3);
    NotInUse(w3, 11);
    Goes(w3, PINNED, Forks(11, 10), w4);
    Goes(w4, PINNED, Exits(20), Recycled());
  }

  lemma PinnedIsTarget(members: Pinned, readings: map<nat, Reading>, i: Identity)
    requires i.group == 10 && i.pid in members && members[i.pid] == i
    requires i.pid in readings && readings[i.pid] == Is(i)
    ensures 10 in Targets(PINNED, members, RetainedOf(members, readings, {}))
  {
    var current := RetainedOf(members, readings, {});
    assert i.pid in current && current[i.pid] == Some(i);
    assert current[i.pid].value.group == members[i.pid].group;
  }

  /** Whoever is pinned in group 10, in an incarnation that was not remembered, has it signalled. */
  lemma StrangerIsSignalled(world: World, members: Pinned, i: Identity)
    requires i.group == 10 && i.pid in members && members[i.pid] == i
    requires Holds(world, i) && world.processes[i.pid].incarnation == 2
    ensures var s, signal := Checked(world, members), Signal(map[i.pid := Is(i)], {});
            Fair(s, signal) && (10, 2) in Next(s, 1, signal).signalled && (10, 2) !in s.owned
  {
    var readings := map[i.pid := Is(i)];
    assert Honest(world, readings);
    PinnedIsTarget(members, readings, i);
    assert world.processes[i.pid].group == 10;
  }

  /** Read that late, a row adopts a stranger, and the stranger's group is signalled. */
  lemma LateRowSignalsStranger()
    ensures var s, i := Checked(Recycled(), PINNED), Identity(11, 10, 3);
            && Reachable(s, 1) && Fair(s, Row(11, 10, Is(i)))
            && var t := Next(s, 1, Row(11, 10, Is(i)));
               var signal := Signal(map[11 := Is(i)], {});
               Fair(t, signal) && (10, 2) in Next(t, 1, signal).signalled && (10, 2) !in t.owned
  {
    RecycledIsReached();
    var s, i := Checked(Recycled(), PINNED), Identity(11, 10, 3);
    assert Honest(s.world, map[11 := Is(i)]);
    var t := Next(s, 1, Row(11, 10, Is(i)));
    assert t == Checked(Recycled(), PINNED[11 := i]);
    StrangerIsSignalled(Recycled(), PINNED[11 := i], i);
  }

  // ---- A member that comes back ----

  const MEMBER := Identity(11, 10, 2)
  const BOTH := map[10 := LEADER, 11 := MEMBER]

  /** Process 11 was captured in group 10, has moved to group 20, and comes back to 10 once that
      is a stranger's. */
  function Returned(): World {
    World(map[20 := Process(1, 20, 1), 11 := Process(2, 10, 2), 10 := Process(3, 10, 2)], 4, 3)
  }

  function Away(): World {
    World(map[20 := Process(1, 20, 1), 11 := Process(2, 20, 1), 10 := Process(3, 10, 2)], 4, 3)
  }

  lemma CapturedIsReached()
    ensures Reachable(Checked(World(map[10 := Process(0, 10, 0), 20 := Process(1, 20, 1), 11 := Process(2, 10, 0)], 3, 2), BOTH), 1)
  {
    var w0 := World(map[10 := Process(0, 10, 0), 20 := Process(1, 20, 1), 11 := Process(2, 10, 0)], 3, 2);
    Begins(w0);
    assert Honest(w0, map[11 := Is(MEMBER)]);
    ReachesNext(Checked(w0, PINNED), 1, Row(11, 10, Is(MEMBER)));
    assert Next(Checked(w0, PINNED), 1, Row(11, 10, Is(MEMBER))) == Checked(w0, BOTH);
  }

  lemma AwayIsReached()
    ensures Reachable(Checked(Away(), BOTH), 1)
  {
    var w0 := World(map[10 := Process(0, 10, 0), 20 := Process(1, 20, 1), 11 := Process(2, 10, 0)], 3, 2);
    var w1 := World(map[10 := Process(0, 10, 0), 20 := Process(1, 20, 1), 11 := Process(2, 20, 1)], 3, 2);
    var w2 := World(map[20 := Process(1, 20, 1), 11 := Process(2, 20, 1)], 3, 2);
    var w3 := World(map[20 := Process(1, 20, 1), 11 := Process(2, 20, 1), 10 := Process(3, 20, 1)], 4, 2);
    CapturedIsReached();
    Goes(w0, BOTH, Joins(11, 20), w1);
    Goes(w1, BOTH, Exits(10), w2);
    NotInUse(w2, 10);
    Goes(w2, BOTH, Forks(10, 20), w3);
    NotInUse(w3, 10);
    Goes(w3, BOTH, Leads(10), Away());
  }

  /** A pinned member that comes back makes `stop` signal the group it came back to. */
  lemma ReturnSignalsStranger()
    ensures var s, e, i := Checked(Away(), BOTH), Joins(11, 10), MEMBER;
            && Reachable(s, 1) && Can(s.world, e) && !Settled(s, e)
            && var t := Next(s, 1, Environment(e));
               var signal := Signal(map[11 := Is(i)], {});
               Fair(t, signal) && (10, 2) in Next(t, 1, signal).signalled && (10, 2) !in t.owned
  {
    AwayIsReached();
    var s, e := Checked(Away(), BOTH), Joins(11, 10);
    assert Next(s, 1, Environment(e)) == Checked(Returned(), BOTH);
    StrangerIsSignalled(Returned(), BOTH, MEMBER);
  }
}
