/** Waiting for a daemon's first answer within a budget (scripts/windows_daemon_smoke.py,
    `wait_first_start` and `wait_cleanup_start`), by any clock that does not go back. */
module FirstStart {
  import opened Wrappers

  /** What a probe came to: `Raised` when it ended in an exception. */
  datatype Answer = Ready | NotReady | Raised

  /** A probe as it happened: when the time left was worked out, the time it was given, and
      when it was over. */
  datatype Probe = Probe(asked: real, timeout: real, finished: real, answer: Answer)

  /** The clock, the daemon and the probes. */
  class World {
    var now: real
    var starts: nat
    var probes: seq<Probe>

    constructor ()
      ensures starts == 0 && probes == []
    {
      now, starts, probes := 0.0, 0, [];
    }

    /** Time passes, by any amount. */
    method Elapse()
      modifies this`now
      ensures now >= old(now)
    {
      var later: real := *;
      if later > now {
        now := later;
      }
    }

    method Sleep(seconds: real)
      requires seconds >= 0.0
      modifies this`now
      ensures now >= old(now) + seconds
    {
      now := now + seconds;
      Elapse();
    }

    method Clock() returns (t: real)
      modifies this`now
      ensures old(now) <= t == now
    {
      Elapse();
      t := now;
    }

    method Start()
      modifies this`now, this`starts
      ensures starts == old(starts) + 1 && now >= old(now)
    {
      starts := starts + 1;
      Elapse();
    }

    method Ask(asked: real, timeout: real) returns (answer: Answer)
      modifies this`now
      ensures now >= old(now)
    {
      Elapse();
      if * {
        answer := Ready;
      } else if * {
        answer := NotReady;
      } else {
        answer := Raised;
      }
    }

    method Alive() returns (alive: bool)
    {
      alive := *;
    }
  }

  function Min(a: real, b: real): real { if b < a then b else a }

  datatype Result = Result(created: real, answered: Option<real>, probe: Option<Answer>, exited: bool, elapsed: real)

  /** An entry of the cleanup report. */
  datatype Item = Item(timeout: real, answer: Answer, elapsed: real)

  /** Every probe had some time, and no more than was left of the budget or than the cap. */
  ghost predicate Bounded(p: Probe, deadline: real, cap: real) {
    0.0 < p.timeout <= cap && p.asked + p.timeout <= deadline && p.asked <= p.finished
  }

  /** An answer that counts. */
  predicate InTime(p: Probe, deadline: real) { p.answer.Ready? && p.finished <= deadline }

  /** The probes from the `n`-th on were bounded, and each is kept as an item. */
  ghost predicate Kept(probes: seq<Probe>, n: nat, items: seq<Item>, deadline: real, cap: real) {
    && |probes| == n + |items|
    && (forall i :: n <= i < |probes| ==> Bounded(probes[i], deadline, cap) && IsItem(items[i - n], probes[i]))
  }

  ghost predicate IsItem(item: Item, p: Probe) {
    item.timeout == p.timeout && item.answer == p.answer && 0.0 <= item.elapsed
  }

  ghost predicate AnsweredInTime(probes: seq<Probe>, n: nat, deadline: real) {
    exists i :: n <= i < |probes| && InTime(probes[i], deadline)
  }

  lemma OneMoreKept(probes: seq<Probe>, n: nat, items: seq<Item>, deadline: real, cap: real, p: Probe, item: Item)
    requires Kept(probes, n, items, deadline, cap) && Bounded(p, deadline, cap) && IsItem(item, p)
    ensures Kept(probes + [p], n, items + [item], deadline, cap)
    ensures AnsweredInTime(probes + [p], n, deadline) <==> AnsweredInTime(probes, n, deadline) || InTime(p, deadline)
  {
    var more := probes + [p];
    assert more[|probes|] == p;
    if i :| n <= i < |probes| && InTime(probes[i], deadline) {
      assert more[i] == probes[i];
    }
  }

  /** One turn: a pause, then a probe with what is left of the budget, if anything is. */
  method Turn(w: World, began: real, budget: real, cap: real) returns (probe: Option<Probe>, item: Item)
    requires cap > 0.0 && w.now >= began
    modifies w`now, w`probes
    ensures w.now >= old(w.now) + 0.1
    ensures probe.None? ==> w.probes == old(w.probes) && w.now >= began + budget
    ensures probe.Some? ==> w.probes == old(w.probes) + [probe.value] && old(w.now) <= probe.value.finished <= w.now
    ensures probe.Some? ==> Bounded(probe.value, began + budget, cap) && IsItem(item, probe.value)
  {
    item := Item(0.0, NotReady, 0.0);
    w.Sleep(0.1);
    var asked := w.Clock();
    var remaining := budget - (asked - began);
    if remaining <= 0.0 {
      return None, item;
    }
    var timeout := Min(cap, remaining);
    var called := w.Clock();
    var answer := w.Ask(asked, timeout);
    var over := w.Clock();
    var finished := w.Clock();
    item := Item(timeout, answer, over - called);
    probe := Some(Probe(asked, timeout, finished, answer));
    w.probes := w.probes + [probe.value];
  }

  /** `wait_first_start`, with `cap` on a probe's time; `items` is what a recording caller
      keeps of the probes. An answer counts exactly when it came by the deadline, and then it
      is the last probe. */
  method Wait(w: World, budget: real, cap: real) returns (r: Result, items: seq<Item>, ghost requested: real)
    requires cap > 0.0
    modifies w
    ensures w.starts == old(w.starts) + 1 && old(w.now) <= requested
    ensures old(w.probes) <= w.probes && Kept(w.probes, |old(w.probes)|, items, requested + budget, cap)
    ensures r.answered.Some? <==> AnsweredInTime(w.probes, |old(w.probes)|, requested + budget)
    ensures r.answered.Some? ==> items != [] && r.answered.value == w.probes[|w.probes| - 1].finished - requested - r.created
    ensures r.probe == if items == [] then None else Some(w.probes[|w.probes| - 1].answer)
    ensures r.exited ==> r.answered.None?
    ensures r.answered.None? && !r.exited ==> r.elapsed >= budget
  {
    items := [];
    var began := w.Clock();
    requested := began;
    w.Start();
    var t := w.Clock();
    r := Result(t - began, None, None, false, 0.0);
    ghost var n, deadline := |w.probes|, began + budget;
    while true
      invariant w.starts == old(w.starts) + 1 && w.now >= began && old(w.probes) <= w.probes
      invariant Kept(w.probes, n, items, deadline, cap) && !AnsweredInTime(w.probes, n, deadline)
      invariant r.answered.None? && !r.exited
      invariant r.probe == if items == [] then None else Some(w.probes[|w.probes| - 1].answer)
      decreases 10.0 * (deadline - w.now)
    {
      ghost var before, left := w.probes, 10.0 * (deadline - w.now);
      var probe, item := Turn(w, began, budget, cap);
      if probe.None? {
        break;
      }
      OneMoreKept(before, n, items, deadline, cap, probe.value, item);
      items := items + [item];
      r := r.(probe := Some(probe.value.answer));
      var took := probe.value.finished - began;
      if probe.value.answer.Ready? && took <= budget {
        r := r.(answered := Some(took - r.created));
        break;
      }
      if took >= budget {
        break;
      }
      var alive := w.Alive();
      if !alive {
        r := r.(exited := true);
        break;
      }
      assert 10.0 * (deadline - w.now) <= left - 1.0;
    }
    ghost var stopped := w.now;
    assert r.answered.None? && !r.exited ==> stopped - began >= budget;
    var end := w.Clock();
    r := r.(elapsed := end - began);
  }

  /** A daemon's first start: ninety seconds unless told otherwise, ten for a probe. */
  method WaitFirstStart(w: World, budget: real := 90.0) returns (r: Result, ghost requested: real, ghost items: seq<Item>)
    modifies w
    ensures w.starts == old(w.starts) + 1
    ensures old(w.probes) <= w.probes && Kept(w.probes, |old(w.probes)|, items, requested + budget, 10.0)
    ensures r.answered.Some? <==> AnsweredInTime(w.probes, |old(w.probes)|, requested + budget)
    ensures r.answered.None? && !r.exited ==> r.elapsed >= budget
  {
    r, items, requested := Wait(w, budget, 10.0);
  }

  datatype Report = Report(passed: bool, probes: seq<Item>, result: Result)

  /** `wait_cleanup_start`: ten seconds, three for a probe, and every probe kept. */
  method WaitCleanupStart(w: World) returns (report: Report, ghost requested: real)
    modifies w
    ensures w.starts == old(w.starts) + 1
    ensures old(w.probes) <= w.probes && Kept(w.probes, |old(w.probes)|, report.probes, requested + 10.0, 3.0)
    ensures report.passed <==> AnsweredInTime(w.probes, |old(w.probes)|, requested + 10.0)
    ensures !report.passed && !report.result.exited ==> report.result.elapsed >= 10.0
  {
    var r, items;
    r, items, requested := Wait(w, 10.0, 3.0);
    report := Report(r.answered.Some?, items, r);
  }
}
