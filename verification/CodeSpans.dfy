/** Code spans in a line of Markdown (scripts/docs_check.py, `code_spans`), against a scanner
    that reads the line character by character by sections 2.4 and 6.1 of CommonMark 0.31. */
module CodeSpans {
  import opened Wrappers

  type Span = (nat, nat)

  // ----- The scanner -----

  /** The characters a backslash escapes. */
  predicate IsPunctuation(c: char) {
    '!' <= c <= '/' || ':' <= c <= '@' || '[' <= c <= '`' || '{' <= c <= '~'
  }

  predicate TickAt(line: string, p: nat) { p < |line| && line[p] == '`' }

  /** Where the backticks from `p` on end. */
  function RunEnd(line: string, p: nat): (e: nat)
    requires p <= |line|
    ensures p <= e <= |line| && (TickAt(line, p) ==> p < e)
    decreases |line| - p
  {
    if TickAt(line, p) then RunEnd(line, p + 1) else p
  }

  lemma {:induction false} RunIsMaximal(line: string, p: nat)
    requires p <= |line|
    ensures !TickAt(line, RunEnd(line, p)) && forall i :: p <= i < RunEnd(line, p) ==> line[i] == '`'
    decreases |line| - p
  {
    if TickAt(line, p) {
      RunIsMaximal(line, p + 1);
    }
  }

  lemma {:induction false} TailOfRun(line: string, p: nat, q: nat)
    requires p <= q <= |line| && q <= RunEnd(line, p)
    ensures RunEnd(line, q) == RunEnd(line, p)
    decreases q - p
  {
    if p < q {
      TailOfRun(line, p + 1, q);
    }
  }

  /** From `p` on, where the first run of exactly `n` backticks ends. */
  function Close(line: string, p: nat, n: nat): (r: Option<nat>)
    requires p <= |line|
    ensures r.Some? ==> p < r.value <= |line|
    decreases |line| - p
  {
    if p == |line| then None
    else if line[p] != '`' then Close(line, p + 1, n)
    else
      var e := RunEnd(line, p);
      if e - p == n then Some(e) else Close(line, e, n)
  }

  /** The spans from `p` on, outside a span. */
  function Scan(line: string, p: nat): seq<Span>
    requires p <= |line|
    decreases |line| - p
  {
    if p == |line| then []
    else if line[p] == '\\' then
      if p + 1 < |line| && IsPunctuation(line[p + 1]) then Scan(line, p + 2) else Scan(line, p + 1)
    else if line[p] == '`' then
      var e := RunEnd(line, p);
      match Close(line, e, e - p)
      case Some(c) => [(p, c)] + Scan(line, c)
      case None => Scan(line, e)
    else Scan(line, p + 1)
  }

  // ----- The recogniser -----

  function NextTick(line: string, p: nat): (s: nat)
    requires p <= |line|
    ensures p <= s <= |line| && (s < |line| ==> TickAt(line, s))
    decreases |line| - p
  {
    if p == |line| || TickAt(line, p) then p else NextTick(line, p + 1)
  }

  lemma {:induction false} NoTickBefore(line: string, p: nat)
    requires p <= |line|
    ensures forall i :: p <= i < NextTick(line, p) ==> line[i] != '`'
    decreases |line| - p
  {
    if p < |line| && !TickAt(line, p) {
      NoTickBefore(line, p + 1);
    }
  }

  /** The runs of backticks from `p` on, left to right. */
  function RunsFrom(line: string, p: nat): seq<Span>
    requires p <= |line|
    decreases |line| - p
  {
    var s := NextTick(line, p);
    if s == |line| then [] else [(s, RunEnd(line, s))] + RunsFrom(line, RunEnd(line, s))
  }

  method FindRuns(line: string) returns (runs: seq<Span>)
    ensures runs == RunsFrom(line, 0)
  {
    runs := [];
    var from: nat := 0;
    var at := NextTick(line, from);
    while at < |line|
      invariant from <= |line| && at == NextTick(line, from) && runs + RunsFrom(line, from) == RunsFrom(line, 0)
      decreases |line| - at
    {
      var run := (at, RunEnd(line, at));
      assert runs + ([run] + RunsFrom(line, run.1)) == (runs + [run]) + RunsFrom(line, run.1);
      runs, from := runs + [run], run.1;
      at := NextTick(line, from);
    }
  }

  /** The list from `i` on is the runs from `p` on. */
  ghost predicate Follow(line: string, p: nat, runs: seq<Span>, i: nat)
    requires i <= |runs|
    decreases |runs| - i
  {
    && p <= |line|
    && if i == |runs| then NextTick(line, p) == |line|
       else NextTick(line, p) < |line| && runs[i] == (NextTick(line, p), RunEnd(line, NextTick(line, p)))
            && Follow(line, runs[i].1, runs, i + 1)
  }

  lemma {:induction false} RunsFollow(line: string, p: nat, runs: seq<Span>, i: nat)
    requires p <= |line| && i <= |runs| && runs[i..] == RunsFrom(line, p)
    ensures Follow(line, p, runs, i)
    decreases |runs| - i
  {
    if i < |runs| {
      var s := NextTick(line, p);
      assert runs[i] == runs[i..][0];
      assert runs[i + 1..] == runs[i..][1..];
      RunsFollow(line, RunEnd(line, s), runs, i + 1);
    }
  }

  /** How many backslashes stand right before `p`. */
  function Slashes(line: string, p: nat): (k: nat)
    requires p <= |line|
    ensures k <= p && (forall i :: p - k <= i < p ==> line[i] == '\\') && (k < p ==> line[p - k - 1] != '\\')
  {
    if p > 0 && line[p - 1] == '\\' then 1 + Slashes(line, p - 1) else 0
  }

  /** The first run from `j` on of length `n`. */
  function FirstOf(runs: seq<Span>, j: nat, n: nat): (r: Option<nat>)
    requires j <= |runs|
    ensures r.Some? ==> j <= r.value < |runs|
    decreases |runs| - j
  {
    if j == |runs| then None else if runs[j].1 == runs[j].0 + n then Some(j) else FirstOf(runs, j + 1, n)
  }

  /** Where a run opens: past its first backtick when that is escaped. */
  function Opens(line: string, s: nat): nat
    requires s <= |line|
  {
    s + Slashes(line, s) % 2
  }

  /** What one turn of the recogniser finds, and the run it goes on from. */
  datatype Turn = Turn(found: seq<Span>, next: nat)

  /** A run that opens at `start`. */
  function OpenTurn(runs: seq<Span>, i: nat, start: nat): (t: Turn)
    requires i < |runs| && start < runs[i].1
    ensures i < t.next <= |runs|
  {
    match FirstOf(runs, i + 1, runs[i].1 - start)
    case None => Turn([], i + 1)
    case Some(j) => Turn([(start, runs[j].1)], j + 1)
  }

  function TurnOf(line: string, runs: seq<Span>, i: nat): (t: Turn)
    requires i < |runs| && runs[i].0 <= |line|
    ensures i < t.next <= |runs|
  {
    var start := Opens(line, runs[i].0);
    if start >= runs[i].1 then Turn([], i + 1) else OpenTurn(runs, i, start)
  }

  /** What the recogniser makes of the runs from `i` on. */
  function Found(line: string, runs: seq<Span>, i: nat): seq<Span>
    requires i <= |runs| && forall r <- runs :: r.0 <= |line|
    decreases |runs| - i
  {
    if i == |runs| then [] else
    var t := TurnOf(line, runs, i);
    t.found + Found(line, runs, t.next)
  }

  // ----- Reading up to a run -----

  /** Text without backticks is read over, up to the backslashes before the next run. */
  lemma {:induction false} ScanToSlashes(line: string, q: nat, t: nat)
    requires q <= t <= |line| && (forall i :: q <= i < t ==> line[i] != '`') && (t > q ==> line[t - 1] != '\\')
    ensures Scan(line, q) == Scan(line, t)
    decreases t - q
  {
    if q < t {
      if line[q] == '\\' && IsPunctuation(line[q + 1]) {
        ScanToSlashes(line, q + 2, t);
      } else {
        ScanToSlashes(line, q + 1, t);
      }
    }
  }

  /** Backslashes are taken in pairs; an odd one escapes the backtick. */
  lemma {:induction false} ScanSlashes(line: string, t: nat, s: nat)
    requires t <= s < |line| && line[s] == '`' && forall i :: t <= i < s ==> line[i] == '\\'
    ensures Scan(line, t) == Scan(line, s + (s - t) % 2)
    decreases s - t
  {
    if t + 2 <= s {
      ScanSlashes(line, t + 2, s);
    }
  }

  lemma ScanToRun(line: string, p: nat, s: nat)
    requires p <= s < |line| && line[s] == '`' && (forall i :: p <= i < s ==> line[i] != '`')
    requires p == 0 || line[p - 1] == '`'
    ensures Scan(line, p) == Scan(line, Opens(line, s))
  {
    var k := Slashes(line, s);
    assert p <= s - k;
    ScanToSlashes(line, p, s - k);
    ScanSlashes(line, s - k, s);
  }

  lemma {:induction false} ScanToEnd(line: string, p: nat)
    requires p <= |line| && forall i :: p <= i < |line| ==> line[i] != '`'
    ensures Scan(line, p) == []
    decreases |line| - p
  {
    if p < |line| {
      if line[p] == '\\' && p + 1 < |line| && IsPunctuation(line[p + 1]) {
        ScanToEnd(line, p + 2);
      } else {
        ScanToEnd(line, p + 1);
      }
    }
  }

  // ----- The recogniser is the scanner -----

  lemma {:induction false} CloseToTick(line: string, p: nat, n: nat)
    requires p <= |line|
    ensures Close(line, p, n) == Close(line, NextTick(line, p), n)
    decreases |line| - p
  {
    if p < |line| && !TickAt(line, p) {
      CloseToTick(line, p + 1, n);
    }
  }

  /** Searching the run list for a length is searching the line for it. */
  lemma {:induction false} ClosingRun(line: string, p: nat, runs: seq<Span>, j: nat, n: nat)
    requires j <= |runs| && Follow(line, p, runs, j)
    ensures Close(line, p, n) == if FirstOf(runs, j, n).Some? then Some(runs[FirstOf(runs, j, n).value].1) else None
    decreases |runs| - j
  {
    CloseToTick(line, p, n);
    if j < |runs| {
      ClosingRun(line, runs[j].1, runs, j + 1, n);
    }
  }

  lemma {:induction false} FollowLater(line: string, p: nat, runs: seq<Span>, i: nat, j: nat)
    requires i <= j < |runs| && Follow(line, p, runs, i)
    ensures Run(line, runs[j]) && Follow(line, runs[j].1, runs, j + 1)
    decreases j - i
  {
    if i < j {
      FollowLater(line, runs[i].1, runs, i + 1, j);
    }
  }

  ghost predicate Run(line: string, run: Span) {
    TickAt(line, run.0) && run.1 == RunEnd(line, run.0)
  }

  lemma TickBeforeEnd(line: string, run: Span)
    requires Run(line, run)
    ensures run.0 < run.1 <= |line| && line[run.1 - 1] == '`'
  {
    RunIsMaximal(line, run.0);
  }

  /** The scanner at the first backtick of a run that is not escaped. */
  lemma ScanOpens(line: string, run: Span, start: nat)
    requires Run(line, run) && run.0 <= start < run.1
    ensures run.1 <= |line| &&
            Scan(line, start) == match Close(line, run.1, run.1 - start)
                                 case Some(c) => [(start, c)] + Scan(line, c)
                                 case None => Scan(line, run.1)
  {
    RunIsMaximal(line, run.0);
    TailOfRun(line, run.0, start);
  }

  /** The scanner, as the turns see it. */
  type Scanner = nat -> seq<Span>

  function ScannerOf(line: string): Scanner {
    (p: nat) => if p <= |line| then Scan(line, p) else []
  }

  /** Both ends of a turn: from `p`, the scanner finds what the turn finds, and is then right
      after the run the turn ends with. */
  ghost predicate Agrees(line: string, scan: Scanner, p: nat, runs: seq<Span>, t: Turn)
    requires 0 < t.next <= |runs|
  {
    var q := runs[t.next - 1].1;
    Follow(line, q, runs, t.next) && 0 < q && line[q - 1] == '`' && scan(p) == t.found + scan(q)
  }

  lemma SkipAgrees(line: string, scan: Scanner, p: nat, runs: seq<Span>, i: nat)
    requires i < |runs| && Run(line, runs[i]) && Follow(line, runs[i].1, runs, i + 1) && scan(p) == scan(runs[i].1)
    ensures Agrees(line, scan, p, runs, Turn([], i + 1))
  {
    TickBeforeEnd(line, runs[i]);
  }

  lemma ClosedAgrees(line: string, scan: Scanner, p: nat, runs: seq<Span>, i: nat, start: nat, j: nat)
    requires i < j < |runs| && Follow(line, runs[i].1, runs, i + 1)
    requires scan(p) == [(start, runs[j].1)] + scan(runs[j].1)
    ensures Agrees(line, scan, p, runs, Turn([(start, runs[j].1)], j + 1))
  {
    FollowLater(line, runs[i].1, runs, i + 1, j);
    TickBeforeEnd(line, runs[j]);
  }

  /** The scanner at `start` goes on from the closing run in the list, or skips the run. */
  ghost predicate Opened(scan: Scanner, runs: seq<Span>, i: nat, start: nat)
    requires i < |runs| && start < runs[i].1
  {
    scan(start) == match FirstOf(runs, i + 1, runs[i].1 - start)
                   case None => scan(runs[i].1)
                   case Some(j) => [(start, runs[j].1)] + scan(runs[j].1)
  }

  lemma OpenAgrees(line: string, scan: Scanner, p: nat, runs: seq<Span>, i: nat, start: nat)
    requires i < |runs| && Run(line, runs[i]) && Follow(line, runs[i].1, runs, i + 1)
    requires start < runs[i].1 && scan(p) == scan(start) && Opened(scan, runs, i, start)
    ensures Agrees(line, scan, p, runs, OpenTurn(runs, i, start))
  {
    match FirstOf(runs, i + 1, runs[i].1 - start)
    case None => SkipAgrees(line, scan, p, runs, i);
    case Some(j) => ClosedAgrees(line, scan, p, runs, i, start, j);
  }

  /** What the scanner does at a run that opens at `start` and ends at `end`. */
  ghost predicate ScansOn(scan: Scanner, start: nat, end: nat, close: Option<nat>) {
    scan(start) == match close
                   case Some(c) => [(start, c)] + scan(c)
                   case None => scan(end)
  }

  lemma ScannerScansOn(line: string, run: Span, start: nat)
    requires Run(line, run) && run.0 <= start < run.1
    ensures run.1 <= |line| && ScansOn(ScannerOf(line), start, run.1, Close(line, run.1, run.1 - start))
  {
    ScanOpens(line, run, start);
  }

  lemma OpenedBy(scan: Scanner, runs: seq<Span>, i: nat, start: nat, close: Option<nat>)
    requires i < |runs| && start < runs[i].1 && ScansOn(scan, start, runs[i].1, close)
    requires var first := FirstOf(runs, i + 1, runs[i].1 - start);
             close == if first.Some? then Some(runs[first.value].1) else None
    ensures Opened(scan, runs, i, start)
  {
  }

  lemma ScanIsOpened(line: string, scan: Scanner, runs: seq<Span>, i: nat, start: nat)
    requires i < |runs| && Run(line, runs[i]) && Follow(line, runs[i].1, runs, i + 1) && runs[i].0 <= start < runs[i].1
    requires scan == ScannerOf(line)
    ensures Opened(scan, runs, i, start)
  {
    ScannerScansOn(line, runs[i], start);
    ClosingRun(line, runs[i].1, runs, i + 1, runs[i].1 - start);
    OpenedBy(scan, runs, i, start, Close(line, runs[i].1, runs[i].1 - start));
  }

  lemma ScanReaches(line: string, p: nat, runs: seq<Span>, i: nat)
    requires i < |runs| && Follow(line, p, runs, i) && (p == 0 || line[p - 1] == '`')
    ensures Run(line, runs[i]) && Follow(line, runs[i].1, runs, i + 1)
    ensures runs[i].0 <= Opens(line, runs[i].0) <= runs[i].1 <= |line|
    ensures ScannerOf(line)(p) == ScannerOf(line)(Opens(line, runs[i].0))
  {
    NoTickBefore(line, p);
    ScanToRun(line, p, runs[i].0);
    TickBeforeEnd(line, runs[i]);
  }

  lemma TurnAgrees(line: string, p: nat, runs: seq<Span>, i: nat)
    requires i < |runs| && Follow(line, p, runs, i) && (p == 0 || line[p - 1] == '`')
    ensures Agrees(line, ScannerOf(line), p, runs, TurnOf(line, runs, i))
  {
    ScanReaches(line, p, runs, i);
    var start := Opens(line, runs[i].0);
    if start < runs[i].1 {
      ScanIsOpened(line, ScannerOf(line), runs, i, start);
      OpenAgrees(line, ScannerOf(line), p, runs, i, start);
    } else {
      SkipAgrees(line, ScannerOf(line), p, runs, i);
    }
  }

  lemma NothingAfter(line: string, p: nat)
    requires p <= |line| && NextTick(line, p) == |line|
    ensures ScannerOf(line)(p) == []
  {
    NoTickBefore(line, p);
    ScanToEnd(line, p);
  }

  /** The recogniser's run list and backslash count find what the scanner finds. */
  lemma {:induction false} ScanIsFound(line: string, scan: Scanner, p: nat, runs: seq<Span>, i: nat)
    requires i <= |runs| && Follow(line, p, runs, i) && (p == 0 || line[p - 1] == '`')
    requires scan == ScannerOf(line) && forall r <- runs :: r.0 <= |line|
    ensures scan(p) == Found(line, runs, i)
    decreases |runs| - i
  {
    if i == |runs| {
      NothingAfter(line, p);
    } else {
      TurnAgrees(line, p, runs, i);
      var t := TurnOf(line, runs, i);
      ScanIsFound(line, scan, runs[t.next - 1].1, runs, t.next);
    }
  }

  lemma {:induction false} RunsInLine(line: string, p: nat)
    requires p <= |line|
    ensures forall r <- RunsFrom(line, p) :: r.0 <= |line|
    decreases |line| - p
  {
    var s := NextTick(line, p);
    if s < |line| {
      RunsInLine(line, RunEnd(line, s));
    }
  }

  lemma AllAreFound(line: string, runs: seq<Span>)
    requires runs == RunsFrom(line, 0)
    ensures (forall r <- runs :: r.0 <= |line|) && Found(line, runs, 0) == Scan(line, 0)
  {
    RunsInLine(line, 0);
    RunsFollow(line, 0, runs, 0);
    ScanIsFound(line, ScannerOf(line), 0, runs, 0);
  }

  lemma TurnGoes(line: string, runs: seq<Span>, i: nat, spans: seq<Span>)
    requires i < |runs| && forall r <- runs :: r.0 <= |line|
    ensures var t := TurnOf(line, runs, i); spans + Found(line, runs, i) == (spans + t.found) + Found(line, runs, t.next)
  {
  }

  /** `code_spans`: exactly the scanner's spans. */
  method FindSpans(line: string) returns (spans: seq<Span>)
    ensures spans == Scan(line, 0)
  {
    var runs := FindRuns(line);
    AllAreFound(line, runs);
    ghost var all := Scan(line, 0);
    spans := [];
    var i := 0;
    while i < |runs|
      invariant i <= |runs| && spans + Found(line, runs, i) == all
    {
      TurnGoes(line, runs, i, spans);
      var turn := TurnOf(line, runs, i);
      spans, i := spans + turn.found, turn.next;
    }
  }

  // ----- What the spans are like -----

  /** Delimited by equally long runs, of which the second is the first after the opening that
      is that long. */
  ghost predicate Delimited(line: string, span: Span) {
    && span.0 < span.1 <= |line| && TickAt(line, span.0)
    && var open := RunEnd(line, span.0);
       Close(line, open, open - span.0) == Some(span.1)
  }

  /** In order and apart. */
  ghost predicate InOrder(line: string, p: nat, spans: seq<Span>, k: nat)
    requires k <= |spans|
    decreases |spans| - k
  {
    if k == |spans| then true
    else p <= spans[k].0 && Delimited(line, spans[k]) && InOrder(line, spans[k].1, spans, k + 1)
  }

  lemma {:induction false} InOrderShifts(line: string, p: nat, first: Span, rest: seq<Span>, k: nat)
    requires k <= |rest| && InOrder(line, p, rest, k)
    ensures InOrder(line, p, [first] + rest, k + 1)
    decreases |rest| - k
  {
    if k < |rest| {
      InOrderShifts(line, rest[k].1, first, rest, k + 1);
    }
  }

  lemma {:induction false} InOrderEarlier(line: string, p: nat, q: nat, spans: seq<Span>)
    requires q <= p && InOrder(line, p, spans, 0)
    ensures InOrder(line, q, spans, 0)
  {
  }

  lemma {:induction false} ScanIsInOrder(line: string, p: nat)
    requires p <= |line|
    ensures InOrder(line, p, Scan(line, p), 0)
    decreases |line| - p
  {
    if p < |line| {
      if line[p] == '`' {
        var e := RunEnd(line, p);
        var close := Close(line, e, e - p);
        if close.Some? {
          ScanIsInOrder(line, close.value);
          InOrderShifts(line, close.value, (p, close.value), Scan(line, close.value), 0);
          assert ([(p, close.value)] + Scan(line, close.value))[0] == (p, close.value);
        } else {
          ScanIsInOrder(line, e);
          InOrderEarlier(line, e, p, Scan(line, e));
        }
      } else {
        var q := if line[p] == '\\' && p + 1 < |line| && IsPunctuation(line[p + 1]) then p + 2 else p + 1;
        ScanIsInOrder(line, q);
        InOrderEarlier(line, q, p, Scan(line, q));
      }
    }
  }

  /** The run that closes is exactly that long, and no run before it is. */
  lemma {:induction false} CloseIsFirst(line: string, p: nat, n: nat)
    requires p <= |line| && Close(line, p, n).Some? && (p == 0 || !TickAt(line, p) || !TickAt(line, p - 1))
    ensures var c := Close(line, p, n).value;
            && p <= c - n && IsRunOf(line, c - n, n)
            && forall s :: p <= s < c - n ==> !IsRunOf(line, s, n)
    decreases |line| - p
  {
    if line[p] != '`' {
      CloseIsFirst(line, p + 1, n);
    } else {
      var e := RunEnd(line, p);
      RunIsMaximal(line, p);
      if e - p != n {
        CloseIsFirst(line, e, n);
        forall s | p <= s < e
          ensures !IsRunOf(line, s, n)
        {
          RunStartsOnce(line, p, s, n);
        }
      }
    }
  }

  /** A run of exactly `n` backticks starts here: not in the middle of a longer one. */
  ghost predicate IsRunOf(line: string, s: nat, n: nat) {
    TickAt(line, s) && (s == 0 || !TickAt(line, s - 1)) && RunEnd(line, s) == s + n
  }

  lemma RunStartsOnce(line: string, p: nat, s: nat, n: nat)
    requires TickAt(line, p) && p <= s < RunEnd(line, p) && RunEnd(line, p) != p + n
    ensures !IsRunOf(line, s, n)
  {
    RunIsMaximal(line, p);
  }
}
