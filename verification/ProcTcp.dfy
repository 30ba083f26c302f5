/** Whether a process holds a TCP socket, from bracketed samples of the kernel's tables
    (scripts/proc_tcp.py). */
module ProcTcp {
  import opened Wrappers

  type Inode = string

  datatype Error = Unavailable | TooLarge | BadHeader | BadRow | TooManyDescriptors | NamespaceChanged | Unclassified(unknown: nat)

  const MAX_BYTES := 1024 * 1024
  const MAX_SNAPSHOTS := 8

  // ----- One table -----

  /** A table of the kernel, split into fields; `inode` says its header names that column. */
  datatype File = Absent | Unreadable | Data(size: nat, rows: nat, inode: bool, fields: seq<seq<string>>)

  predicate IsNumber(s: string) { s != "" && forall c <- s :: '0' <= c <= '9' }

  predicate Readable(row: seq<string>, index: nat) { index < |row| && IsNumber(row[index]) }

  /** `read_table`: the inodes of every row, or no table at all. */
  method ReadTable(file: File, index: nat, optional: bool) returns (r: Result<set<Inode>, Error>)
    ensures r.Ok? <==> (file.Absent? && optional) || Whole(file, index)
    ensures r.Ok? ==> r.value == InodesOf(file, index)
  {
    match file
    case Absent => return if optional then Ok({}) else Err(Unavailable);
    case Unreadable => return Err(Unavailable);
    case Data(size, rows, inode, fields) =>
      if size > MAX_BYTES {
        return Err(TooLarge);
      }
      if rows == 0 || !inode {
        return Err(BadHeader);
      }
      var inodes: set<Inode> := {};
      for i := 0 to |fields|
        invariant forall j :: 0 <= j < i ==> Readable(fields[j], index)
        invariant forall x :: x in inodes <==> exists j :: 0 <= j < i && InRow(fields[j], index, x)
      {
        if !Readable(fields[i], index) {
          return Err(BadRow);
        }
        inodes := inodes + {fields[i][index]};
        assert InRow(fields[i], index, fields[i][index]);
      }
      assert inodes == InodesOf(file, index);
      r := Ok(inodes);
  }

  ghost predicate Whole(file: File, index: nat) {
    && file.Data? && file.size <= MAX_BYTES && file.rows > 0 && file.inode
    && forall row <- file.fields :: index < |row| && row[index] != "" && forall c <- row[index] :: c in "0123456789"
  }

  predicate InRow(row: seq<string>, index: nat, x: Inode) { index < |row| && row[index] == x }

  ghost function InodesOf(file: File, index: nat): set<Inode> {
    if file.Data? then set row | row in file.fields && index < |row| :: row[index] else {}
  }

  // ----- The tables together -----

  /** The files under `net`: TCP's two, `unix`, and the tables that may be absent, each with
      its inode column: udp, udp6, raw, raw6 and netlink at 9, packet at 8. */
  datatype Net = Net(tcp: File, tcp6: File, unix: File, optional: seq<(File, nat)>)

  datatype Tables = Tables(tcp: set<Inode>, other: set<Inode>)

  ghost function Joined(files: seq<(File, nat)>, n: nat): set<Inode>
    requires n <= |files|
  {
    if n == 0 then {} else Joined(files, n - 1) + InodesOf(files[n - 1].0, files[n - 1].1)
  }

  /** `socket_tables`: no answer unless both TCP tables were read whole, and `unix` too. */
  method SocketTables(net: Net) returns (r: Result<Tables, Error>)
    ensures r.Ok? <==> Whole(net.tcp, 9) && Whole(net.tcp6, 9) && Whole(net.unix, 6)
                       && forall o <- net.optional :: o.0.Absent? || Whole(o.0, o.1)
    ensures r.Ok? ==> r.value.tcp == InodesOf(net.tcp, 9) + InodesOf(net.tcp6, 9)
    ensures r.Ok? ==> r.value.other == InodesOf(net.unix, 6) + Joined(net.optional, |net.optional|)
  {
    var tcp := ReadTable(net.tcp, 9, false);
    if tcp.Err? {
      return Err(tcp.error);
    }
    var tcp6 := ReadTable(net.tcp6, 9, false);
    if tcp6.Err? {
      return Err(tcp6.error);
    }
    var unix := ReadTable(net.unix, 6, false);
    if unix.Err? {
      return Err(unix.error);
    }
    var other := unix.value;
    for i := 0 to |net.optional|
      invariant other == unix.value + Joined(net.optional, i)
      invariant forall j :: 0 <= j < i ==> net.optional[j].0.Absent? || Whole(net.optional[j].0, net.optional[j].1)
    {
      var more := ReadTable(net.optional[i].0, net.optional[i].1, true);
      if more.Err? {
        return Err(more.error);
      }
      other := other + more.value;
    }
    r := Ok(Tables(tcp.value + tcp6.value, other));
  }

  // ----- Samples -----

  /** What one sample reads, in order; `None` where reading fails. */
  datatype Sample = Sample(namespace: Option<string>, before: Result<Tables, Error>, descriptors: Result<set<(string, Inode)>, Error>,
                           after: Result<Tables, Error>, later: Option<string>)

  datatype Verdict = Found(count: nat) | Clear(count: nat) | Unclear(unknown: nat) | Failed(error: Error)

  function Seen(descriptors: set<(string, Inode)>): set<Inode> {
    set d | d in descriptors :: d.1
  }

  /** What a sample whose reads all succeeded says. */
  function Judge(before: Tables, seen: set<Inode>, after: Tables, same: bool): Verdict {
    if seen * (before.tcp + after.tcp) != {} then Found(|seen|)
    else if !same then Failed(NamespaceChanged)
    else if seen <= before.other + after.other then Clear(|seen|)
    else Unclear(|seen - (before.other + after.other)|)
  }

  function VerdictOf(s: Sample): Verdict {
    if s.namespace.None? then Failed(Unavailable)
    else if s.before.Err? then Failed(s.before.error)
    else if s.descriptors.Err? then Failed(s.descriptors.error)
    else if s.after.Err? then Failed(s.after.error)
    else
      var seen := Seen(s.descriptors.value);
      if seen * (s.before.value.tcp + s.after.value.tcp) == {} && s.later.None? then Failed(Unavailable)
      else Judge(s.before.value, seen, s.after.value, s.namespace == s.later)
  }

  datatype Answer = Answer(tcp: bool, count: nat)

  /** One turn of `inspect`: the reads in order, each of which may fail. */
  method Take(s: Sample) returns (v: Verdict)
    ensures v == VerdictOf(s)
  {
    if s.namespace.None? {
      return Failed(Unavailable);
    }
    if s.before.Err? {
      return Failed(s.before.error);
    }
    if s.descriptors.Err? {
      return Failed(s.descriptors.error);
    }
    var seen := Seen(s.descriptors.value);
    if s.after.Err? {
      return Failed(s.after.error);
    }
    if seen * (s.before.value.tcp + s.after.value.tcp) != {} {
      return Found(|seen|);
    }
    if s.later.None? {
      return Failed(Unavailable);
    }
    if s.namespace != s.later {
      return Failed(NamespaceChanged);
    }
    var known := s.before.value.other + s.after.value.other;
    NoneLeft(seen, known);
    v := if |seen - known| == 0 then Clear(|seen|) else Unclear(|seen - known|);
  }

  /** `inspect`: samples until one decides, at most eight. */
  method Inspect(sample: nat -> Sample) returns (r: Result<Answer, Error>, taken: nat)
    ensures 1 <= taken <= MAX_SNAPSHOTS
    ensures forall k: nat :: k < taken - 1 ==> VerdictOf(sample(k)).Unclear?
    ensures match VerdictOf(sample(taken - 1))
            case Found(n) => r == Ok(Answer(true, n))
            case Clear(n) => r == Ok(Answer(false, n))
            case Failed(e) => r == Err(e)
            case Unclear(n) => taken == MAX_SNAPSHOTS && r == Err(Unclassified(n))
  {
    taken := 0;
    var unknown: nat := 0;
    while taken < MAX_SNAPSHOTS
      invariant taken <= MAX_SNAPSHOTS
      invariant forall k: nat :: k < taken ==> VerdictOf(sample(k)).Unclear?
      invariant taken > 0 ==> VerdictOf(sample(taken - 1)) == Unclear(unknown)
    {
      var v := Take(sample(taken));
      taken := taken + 1;
      match v
      case Found(n) => return Ok(Answer(true, n)), taken;
      case Clear(n) => return Ok(Answer(false, n)), taken;
      case Failed(e) => return Err(e), taken;
      case Unclear(n) => unknown := n;
    }
    r := Err(Unclassified(unknown));
  }

  lemma NoneLeft(seen: set<Inode>, known: set<Inode>)
    ensures |seen - known| == 0 <==> seen <= known
  {
    assert forall x :: x in seen - known <==> x in seen && x !in known;
    if seen <= known {
      assert seen - known == {};
    }
  }

  // ----- What a clear answer means -----

  /** A clear sample saw only sockets that a table other than TCP's lists, and none that
      either reading of the TCP tables lists. */
  lemma ClearExactlyWhen(s: Sample)
    ensures VerdictOf(s).Clear? <==>
            && s.namespace.Some? && s.later == s.namespace && s.before.Ok? && s.descriptors.Ok? && s.after.Ok?
            && forall x <- Seen(s.descriptors.value) :: Elsewhere(x, s.before.value, s.after.value)
  {
    if s.before.Ok? && s.descriptors.Ok? && s.after.Ok? {
      JudgedClear(s.before.value, Seen(s.descriptors.value), s.after.value, s.namespace == s.later);
    }
  }

  /** In a table other than TCP's, and in no reading of TCP's. */
  predicate Elsewhere(x: Inode, before: Tables, after: Tables) {
    x !in before.tcp && x !in after.tcp && (x in before.other || x in after.other)
  }

  lemma JudgedClear(before: Tables, seen: set<Inode>, after: Tables, same: bool)
    ensures Judge(before, seen, after, same).Clear? <==> same && forall x <- seen :: Elsewhere(x, before, after)
    ensures (forall x <- seen :: Elsewhere(x, before, after)) ==> seen * (before.tcp + after.tcp) == {}
  {
    var tcp := before.tcp + after.tcp;
    if seen * tcp != {} {
      var x :| x in seen * tcp;
      assert !Elsewhere(x, before, after);
    } else {
      forall x | x in seen
        ensures x !in before.tcp && x !in after.tcp
      {
        assert x !in seen * tcp;
      }
    }
  }

  /** The machine over time: the inodes its TCP tables list, and those the process has open. */
  datatype Kernel = Kernel(tcp: set<Inode>, tcp6: set<Inode>, open: set<Inode>)

  /** When a sample's reads happen: the TCP tables, the scan of the descriptors from its start
      to its end, and the TCP tables again; and the sockets whose descriptors the scan comes to
      at each moment. */
  datatype Times = Times(tcp: nat, tcp6: nat, scan: nat, scanned: nat, tcpAgain: nat, tcp6Again: nat, looks: nat -> set<Inode>) {
    predicate InOrder() { tcp <= tcp6 <= scan <= scanned <= tcpAgain <= tcp6Again }
  }

  ghost predicate OpenThrough(kernel: nat -> Kernel, x: Inode, from: nat, to: nat) {
    forall t: nat :: from <= t <= to ==> x in kernel(t).open
  }

  ghost predicate ListedThrough(kernel: nat -> Kernel, x: Inode, from: nat, to: nat) {
    || (forall t: nat :: from <= t <= to ==> x in kernel(t).tcp)
    || (forall t: nat :: from <= t <= to ==> x in kernel(t).tcp6)
  }

  /** The scan came to a descriptor of the socket at a moment when it was open. */
  ghost predicate Met(kernel: nat -> Kernel, at: Times, x: Inode) {
    exists t: nat :: at.scan <= t <= at.scanned && x in at.looks(t) && x in kernel(t).open
  }

  /** The scan comes to every descriptor that stays open. */
  ghost predicate ComesToAll(kernel: nat -> Kernel, at: Times) {
    forall x :: OpenThrough(kernel, x, at.scan, at.scanned) ==> exists t: nat :: at.scan <= t <= at.scanned && x in at.looks(t)
  }

  /** The sample reads what is there at those times. */
  ghost predicate Taken(s: Sample, kernel: nat -> Kernel, at: Times) {
    && at.InOrder() && s.before.Ok? && s.descriptors.Ok? && s.after.Ok?
    && s.before.value.tcp == kernel(at.tcp).tcp + kernel(at.tcp6).tcp6
    && s.after.value.tcp == kernel(at.tcpAgain).tcp + kernel(at.tcp6Again).tcp6
    && ComesToAll(kernel, at) && forall x :: x in Seen(s.descriptors.value) <==> Met(kernel, at, x)
  }

  /** Listed at one of the four moments at which a TCP table is read. */
  ghost predicate ListedAtARead(kernel: nat -> Kernel, at: Times, x: Inode) {
    || x in kernel(at.tcp).tcp || x in kernel(at.tcp6).tcp6
    || x in kernel(at.tcpAgain).tcp || x in kernel(at.tcp6Again).tcp6
  }

  /** Being open through the scan is enough to be met by it, and being open at some moment of it
      is needed. */
  lemma MetBetween(kernel: nat -> Kernel, at: Times, x: Inode)
    requires ComesToAll(kernel, at)
    ensures OpenThrough(kernel, x, at.scan, at.scanned) ==> Met(kernel, at, x)
    ensures Met(kernel, at, x) ==> exists t: nat :: at.scan <= t <= at.scanned && x in kernel(t).open
  {
    if OpenThrough(kernel, x, at.scan, at.scanned) {
      var t: nat :| at.scan <= t <= at.scanned && x in at.looks(t);
      assert x in kernel(t).open;
    }
    if Met(kernel, at, x) {
      var t: nat :| at.scan <= t <= at.scanned && x in at.looks(t) && x in kernel(t).open;
    }
  }

  /** Any socket counts as TCP exactly when the scan met it and it is listed at one of the reads:
      what happens between them does not matter. */
  lemma CountsExactlyWhen(s: Sample, kernel: nat -> Kernel, at: Times, x: Inode)
    requires Taken(s, kernel, at)
    ensures x in Seen(s.descriptors.value) * (s.before.value.tcp + s.after.value.tcp) <==>
            Met(kernel, at, x) && ListedAtARead(kernel, at, x)
  {
    assert x in Seen(s.descriptors.value) <==> Met(kernel, at, x);
  }

  lemma FoundIsCounted(s: Sample)
    requires s.namespace.Some? && s.before.Ok? && s.descriptors.Ok? && s.after.Ok?
    ensures VerdictOf(s).Found? <==> Seen(s.descriptors.value) * (s.before.value.tcp + s.after.value.tcp) != {}
  {
  }

  /** So a sample answers that there is TCP exactly when some socket was met by the scan and
      listed at one of the reads. */
  lemma FoundExactlyWhen(s: Sample, kernel: nat -> Kernel, at: Times)
    requires s.namespace.Some? && Taken(s, kernel, at)
    ensures VerdictOf(s).Found? <==> exists x :: Met(kernel, at, x) && ListedAtARead(kernel, at, x)
  {
    FoundIsCounted(s);
    var counted := Seen(s.descriptors.value) * (s.before.value.tcp + s.after.value.tcp);
    if x :| Met(kernel, at, x) && ListedAtARead(kernel, at, x) {
      CountsExactlyWhen(s, kernel, at, x);
      assert x in counted;
    }
    if counted != {} {
      var x :| x in counted;
      CountsExactlyWhen(s, kernel, at, x);
    }
  }

  /** A TCP socket open during the scan, and listed from the first reading of the tables to the
      scan or from the scan to the second, is never missed. */
  lemma BracketedSocketIsFound(s: Sample, kernel: nat -> Kernel, at: Times, x: Inode)
    requires s.namespace.Some? && Taken(s, kernel, at) && OpenThrough(kernel, x, at.scan, at.scanned)
    requires ListedThrough(kernel, x, at.tcp, at.scan) || ListedThrough(kernel, x, at.scanned, at.tcp6Again)
    ensures VerdictOf(s).Found?
  {
    MetBetween(kernel, at, x);
    assert ListedAtARead(kernel, at, x);
    FoundExactlyWhen(s, kernel, at);
  }

  /** After a clear answer no socket that the scan met was listed at any read, and each is listed
      in another table. */
  lemma ClearMeansNoneListed(s: Sample, kernel: nat -> Kernel, at: Times, x: Inode)
    requires VerdictOf(s).Clear? && Taken(s, kernel, at) && Met(kernel, at, x)
    ensures !ListedAtARead(kernel, at, x) && (x in s.before.value.other || x in s.after.value.other)
  {
    CountsExactlyWhen(s, kernel, at, x);
    ClearExactlyWhen(s);
    assert x in Seen(s.descriptors.value);
  }

  /** So after a clear answer there was no such socket in the sample that gave it. */
  lemma ClearAnswerMissesNothing(s: Sample, kernel: nat -> Kernel, at: Times)
    requires VerdictOf(s).Clear? && Taken(s, kernel, at)
    ensures forall x :: OpenThrough(kernel, x, at.scan, at.scanned) ==>
              !ListedThrough(kernel, x, at.tcp, at.scan) && !ListedThrough(kernel, x, at.scanned, at.tcp6Again)
  {
    forall x | OpenThrough(kernel, x, at.scan, at.scanned)
      ensures !ListedThrough(kernel, x, at.tcp, at.scan) && !ListedThrough(kernel, x, at.scanned, at.tcp6Again)
    {
      MetBetween(kernel, at, x);
      ClearMeansNoneListed(s, kernel, at, x);
    }
  }

  // ----- The limits of sampling -----

  /** A TCP socket that is there at moment 1, and at moment 2 if it `stays`. */
  function Brief(x: Inode, stays: bool): nat -> Kernel {
    (t: nat) => if t == 1 || (t == 2 && stays) then Kernel({x}, {}, {x}) else Kernel({}, {}, {})
  }

  /** Tables at 0, the scan from 1 to 2, tables at 3; the scan comes to the socket at 2. */
  function Around(x: Inode): Times {
    Times(0, 0, 1, 2, 3, 3, (t: nat) => if t == 2 then {x} else {})
  }

  lemma BriefIsMet(x: Inode, stays: bool, y: Inode)
    ensures Met(Brief(x, stays), Around(x), y) <==> stays && y == x
    ensures OpenThrough(Brief(x, stays), y, 1, 2) <==> stays && y == x
    ensures ComesToAll(Brief(x, stays), Around(x))
  {
    var kernel, at := Brief(x, stays), Around(x);
    assert y in kernel(2).open <==> stays && y == x;
    forall z | OpenThrough(kernel, z, at.scan, at.scanned)
      ensures exists t: nat :: at.scan <= t <= at.scanned && z in at.looks(t)
    {
      assert z in kernel(2).open;
      assert z in at.looks(2);
    }
    if stays && y == x {
      assert y in at.looks(2) && y in kernel(2).open;
    }
  }

  lemma BriefIsTaken(s: Sample, x: Inode, stays: bool)
    requires s.before.Ok? && s.descriptors.Ok? && s.after.Ok? && s.before.value.tcp == {} && s.after.value.tcp == {}
    requires Seen(s.descriptors.value) == if stays then {x} else {}
    ensures Taken(s, Brief(x, stays), Around(x))
  {
    forall y: Inode
      ensures y in Seen(s.descriptors.value) <==> Met(Brief(x, stays), Around(x), y)
    {
      BriefIsMet(x, stays, y);
    }
    BriefIsMet(x, stays, x);
  }

  /** A TCP socket that closes before the scan comes to it is missed: it is not met. */
  lemma BriefSocketCanBeMissed(x: Inode) returns (s: Sample)
    ensures var kernel, at := Brief(x, false), Around(x);
            && Taken(s, kernel, at) && VerdictOf(s).Clear?
            && at.scan < at.scanned && x in kernel(at.scan).tcp && x in kernel(at.scan).open && !Met(kernel, at, x)
  {
    s := Sample(Some("n"), Ok(Tables({}, {})), Ok({}), Ok(Tables({}, {})), Some("n"));
    BriefIsTaken(s, x, false);
    BriefIsMet(x, false, x);
    ClearExactlyWhen(s);
  }

  /** One that is open, and listed, through the whole scan is missed too when it is listed at no
      read and its number, used before for another kind of socket, is in another table. */
  lemma UnlistedSocketCanBeMissed(x: Inode) returns (s: Sample)
    ensures var kernel, at := Brief(x, true), Around(x);
            && Taken(s, kernel, at) && VerdictOf(s).Clear? && OpenThrough(kernel, x, at.scan, at.scanned)
            && ListedThrough(kernel, x, at.scan, at.scanned) && !ListedAtARead(kernel, at, x)
  {
    var descriptors := {("4", x)};
    assert ("4", x) in descriptors && Seen(descriptors) == {x};
    s := Sample(Some("n"), Ok(Tables({}, {x})), Ok(descriptors), Ok(Tables({}, {})), Some("n"));
    BriefIsTaken(s, x, true);
    BriefIsMet(x, true, x);
    ClearExactlyWhen(s);
  }
}
