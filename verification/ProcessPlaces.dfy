/** Where the running processes are (scripts/build_storage.py, `process_table`,
    `process_places`, `read_lsof`, `ended`), from the answers of /proc, lsof, ps and kill. */
module ProcessPlaces {
  import opened Wrappers
  import opened Worktrees
  import opened ProcLinks
  import ResourceKeys

  /** What was learnt of the processes asked about. */
  datatype Placing = Placing(places: map<nat, seq<Path>>, unread: set<nat>, exited: set<nat>)

  function At(places: map<nat, seq<Path>>, pid: nat): seq<Path> {
    if pid in places then places[pid] else []
  }

  /** Each process asked about ends in exactly one of three: fully placed, alive but unread,
      or exited; nothing else is called unread or exited. */
  ghost predicate Sorted(p: Placing, pids: seq<nat>, placed: set<nat>) {
    && (forall pid <- pids :: pid in placed || pid in p.unread || pid in p.exited)
    && p.unread !! p.exited && p.unread !! placed && p.exited !! placed
    && (forall pid :: pid in p.unread || pid in p.exited || pid in placed ==> pid in pids)
  }

  // ----- /proc -----

  /** What /proc answers for a process: its links, where they can be read. */
  datatype Links = Links(cwd: Option<string>, exe: Option<string>, ended: bool) {
    predicate Full() { cwd.Some? && exe.Some? }
    function Places(): seq<Path> {
      (if cwd.Some? then [LinkPath(cwd.value)] else []) + if exe.Some? then [LinkPath(exe.value)] else []
    }
  }

  function PlaceOf(link: Option<string>): Option<Path> {
    if link.Some? then Some(LinkPath(link.value)) else None
  }

  /** What is known of one process agrees with its links, once it has been looked at. */
  ghost predicate Agrees(p: Placing, pid: nat, looked: bool, links: Links) {
    && (pid in p.unread <==> looked && (links.cwd.None? || links.exe.None?) && !links.ended)
    && (pid in p.exited <==> looked && (links.cwd.None? || links.exe.None?) && links.ended)
    && (forall place :: place in At(p.places, pid) <==> looked && (Some(place) == PlaceOf(links.cwd) || Some(place) == PlaceOf(links.exe)))
  }

  ghost predicate FromProc(p: Placing, seen: set<nat>, links: nat -> Links) {
    forall pid :: Agrees(p, pid, pid in seen, links(pid))
  }

  function Add(places: map<nat, seq<Path>>, pid: nat, more: seq<Path>): map<nat, seq<Path>> {
    if more == [] then places else places[pid := At(places, pid) + more]
  }

  function Look(p: Placing, pid: nat, links: Links): Placing {
    Placing(Add(p.places, pid, links.Places()),
            if !links.Full() && !links.ended then p.unread + {pid} else p.unread,
            if !links.Full() && links.ended then p.exited + {pid} else p.exited)
  }

  lemma LookAgrees(p: Placing, pid: nat, links: Links, looked: bool)
    requires Agrees(p, pid, looked, links)
    ensures Agrees(Look(p, pid, links), pid, true, links)
  {
    assert At(Look(p, pid, links).places, pid) == At(p.places, pid) + links.Places();
    forall place
      ensures place in links.Places() <==> Some(place) == PlaceOf(links.cwd) || Some(place) == PlaceOf(links.exe)
    {
      if Some(place) == PlaceOf(links.cwd) {
        assert links.Places()[0] == place;
      } else if Some(place) == PlaceOf(links.exe) {
        assert links.Places()[|links.Places()| - 1] == place;
      }
    }
  }

  lemma LookElsewhere(p: Placing, pid: nat, links: Links, q: nat, looked: bool, other: Links)
    requires Agrees(p, q, looked, other) && q != pid
    ensures Agrees(Look(p, pid, links), q, looked, other)
  {
    assert At(Look(p, pid, links).places, q) == At(p.places, q);
  }

  lemma ProcIsSorted(p: Placing, pids: seq<nat>, seen: set<nat>, links: nat -> Links, placed: set<nat>)
    requires FromProc(p, seen, links) && (forall pid :: pid in seen <==> pid in pids)
    requires forall pid :: pid in placed <==> pid in pids && links(pid).Full()
    ensures Sorted(p, pids, placed)
  {
    forall pid: nat
      ensures Agrees(p, pid, pid in seen, links(pid))
      ensures pid in p.unread <==> pid in pids && !links(pid).Full() && !links(pid).ended
      ensures pid in p.exited <==> pid in pids && !links(pid).Full() && links(pid).ended
    {
      assert Agrees(p, pid, pid in seen, links(pid));
    }
  }

  lemma OneMoreFromProc(p: Placing, seen: set<nat>, links: nat -> Links, pid: nat)
    requires FromProc(p, seen, links)
    ensures FromProc(Look(p, pid, links(pid)), seen + {pid}, links)
  {
    forall q
      ensures Agrees(Look(p, pid, links(pid)), q, q in seen + {pid}, links(q))
    {
      assert Agrees(p, q, q in seen, links(q));
      if q == pid {
        LookAgrees(p, pid, links(pid), pid in seen);
      } else {
        LookElsewhere(p, pid, links(pid), q, q in seen, links(q));
      }
    }
  }

  method PlacesFromProc(pids: seq<nat>, links: nat -> Links) returns (p: Placing, ghost placed: set<nat>)
    ensures FromProc(p, (set pid | pid in pids), links)
    ensures placed == (set pid | pid in pids && links(pid).cwd.Some? && links(pid).exe.Some?) && Sorted(p, pids, placed)
  {
    p := Placing(map[], {}, {});
    ghost var seen: set<nat> := {};
    for i := 0 to |pids|
      invariant seen == set pid | pid in pids[..i]
      invariant FromProc(p, seen, links)
    {
      var pid := pids[i];
      OneMoreFromProc(p, seen, links, pid);
      assert pids[..i + 1] == pids[..i] + [pid];
      seen := seen + {pid};
      p := Look(p, pid, links(pid));
    }
    assert pids[..|pids|] == pids;
    placed := set pid | pid in pids && links(pid).Full();
    ProcIsSorted(p, pids, seen, links, placed);
  }

  // ----- lsof -----

  /** The descriptors that must be read before a process is ruled out of a worktree. */
  datatype Required = Cwd | Txt

  /** A line of `lsof -F pfn`: a process, when its number can be read; a descriptor, when it
      is one of the required; a name, when it is a path. */
  datatype Line = Pid(pid: Option<nat>) | Descriptor(name: Option<Required>) | Name(path: Option<Path>) | Other

  predicate IsDigit(c: char) { '0' <= c <= '9' }

  predicate IsNumber(s: string) { s != "" && forall c <- s :: IsDigit(c) }

  function Number(s: string): nat {
    if s == "" then 0 else 10 * Number(s[..|s| - 1]) + if IsDigit(s[|s| - 1]) then s[|s| - 1] as int - '0' as int else 0
  }

  function LineOf(text: string): Line {
    if text == "" then Other else
    var value := text[1..];
    match text[0]
    case 'p' => Pid(if IsNumber(value) then Some(Number(value)) else None)
    case 'f' => Descriptor(if value == "cwd" then Some(Cwd) else if value == "txt" then Some(Txt) else None)
    case 'n' => Name(if "/" <= value then Some(PathOf(value)) else None)
    case _ => Other
  }

  /** The digits of a number. */
  function Digits(n: nat): (d: string)
    ensures d != ""
  {
    if n < 10 then [(n + '0' as int) as char] else Digits(n / 10) + [(n % 10 + '0' as int) as char]
  }

  /** Reading the digits of a number gives the number. */
  lemma {:induction false} NumberOfDigits(n: nat)
    ensures IsNumber(Digits(n)) && Number(Digits(n)) == n
  {
    var d := Digits(n);
    if n >= 10 {
      NumberOfDigits(n / 10);
      assert d[..|d| - 1] == Digits(n / 10);
      assert forall c <- d :: c in Digits(n / 10) || c == d[|d| - 1];
    } else {
      assert d[..0] == "";
    }
  }

  lemma NumbersAreDigits(s: string)
    ensures IsNumber(s) <==> s != "" && forall c <- s :: c in "0123456789"
  {
    forall c: char
      ensures IsDigit(c) <==> c in "0123456789"
    {
      if IsDigit(c) {
        assert "0123456789"[c as int - '0' as int] == c;
      }
    }
  }

  /** A process's line names it by its number, if the rest of the line is one. */
  lemma PidLineMeans(n: nat, value: string)
    ensures LineOf("p" + Digits(n)) == Pid(Some(n))
    ensures value == "" || (exists c <- value :: c !in "0123456789") ==> LineOf("p" + value) == Pid(None)
  {
    NumberOfDigits(n);
    NumbersAreDigits(value);
    assert ("p" + Digits(n))[1..] == Digits(n) && ("p" + value)[1..] == value;
  }

  /** Any other line says one of the two descriptors, or another; a path, if the rest begins as
      one; or nothing. */
  lemma LineMeans(value: string, tag: char)
    ensures LineOf("") == Other
    ensures LineOf("f" + value) == Descriptor(if value == "cwd" then Some(Cwd) else if value == "txt" then Some(Txt) else None)
    ensures value == "" || value[0] != '/' ==> LineOf("n" + value) == Name(None)
    ensures value != "" && value[0] == '/' ==> LineOf("n" + value) == Name(Some(PathOf(value)))
    ensures tag !in "pfn" ==> LineOf([tag] + value) == Other
  {
    assert ("f" + value)[1..] == value && ("n" + value)[1..] == value && ([tag] + value)[1..] == value;
    TagsAre(tag);
    assert "/" <= value <==> value != "" && value[0] == '/';
  }

  lemma TagsAre(tag: char)
    ensures tag in "pfn" <==> tag == 'p' || tag == 'f' || tag == 'n'
  {
    assert "pfn"[0] == 'p' && "pfn"[1] == 'f' && "pfn"[2] == 'n';
  }

  function Lines(text: seq<string>): seq<Line> {
    seq(|text|, i requires 0 <= i < |text| => LineOf(text[i]))
  }

  /** The process and the descriptor a line stands under: the last ones named, the descriptor
      only until a name uses it up or another process begins. */
  function PidAt(lines: seq<Line>, n: nat): Option<nat>
    requires n <= |lines|
  {
    if n == 0 then None else if lines[n - 1].Pid? then lines[n - 1].pid else PidAt(lines, n - 1)
  }

  function DescriptorAt(lines: seq<Line>, n: nat): Option<Required>
    requires n <= |lines|
  {
    if n == 0 then None
    else match lines[n - 1]
         case Pid(_) => None
         case Descriptor(name) => name
         case Name(_) => None
         case Other => DescriptorAt(lines, n - 1)
  }

  /** Line `k` gives process `pid` a place, under the descriptor `d`. */
  predicate Says(lines: seq<Line>, k: nat, pid: nat, d: Required)
    requires k < |lines|
  {
    && lines[k].Name? && lines[k].path.Some?
    && PidAt(lines, k) == Some(pid) && DescriptorAt(lines, k) == Some(d)
  }

  /** The same, read off the listing: `lines[i]` names the process, `lines[j]` the descriptor,
      and nothing between them and line `k` names another. */
  ghost predicate RecordAt(lines: seq<Line>, i: nat, j: nat, k: nat, pid: nat, d: Required)
    requires i < j < k < |lines|
  {
    && lines[i] == Pid(Some(pid)) && lines[j] == Descriptor(Some(d)) && lines[k].Name? && lines[k].path.Some?
    && (forall m :: i < m < k ==> !lines[m].Pid?)
    && (forall m :: j < m < k ==> lines[m].Other?)
  }

  lemma {:induction false} PidIsLast(lines: seq<Line>, n: nat) returns (i: nat)
    requires n <= |lines| && PidAt(lines, n).Some?
    ensures i < n && lines[i] == Pid(PidAt(lines, n)) && forall m :: i < m < n ==> !lines[m].Pid?
  {
    if lines[n - 1].Pid? {
      i := n - 1;
    } else {
      i := PidIsLast(lines, n - 1);
    }
  }

  lemma {:induction false} DescriptorIsLast(lines: seq<Line>, n: nat) returns (j: nat)
    requires n <= |lines| && DescriptorAt(lines, n).Some?
    ensures j < n && lines[j] == Descriptor(DescriptorAt(lines, n)) && forall m :: j < m < n ==> lines[m].Other?
  {
    if lines[n - 1].Descriptor? {
      j := n - 1;
    } else {
      j := DescriptorIsLast(lines, n - 1);
    }
  }

  lemma {:induction false} PidStands(lines: seq<Line>, i: nat, n: nat)
    requires i < n <= |lines| && lines[i].Pid? && forall m :: i < m < n ==> !lines[m].Pid?
    ensures PidAt(lines, n) == lines[i].pid
  {
    if i + 1 < n {
      PidStands(lines, i, n - 1);
    }
  }

  lemma {:induction false} DescriptorStands(lines: seq<Line>, j: nat, n: nat)
    requires j < n <= |lines| && lines[j].Descriptor? && forall m :: j < m < n ==> lines[m].Other?
    ensures DescriptorAt(lines, n) == lines[j].name
  {
    if j + 1 < n {
      DescriptorStands(lines, j, n - 1);
    }
  }

  /** The running process and descriptor say exactly what the listing says. A descriptor line
      before any process, or one a new process has cut off, gives nothing. */
  lemma SaysWhatIsListed(lines: seq<Line>, k: nat, pid: nat, d: Required)
    requires k < |lines|
    ensures Says(lines, k, pid, d) <==> exists i: nat, j: nat :: i < j < k && RecordAt(lines, i, j, k, pid, d)
  {
    if Says(lines, k, pid, d) {
      var i := PidIsLast(lines, k);
      var j := DescriptorIsLast(lines, k);
      DescriptorUnderPid(lines, i, j, k);
      assert RecordAt(lines, i, j, k, pid, d);
    }
    if i: nat, j: nat :| i < j < k && RecordAt(lines, i, j, k, pid, d) {
      PidStands(lines, i, k);
      DescriptorStands(lines, j, k);
    }
  }

  lemma DescriptorUnderPid(lines: seq<Line>, i: nat, j: nat, k: nat)
    requires i < k <= |lines| && j < k && lines[i].Pid? && lines[j].Descriptor? && forall m :: j < m < k ==> lines[m].Other?
    ensures i < j
  {
    assert !lines[i].Other? && i != j;
  }

  /** What the first `n` lines say of a process. */
  function SeenTo(lines: seq<Line>, n: nat, pid: nat): set<Required>
    requires n <= |lines|
  {
    if n == 0 then {} else
    SeenTo(lines, n - 1, pid) + (if SaysOf(lines, n - 1, pid) then {DescriptorAt(lines, n - 1).value} else {})
  }

  function PathsTo(lines: seq<Line>, n: nat, pid: nat): seq<Path>
    requires n <= |lines|
  {
    if n == 0 then [] else
    PathsTo(lines, n - 1, pid) + (if SaysOf(lines, n - 1, pid) then [lines[n - 1].path.value] else [])
  }

  predicate SaysOf(lines: seq<Line>, k: nat, pid: nat)
    requires k < |lines|
  {
    DescriptorAt(lines, k).Some? && Says(lines, k, pid, DescriptorAt(lines, k).value)
  }

  lemma {:induction false} SeenIsListed(lines: seq<Line>, n: nat, pid: nat, d: Required)
    requires n <= |lines|
    ensures d in SeenTo(lines, n, pid) <==> exists k: nat :: k < n && Says(lines, k, pid, d)
  {
    if n > 0 {
      SeenIsListed(lines, n - 1, pid, d);
      if Says(lines, n - 1, pid, d) {
        assert SaysOf(lines, n - 1, pid);
      }
    }
  }

  /** Everything seen of a process has its path. */
  lemma {:induction false} SeenHasPath(lines: seq<Line>, n: nat, k: nat, pid: nat, d: Required)
    requires k < n <= |lines| && Says(lines, k, pid, d)
    ensures lines[k].path.value in PathsTo(lines, n, pid)
  {
    if k + 1 < n {
      SeenHasPath(lines, n - 1, k, pid, d);
    }
  }

  type Places = map<nat, seq<Path>>
  type Seen = map<nat, set<Required>>

  function SeenAt(seen: Seen, pid: nat): set<Required> {
    if pid in seen then seen[pid] else {}
  }

  /** What `read_lsof` has made of the first `n` lines, for one process. */
  ghost predicate FoldedFor(lines: seq<Line>, n: nat, places0: Places, seen0: Seen, places: Places, seen: Seen, p: nat)
    requires n <= |lines|
  {
    && At(places, p) == At(places0, p) + PathsTo(lines, n, p)
    && SeenAt(seen, p) == SeenAt(seen0, p) + SeenTo(lines, n, p)
  }

  ghost predicate Folded(lines: seq<Line>, n: nat, places0: Places, seen0: Seen, places: Places, seen: Seen)
    requires n <= |lines|
  {
    forall p :: FoldedFor(lines, n, places0, seen0, places, seen, p)
  }

  lemma FoldsNothing(lines: seq<Line>, n: nat, places0: Places, seen0: Seen, places: Places, seen: Seen)
    requires n < |lines| && Folded(lines, n, places0, seen0, places, seen)
    requires forall p :: !SaysOf(lines, n, p)
    ensures Folded(lines, n + 1, places0, seen0, places, seen)
  {
    var next := n + 1;
    forall p
      ensures FoldedFor(lines, next, places0, seen0, places, seen, p)
    {
      assert FoldedFor(lines, n, places0, seen0, places, seen, p) && !SaysOf(lines, n, p);
    }
  }

  lemma FoldsFor(lines: seq<Line>, n: nat, places0: Places, seen0: Seen, places: Places, seen: Seen, places': Places, seen': Seen, pid: nat, p: nat)
    requires n < |lines| && SaysOf(lines, n, pid) && FoldedFor(lines, n, places0, seen0, places, seen, p)
    requires places' == places[pid := At(places, pid) + [lines[n].path.value]]
    requires seen' == seen[pid := SeenAt(seen, pid) + {DescriptorAt(lines, n).value}]
    ensures FoldedFor(lines, n + 1, places0, seen0, places', seen', p)
  {
    assert SaysOf(lines, n, p) <==> p == pid;
  }

  lemma FoldsName(lines: seq<Line>, n: nat, places0: Places, seen0: Seen, places: Places, seen: Seen, places': Places, seen': Seen, pid: nat)
    requires n < |lines| && SaysOf(lines, n, pid) && Folded(lines, n, places0, seen0, places, seen)
    requires places' == places[pid := At(places, pid) + [lines[n].path.value]]
    requires seen' == seen[pid := SeenAt(seen, pid) + {DescriptorAt(lines, n).value}]
    ensures Folded(lines, n + 1, places0, seen0, places', seen')
  {
    var next := n + 1;
    forall p
      ensures FoldedFor(lines, next, places0, seen0, places', seen', p)
    {
      FoldsFor(lines, n, places0, seen0, places, seen, places', seen', pid, p);
    }
  }

  /** `read_lsof`: folds a listing into what is known. */
  method ReadLsof(text: seq<string>, places0: Places, seen0: Seen) returns (places: Places, seen: Seen)
    ensures Folded(Lines(text), |text|, places0, seen0, places, seen)
  {
    ghost var lines := Lines(text);
    places, seen := places0, seen0;
    var pid: Option<nat>, descriptor: Option<Required> := None, None;
    for n := 0 to |text|
      invariant pid == PidAt(lines, n) && descriptor == DescriptorAt(lines, n)
      invariant Folded(lines, n, places0, seen0, places, seen)
    {
      var line := LineOf(text[n]);
      assert line == lines[n];
      if line.Name? && pid.Some? && descriptor.Some? && line.path.Some? {
        ghost var places1, seen1 := places, seen;
        seen := seen[pid.value := SeenAt(seen, pid.value) + {descriptor.value}];
        places := places[pid.value := At(places, pid.value) + [line.path.value]];
        FoldsName(lines, n, places0, seen0, places1, seen1, places, seen, pid.value);
      } else {
        FoldsNothing(lines, n, places0, seen0, places, seen);
      }
      match line
      case Pid(named) => pid, descriptor := named, None;
      case Descriptor(name) => descriptor := name;
      case Name(_) => descriptor := None;
      case Other =>
    }
  }

  // ----- Asking again, in chunks -----

  function Chunked<T>(items: seq<T>, size: nat): seq<seq<T>>
    requires size > 0
  {
    if items == [] then []
    else if |items| <= size then [items]
    else [items[..size]] + Chunked(items[size..], size)
  }

  function Flat<T>(chunks: seq<seq<T>>): seq<T> {
    if chunks == [] then [] else chunks[0] + Flat(chunks[1..])
  }

  lemma FlatGoes<T>(first: seq<T>, rest: seq<seq<T>>)
    ensures Flat([first] + rest) == first + Flat(rest)
  {
    assert ([first] + rest)[1..] == rest;
  }

  /** Everyone is asked about once, in order. */
  lemma {:induction false} ChunksCover<T>(items: seq<T>, size: nat)
    requires size > 0
    ensures Flat(Chunked(items, size)) == items
  {
    if |items| > size {
      ChunksCover(items[size..], size);
      FlatGoes(items[..size], Chunked(items[size..], size));
    } else if items != [] {
      FlatGoes(items, []);
      assert [items] + [] == [items];
    }
  }

  /** No call is empty or too long. */
  lemma {:induction false} ChunksFit<T>(items: seq<T>, size: nat)
    requires size > 0
    ensures forall i :: 0 <= i < |Chunked(items, size)| ==> 1 <= |Chunked(items, size)[i]| <= size
  {
    if |items| > size {
      ChunksFit(items[size..], size);
    }
  }

  /** What `kill` with signal 0 answers. */
  datatype Existence = Exists | NoSuch | Denied

  /** What `ps` says of some processes: whether each is a zombie. */
  type States = seq<(nat, bool)>

  function Zombies(states: Option<States>): set<nat> {
    if states.None? then {} else set s | s in states.value && s.1 :: s.0
  }

  function ZombiesTo(ps: nat -> Option<States>, n: nat): set<nat> {
    if n == 0 then {} else ZombiesTo(ps, n - 1) + Zombies(ps(n - 1))
  }

  /** Those among the first `n` that the kernel does not know, and those to ask `ps` about. */
  function UnknownTo(pids: seq<nat>, signal: nat -> Existence, n: nat): set<nat>
    requires n <= |pids|
  {
    if n == 0 then {} else
    UnknownTo(pids, signal, n - 1) + if pids[n - 1] > 0 && signal(pids[n - 1]).NoSuch? then {pids[n - 1]} else {}
  }

  function PresentTo(pids: seq<nat>, signal: nat -> Existence, n: nat): seq<nat>
    requires n <= |pids|
  {
    if n == 0 then [] else
    if pids[n - 1] > 0 && !signal(pids[n - 1]).NoSuch? then PresentTo(pids, signal, n - 1) + [pids[n - 1]]
    else PresentTo(pids, signal, n - 1)
  }

  function EndedOf(pids: seq<nat>, signal: nat -> Existence, ps: nat -> Option<States>): set<nat> {
    UnknownTo(pids, signal, |pids|) + ZombiesTo(ps, |Chunked(PresentTo(pids, signal, |pids|), 100)|)
  }

  /** `ended`: those the kernel does not know, and those `ps` calls zombies. */
  method Ended(pids: seq<nat>, signal: nat -> Existence, ps: nat -> Option<States>) returns (gone: set<nat>)
    ensures gone == EndedOf(pids, signal, ps)
  {
    gone := {};
    var present: seq<nat> := [];
    for i := 0 to |pids|
      invariant gone == UnknownTo(pids, signal, i) && present == PresentTo(pids, signal, i)
    {
      var pid := pids[i];
      if pid > 0 && signal(pid).NoSuch? {
        gone := gone + {pid};
      } else if pid > 0 {
        present := present + [pid];
      }
    }
    ghost var known := gone;
    for c := 0 to |Chunked(present, 100)|
      invariant gone == known + ZombiesTo(ps, c)
    {
      gone := gone + Zombies(ps(c));
    }
  }

  lemma {:induction false} UnknownAre(pids: seq<nat>, signal: nat -> Existence, n: nat, pid: nat)
    requires n <= |pids|
    ensures pid in UnknownTo(pids, signal, n) <==> pid > 0 && signal(pid).NoSuch? && exists i :: 0 <= i < n && pids[i] == pid
  {
    if n > 0 {
      UnknownAre(pids, signal, n - 1, pid);
      if pids[n - 1] == pid {
      }
    }
  }

  /** The kernel does not know the process, or one of the calls of `ps` has called it a zombie. */
  ghost predicate ToldEnded(pids: seq<nat>, pid: nat, signal: nat -> Existence, ps: nat -> Option<States>) {
    || (pid in pids && pid > 0 && signal(pid).NoSuch?)
    || exists c: nat :: c < |Chunked(PresentTo(pids, signal, |pids|), 100)| && ps(c).Some? && (pid, true) in ps(c).value
  }

  /** Exactly those told to have ended are said to; who cannot be told is taken as alive. */
  lemma EndedWereTold(pids: seq<nat>, signal: nat -> Existence, ps: nat -> Option<States>, pid: nat)
    ensures pid in EndedOf(pids, signal, ps) <==> ToldEnded(pids, pid, signal, ps)
  {
    UnknownAre(pids, signal, |pids|, pid);
    ZombieSomewhere(ps, |Chunked(PresentTo(pids, signal, |pids|), 100)|, pid);
    forall c: nat
      ensures pid in Zombies(ps(c)) <==> ps(c).Some? && (pid, true) in ps(c).value
    {
      ZombiesAre(ps(c), pid);
    }
  }

  lemma ZombiesAre(states: Option<States>, pid: nat)
    ensures pid in Zombies(states) <==> states.Some? && (pid, true) in states.value
  {
    if states.Some? && (pid, true) in states.value {
      assert (pid, true).1;
    }
  }

  lemma {:induction false} ZombieSomewhere(ps: nat -> Option<States>, n: nat, pid: nat)
    ensures pid in ZombiesTo(ps, n) <==> exists c: nat :: c < n && pid in Zombies(ps(c))
  {
    if n > 0 {
      ZombieSomewhere(ps, n - 1, pid);
      if pid in Zombies(ps(n - 1)) {
      }
    }
  }

  /** Everything the listings read so far say of a process. */
  ghost function SeenIn(read: seq<seq<Line>>, pid: nat): set<Required> {
    if read == [] then {} else SeenIn(read[..|read| - 1], pid) + SeenTo(read[|read| - 1], |read[|read| - 1]|, pid)
  }

  ghost function PathsIn(read: seq<seq<Line>>, pid: nat): seq<Path> {
    if read == [] then [] else PathsIn(read[..|read| - 1], pid) + PathsTo(read[|read| - 1], |read[|read| - 1]|, pid)
  }

  ghost predicate ReadFor(read: seq<seq<Line>>, places: Places, seen: Seen, pid: nat) {
    At(places, pid) == PathsIn(read, pid) && SeenAt(seen, pid) == SeenIn(read, pid)
  }

  ghost predicate ReadAll(read: seq<seq<Line>>, places: Places, seen: Seen) {
    forall pid :: ReadFor(read, places, seen, pid)
  }

  lemma OneMoreListing(read: seq<seq<Line>>, lines: seq<Line>, places: Places, seen: Seen, places': Places, seen': Seen)
    requires ReadAll(read, places, seen) && Folded(lines, |lines|, places, seen, places', seen')
    ensures ReadAll(read + [lines], places', seen')
  {
    var more := read + [lines];
    forall pid
      ensures ReadFor(more, places', seen', pid)
    {
      assert ReadFor(read, places, seen, pid);
      assert FoldedFor(lines, |lines|, places, seen, places', seen', pid);
      assert more[..|more| - 1] == read;
    }
  }

  predicate Complete(seen: set<Required>) { Cwd in seen && Txt in seen }

  function IncompleteTo(pids: seq<nat>, seen: Seen, n: nat): seq<nat>
    requires n <= |pids|
  {
    if n == 0 then [] else
    if Complete(SeenAt(seen, pids[n - 1])) then IncompleteTo(pids, seen, n - 1) else IncompleteTo(pids, seen, n - 1) + [pids[n - 1]]
  }

  method Incomplete(pids: seq<nat>, seen: Seen) returns (missing: seq<nat>)
    ensures missing == IncompleteTo(pids, seen, |pids|)
  {
    missing := [];
    for i := 0 to |pids|
      invariant missing == IncompleteTo(pids, seen, i)
    {
      if !Complete(SeenAt(seen, pids[i])) {
        missing := missing + [pids[i]];
      }
    }
  }

  lemma {:induction false} IncompleteAre(pids: seq<nat>, seen: Seen, n: nat, pid: nat)
    requires n <= |pids|
    ensures pid in IncompleteTo(pids, seen, n) <==> !Complete(SeenAt(seen, pid)) && exists i :: 0 <= i < n && pids[i] == pid
  {
    if n > 0 {
      IncompleteAre(pids, seen, n - 1, pid);
      if pids[n - 1] == pid {
      }
    }
  }

  /** `dict.fromkeys`: each once, in the order first met. */
  function Once(paths: seq<Path>): seq<Path> {
    if paths == [] then [] else
    var before, last := Once(paths[..|paths| - 1]), paths[|paths| - 1];
    if last in before then before else before + [last]
  }

  lemma {:induction false} OnceKeepsAll(paths: seq<Path>)
    ensures forall place :: place in Once(paths) <==> place in paths
    ensures forall i, j :: 0 <= i < j < |Once(paths)| ==> Once(paths)[i] != Once(paths)[j]
  {
    if paths != [] {
      OnceKeepsAll(paths[..|paths| - 1]);
      assert paths == paths[..|paths| - 1] + [paths[|paths| - 1]];
    }
  }

  /** The scan, then the answers of the first `n` calls made again. */
  ghost function Listings(scan: seq<string>, again: nat -> Option<seq<string>>, n: nat): seq<seq<Line>> {
    if n == 0 then [Lines(scan)]
    else if again(n - 1).Some? then Listings(scan, again, n - 1) + [Lines(again(n - 1).value)]
    else Listings(scan, again, n - 1)
  }

  /** Exactly those with both of their places in the listings read are placed. */
  ghost function PlacedBy(pids: seq<nat>, read: seq<seq<Line>>): set<nat> {
    set pid | pid in pids && Cwd in SeenIn(read, pid) && Txt in SeenIn(read, pid)
  }

  /** The lsof half of `process_places`: one scan, the incomplete asked about again, and who
      is still missing told apart by whether it has ended. */
  method PlacesFromLsof(pids: seq<nat>, scan: Option<seq<string>>, again: nat -> Option<seq<string>>,
                        signal: nat -> Existence, ps: nat -> Option<States>)
    returns (r: Option<Placing>, ghost read: seq<seq<Line>>, ghost calls: nat, ghost missing: seq<nat>)
    ensures r.None? <==> scan.None?
    ensures r.Some? ==> read == Listings(scan.value, again, calls)
    ensures r.Some? ==> calls == |Chunked(IncompleteIn(pids, Lines(scan.value)), 100)|
    ensures r.Some? ==> Sorted(r.value, pids, PlacedBy(pids, read)) && FromListings(r.value, read, PlacedBy(pids, read))
    ensures r.Some? ==> forall pid :: pid in missing <==> pid in pids && pid !in PlacedBy(pids, read)
    ensures r.Some? ==> forall pid :: pid in r.value.exited <==> pid in missing && ToldEnded(missing, pid, signal, ps)
  {
    read, calls, missing := [], 0, [];
    if scan.None? {
      return None, read, calls, missing;
    }
    var places: Places, seen: Seen := map[], map[];
    ghost var places0, seen0 := places, seen;
    places, seen := ReadLsof(scan.value, places, seen);
    OneMoreListing(read, Lines(scan.value), places0, seen0, places, seen);
    read := [Lines(scan.value)];
    assert [] + [Lines(scan.value)] == read;
    SeenOnce(pids, Lines(scan.value), places, seen);
    var incomplete := Incomplete(pids, seen);
    calls := |Chunked(incomplete, 100)|;
    ghost var first := seen;
    for c := 0 to |Chunked(incomplete, 100)|
      invariant ReadAll(read, places, seen) && read == Listings(scan.value, again, c)
      invariant forall pid :: SeenAt(first, pid) <= SeenAt(seen, pid)
    {
      var more := again(c);
      if more.Some? {
        places0, seen0 := places, seen;
        places, seen := ReadLsof(more.value, places, seen);
        OneMoreListing(read, Lines(more.value), places0, seen0, places, seen);
        SeenGrows(Lines(more.value), places0, seen0, places, seen);
        read := read + [Lines(more.value)];
      }
    }
    var left := Incomplete(incomplete, seen);
    missing := left;
    var gone := Ended(left, signal, ps);
    var p := Placing(map pid | pid in places :: Once(places[pid]),
                     set pid | pid in left && pid !in gone, set pid | pid in left && pid in gone);
    LsofIsSorted(pids, first, seen, read, places, incomplete, missing, p);
    ListingsPlace(p, read, places, seen, PlacedBy(pids, read));
    forall pid: nat
      ensures pid in gone <==> ToldEnded(missing, pid, signal, ps)
    {
      EndedWereTold(missing, signal, ps, pid);
    }
    r := Some(p);
  }

  /** The processes a scan leaves incomplete. */
  ghost function IncompleteIn(pids: seq<nat>, lines: seq<Line>): seq<nat> {
    IncompleteBy(pids, lines, |pids|)
  }

  ghost function IncompleteBy(pids: seq<nat>, lines: seq<Line>, n: nat): seq<nat>
    requires n <= |pids|
  {
    if n == 0 then [] else
    if Complete(SeenTo(lines, |lines|, pids[n - 1])) then IncompleteBy(pids, lines, n - 1) else IncompleteBy(pids, lines, n - 1) + [pids[n - 1]]
  }

  lemma {:induction false} SeenOnceTo(pids: seq<nat>, lines: seq<Line>, places: Places, seen: Seen, n: nat)
    requires n <= |pids| && Folded(lines, |lines|, map[], map[], places, seen)
    ensures IncompleteTo(pids, seen, n) == IncompleteBy(pids, lines, n)
  {
    if n > 0 {
      SeenOnceTo(pids, lines, places, seen, n - 1);
      assert FoldedFor(lines, |lines|, map[], map[], places, seen, pids[n - 1]);
    }
  }

  lemma SeenOnce(pids: seq<nat>, lines: seq<Line>, places: Places, seen: Seen)
    requires Folded(lines, |lines|, map[], map[], places, seen)
    ensures IncompleteTo(pids, seen, |pids|) == IncompleteIn(pids, lines)
  {
    SeenOnceTo(pids, lines, places, seen, |pids|);
  }

  lemma LsofIsSorted(pids: seq<nat>, first: Seen, seen: Seen, read: seq<seq<Line>>, places: Places, incomplete: seq<nat>, missing: seq<nat>, p: Placing)
    requires ReadAll(read, places, seen) && forall pid :: SeenAt(first, pid) <= SeenAt(seen, pid)
    requires incomplete == IncompleteTo(pids, first, |pids|) && missing == IncompleteTo(incomplete, seen, |incomplete|)
    requires p.unread !! p.exited && forall pid :: pid in p.unread || pid in p.exited <==> pid in missing
    ensures Sorted(p, pids, PlacedBy(pids, read))
    ensures forall pid <- PlacedBy(pids, read) :: Complete(SeenAt(seen, pid))
    ensures forall pid :: pid in missing <==> pid in pids && pid !in PlacedBy(pids, read)
  {
    forall pid: nat
      ensures pid in missing <==> pid in pids && !Complete(SeenAt(seen, pid))
      ensures SeenAt(seen, pid) == SeenIn(read, pid)
    {
      IncompleteAre(pids, first, |pids|, pid);
      IncompleteAre(incomplete, seen, |incomplete|, pid);
      assert ReadFor(read, places, seen, pid);
      assert SeenAt(first, pid) <= SeenAt(seen, pid);
    }
  }

  lemma SeenGrows(lines: seq<Line>, places0: Places, seen0: Seen, places: Places, seen: Seen)
    requires Folded(lines, |lines|, places0, seen0, places, seen)
    ensures forall pid :: SeenAt(seen0, pid) <= SeenAt(seen, pid)
  {
    forall pid
      ensures SeenAt(seen0, pid) <= SeenAt(seen, pid)
    {
      assert FoldedFor(lines, |lines|, places0, seen0, places, seen, pid);
    }
  }

  /** Places come from the listings read, and who is called placed has both of its own there. */
  ghost predicate FromListings(p: Placing, read: seq<seq<Line>>, placed: set<nat>) {
    && (forall pid, place :: place in At(p.places, pid) <==> place in PathsIn(read, pid))
    && (forall pid <- placed :: Cwd in SeenIn(read, pid) && Txt in SeenIn(read, pid))
  }

  lemma ListingsPlace(p: Placing, read: seq<seq<Line>>, places: Places, seen: Seen, placed: set<nat>)
    requires ReadAll(read, places, seen) && p.places == map pid | pid in places :: Once(places[pid])
    requires forall pid <- placed :: Complete(SeenAt(seen, pid))
    ensures FromListings(p, read, placed)
  {
    forall pid: nat
      ensures ReadFor(read, places, seen, pid)
      ensures forall place :: place in At(p.places, pid) <==> place in PathsIn(read, pid)
    {
      assert ReadFor(read, places, seen, pid);
      OnceKeepsAll(At(places, pid));
    }
    forall pid | pid in placed
      ensures Cwd in SeenIn(read, pid) && Txt in SeenIn(read, pid)
    {
      assert ReadFor(read, places, seen, pid);
    }
  }

  /** Some listing read names `place` as this descriptor of the process. */
  ghost predicate Names(read: seq<seq<Line>>, pid: nat, d: Required, place: Path) {
    exists l: nat, k: nat :: l < |read| && k < |read[l]| && NamesAt(read[l], k, pid, d, place)
  }

  ghost predicate NamesAt(lines: seq<Line>, k: nat, pid: nat, d: Required, place: Path)
    requires k < |lines|
  {
    Says(lines, k, pid, d) && lines[k].path == Some(place)
  }

  /** What is seen of a process was named somewhere, and its path is among its places. */
  lemma {:induction false} SeenIsNamed(read: seq<seq<Line>>, pid: nat, d: Required) returns (place: Path)
    requires d in SeenIn(read, pid)
    ensures place in PathsIn(read, pid) && Names(read, pid, d, place)
  {
    var before, lines := read[..|read| - 1], read[|read| - 1];
    if d in SeenIn(before, pid) {
      place := SeenIsNamed(before, pid, d);
      var l: nat, k: nat :| l < |before| && k < |before[l]| && NamesAt(before[l], k, pid, d, place);
      assert NamesAt(read[l], k, pid, d, place);
    } else {
      SeenIsListed(lines, |lines|, pid, d);
      var k: nat :| k < |lines| && Says(lines, k, pid, d);
      SeenHasPath(lines, |lines|, k, pid, d);
      place := lines[k].path.value;
      assert NamesAt(read[|read| - 1], k, pid, d, place);
    }
  }

  // ----- The table of processes, and what it keeps -----

  datatype Row = Row(pid: nat, uid: nat, zombie: bool, command: string)

  predicate Mine(row: Row, pid: nat, uid: nat) { row.pid != pid && row.uid == uid && !row.zombie }

  /** The processes asked about: this user's, but neither the caller nor zombies. */
  function Asked(rows: seq<Row>, pid: nat, uid: nat): seq<nat> {
    if rows == [] then [] else (if Mine(rows[0], pid, uid) then [rows[0].pid] else []) + Asked(rows[1..], pid, uid)
  }

  function Table(rows: seq<Row>, pid: nat, uid: nat, p: Placing): seq<Process> {
    if rows == [] then [] else
    (if Mine(rows[0], pid, uid) && rows[0].pid !in p.exited
     then [Process(rows[0].pid, rows[0].command, At(p.places, rows[0].pid), rows[0].pid in p.unread)]
     else []) + Table(rows[1..], pid, uid, p)
  }

  /** Asked about is exactly who is in a row of this user's, is not the caller, and is no zombie. */
  lemma {:induction false} AskedAre(rows: seq<Row>, own: nat, uid: nat, pid: nat)
    ensures pid in Asked(rows, own, uid) <==> exists i :: 0 <= i < |rows| && IsAsked(rows[i], own, uid) && rows[i].pid == pid
  {
    if rows != [] {
      AskedAre(rows[1..], own, uid, pid);
      if i :| 0 <= i < |rows| && IsAsked(rows[i], own, uid) && rows[i].pid == pid {
        assert i > 0 ==> rows[1..][i - 1] == rows[i];
      }
      if i :| 0 <= i < |rows[1..]| && IsAsked(rows[1..][i], own, uid) && rows[1..][i].pid == pid {
        assert rows[i + 1] == rows[1..][i];
      }
    }
  }

  ghost predicate IsAsked(row: Row, own: nat, uid: nat) {
    row.pid != own && row.uid == uid && row.zombie == false
  }

  /** The table has exactly the rows asked about that have not exited, each with its places, and
      blind exactly when it is unread. */
  lemma {:induction false} TableIs(rows: seq<Row>, own: nat, uid: nat, p: Placing, process: Process)
    ensures process in Table(rows, own, uid, p) <==>
            exists i :: 0 <= i < |rows| && IsAsked(rows[i], own, uid) && IsListed(process, rows[i], p)
  {
    if rows != [] {
      TableIs(rows[1..], own, uid, p, process);
      if i :| 0 <= i < |rows| && IsAsked(rows[i], own, uid) && IsListed(process, rows[i], p) {
        assert i > 0 ==> rows[1..][i - 1] == rows[i];
      }
      if i :| 0 <= i < |rows[1..]| && IsAsked(rows[1..][i], own, uid) && IsListed(process, rows[1..][i], p) {
        assert rows[i + 1] == rows[1..][i];
      }
      if Mine(rows[0], own, uid) {
        assert IsAsked(rows[0], own, uid);
      }
    }
  }

  ghost predicate IsListed(process: Process, row: Row, p: Placing) {
    && process.pid == row.pid && row.pid !in p.exited && process.command == row.command
    && process.places == At(p.places, row.pid) && process.blind == (row.pid in p.unread)
  }

  lemma {:induction false} TableHas(rows: seq<Row>, pid: nat, uid: nat, p: Placing, i: nat)
    requires i < |rows| && Mine(rows[i], pid, uid)
    ensures rows[i].pid in Asked(rows, pid, uid)
    ensures rows[i].pid !in p.exited ==>
              Process(rows[i].pid, rows[i].command, At(p.places, rows[i].pid), rows[i].pid in p.unread) in Table(rows, pid, uid, p)
  {
    if i > 0 {
      TableHas(rows[1..], pid, uid, p, i - 1);
    }
  }

  /** A listed process that has not exited keeps every worktree it is placed in, and every
      worktree at all when it could not be placed, whatever else is known. */
  lemma ListedProcessKeeps(rows: seq<Row>, own: nat, uid: nat, p: Placing, i: nat, record: Record, owned: Owned, site: Site,
                           leases: Option<set<string>>, probe: Probe)
    requires i < |rows| && Mine(rows[i], own, uid) && rows[i].pid !in p.exited
    requires rows[i].pid in p.unread || exists place <- At(p.places, rows[i].pid) :: Within(place, record.path)
    ensures Judge(record, owned, site, Known(leases, Some(Table(rows, own, uid, p))), probe).Keep?
  {
    TableHas(rows, own, uid, p, i);
    var process := Process(rows[i].pid, rows[i].command, At(p.places, rows[i].pid), rows[i].pid in p.unread);
    assert MayRunIn(process, record.path);
    FreeExactlyWhen(record, owned, site, Known(leases, Some(Table(rows, own, uid, p))), probe);
  }

  /** A process whose links can be read, and whose working directory is in a worktree, runs in
      it for `decide` exactly when its link tells, its executable is there too, or its command
      line names the worktree. */
  lemma WorkerIsSeenExactlyWhen(row: Row, p: Placing, links: nat -> Links, text: string, removed: bool, exe: string, root: Path)
    requires Agrees(p, row.pid, true, links(row.pid)) && links(row.pid) == Links(Some(LinkText(text, removed)), Some(exe), false)
    requires Within(PathOf(text), root)
    ensures Busy(Process(row.pid, row.command, At(p.places, row.pid), row.pid in p.unread), root) <==>
            || removed || !EndsDeleted(text) || PathOf(text) != root
            || Within(LinkPath(exe), root) || Mentions(row.command, Text(root))
  {
    LinkTellsExactlyWhen(text, removed, root);
    var places := links(row.pid).Places();
    assert places == [LinkPath(LinkText(text, removed)), LinkPath(exe)];
    assert places[0] in At(p.places, row.pid) && places[1] in At(p.places, row.pid);
  }

  /** On /proc: a live process working in a worktree keeps it, whether or not its links can be
      read, unless its working directory is the worktree itself, under a name with the ending
      the kernel gives what is removed. */
  lemma WorkerIsNeverMissedOnProc(rows: seq<Row>, own: nat, uid: nat, p: Placing, links: nat -> Links, i: nat, text: string, removed: bool,
                                  record: Record, owned: Owned, site: Site, leases: Option<set<string>>, probe: Probe)
    requires i < |rows| && Mine(rows[i], own, uid) && FromProc(p, (set pid | pid in Asked(rows, own, uid)), links)
    requires !links(rows[i].pid).ended && (links(rows[i].pid).cwd.Some? ==> links(rows[i].pid).cwd.value == LinkText(text, removed))
    requires Within(PathOf(text), record.path) && (removed || !EndsDeleted(text) || PathOf(text) != record.path)
    ensures Judge(record, owned, site, Known(leases, Some(Table(rows, own, uid, p))), probe).Keep?
  {
    var pid := rows[i].pid;
    TableHas(rows, own, uid, p, i);
    assert Agrees(p, pid, pid in (set q | q in Asked(rows, own, uid)), links(pid));
    LinkTellsExactlyWhen(text, removed, record.path);
    if links(pid).Full() {
      assert links(pid).Places()[0] == LinkPath(LinkText(text, removed));
      assert LinkPath(LinkText(text, removed)) in At(p.places, pid);
    }
    ListedProcessKeeps(rows, own, uid, p, i, record, owned, site, leases, probe);
  }

  lemma NotBusyChangesNothing(process: Process, record: Record, owned: Owned, site: Site, leases: Option<set<string>>, probe: Probe)
    requires !Busy(process, record.path)
    ensures Judge(record, owned, site, Known(leases, Some([process])), probe) == Judge(record, owned, site, Known(leases, Some([])), probe)
  {
    assert FirstBusy([process], record.path, 1) == None;
  }

  /** A worktree under such a name is judged as if the process working in it were not there. */
  lemma WorkerIsMissed(row: Row, own: nat, uid: nat, p: Placing, links: nat -> Links, text: string, exe: string,
                       record: Record, owned: Owned, site: Site, leases: Option<set<string>>, probe: Probe)
    requires Mine(row, own, uid) && row.command == "" && FromProc(p, {row.pid}, links)
    requires links(row.pid) == Links(Some(LinkText(text, false)), Some(exe), false)
    requires EndsDeleted(text) && record.path == PathOf(text) && Text(record.path) != "" && !Within(LinkPath(exe), record.path)
    ensures Judge(record, owned, site, Known(leases, Some(Table([row], own, uid, p))), probe)
         == Judge(record, owned, site, Known(leases, Some([])), probe)
  {
    assert Agrees(p, row.pid, row.pid in {row.pid}, links(row.pid));
    WorkerIsSeenExactlyWhen(row, p, links, text, false, exe, record.path);
    var process := Process(row.pid, row.command, At(p.places, row.pid), row.pid in p.unread);
    assert Table([row], own, uid, p) == [process] + Table([], own, uid, p) == [process];
    NotBusyChangesNothing(process, record, owned, site, leases, probe);
  }

  /** So such a worktree is given up, once merged, under a process that works in it. */
  lemma MissedWorkerLosesCaches(row: Row, own: nat, uid: nat, p: Placing, links: nat -> Links, name: string, exe: string, owned: Owned, site: Site)
    requires Mine(row, own, uid) && row.command == "" && FromProc(p, {row.pid}, links)
    requires links(row.pid) == Links(Some("/" + name), Some("/" + exe), false)
    requires Missable(name) && Plain(exe) && !EndsDeleted("/" + exe) && name != exe
    requires site.root != ["/", name] && site.main != Some(["/", name]) && forall o <- owned :: o.0 != site.target
    ensures var record := Record(["/", name], Some("done"), None);
            && Within(PathOf("/" + name), record.path)
            && Judge(record, owned, site, Known(Some({}), Some(Table([row], own, uid, p))), Probe(Merged, {}, {})).Free?
  {
    PathOfName(name);
    PathOfName(exe);
    var record, probe := Record(["/", name], Some("done"), None), Probe(Merged, {}, {});
    assert ["/", exe][1] != record.path[1];
    assert record.path[0] + ResourceKeys.Join(record.path[1..]) != "";
    WorkerIsMissed(row, own, uid, p, links, "/" + name, "/" + exe, record, owned, site, Some({}), probe);
  }

  predicate Plain(name: string) { '/' !in name && IsName(name) }

  predicate Missable(name: string) { Plain(name) && EndsDeleted("/" + name) }

  lemma SuchNamesThereAre()
    ensures Missable("w (deleted)") && Plain("sh") && !EndsDeleted("/sh")
  {
    assert ("/" + "w (deleted)")[2..] == DELETED;
  }

  /** With lsof: likewise, as long as no listing names a wrong working directory for it, and
      neither kill nor a call of ps that was made says that it has ended. */
  lemma WorkerIsNeverMissedByLsof(rows: seq<Row>, own: nat, uid: nat, p: Placing, read: seq<seq<Line>>, placed: set<nat>,
                                  missing: seq<nat>, signal: nat -> Existence, ps: nat -> Option<States>, i: nat, cwd: Path,
                                  record: Record, owned: Owned, site: Site, leases: Option<set<string>>, probe: Probe)
    requires i < |rows| && Mine(rows[i], own, uid) && Sorted(p, Asked(rows, own, uid), placed) && FromListings(p, read, placed)
    requires forall pid :: pid in p.exited <==> pid in missing && ToldEnded(missing, pid, signal, ps)
    requires !ToldEnded(missing, rows[i].pid, signal, ps) && forall place :: Names(read, rows[i].pid, Cwd, place) ==> place == cwd
    requires Within(cwd, record.path)
    ensures Judge(record, owned, site, Known(leases, Some(Table(rows, own, uid, p))), probe).Keep?
  {
    var pid := rows[i].pid;
    TableHas(rows, own, uid, p, i);
    if pid in placed {
      var place := SeenIsNamed(read, pid, Cwd);
      assert place in At(p.places, pid);
    }
    ListedProcessKeeps(rows, own, uid, p, i, record, owned, site, leases, probe);
  }
}
