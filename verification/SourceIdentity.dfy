/** The byte stream hashed as a source tree's identity (scripts/benchmark_manifest.py), and a
    decoder for it. */
module SourceIdentity {
  import opened ByteStrings
  import opened Wrappers

  // ----- Numbers -----

  function Pow(k: nat): nat {
    if k == 0 then 1 else 256 * Pow(k - 1)
  }

  /** What eight bytes can count to. */
  const LIMIT := 0x1_0000_0000_0000_0000

  lemma EightBytes()
    ensures Pow(8) == LIMIT
  {
    assert Pow(4) == 0x1_0000_0000;
  }

  /** The low `k` bytes of `n`, most significant first. */
  function Big(n: nat, k: nat): (b: Bytes)
    ensures |b| == k
  {
    if k == 0 then [] else Big(n / 256, k - 1) + [(n % 256) as byte]
  }

  function FromBig(b: Bytes): nat {
    if b == [] then 0 else FromBig(b[..|b| - 1]) * 256 + b[|b| - 1] as nat
  }

  lemma {:induction false} BigRoundTrip(n: nat, k: nat)
    requires n < Pow(k)
    ensures FromBig(Big(n, k)) == n
  {
    if k > 0 {
      BigRoundTrip(n / 256, k - 1);
      assert Big(n, k)[..k - 1] == Big(n / 256, k - 1);
    }
  }

  /** `str(n).encode()`. */
  function Decimal(n: nat): (d: Bytes)
    ensures d != [] && forall i :: 0 <= i < |d| ==> 48 <= d[i] < 58
  {
    if n < 10 then [(48 + n) as byte] else Decimal(n / 10) + [(48 + n % 10) as byte]
  }

  /** The number that digits add to one already read. */
  function Value(acc: nat, d: Bytes): nat {
    if d == [] then acc else 10 * Value(acc, d[..|d| - 1]) + if d[|d| - 1] >= 48 then (d[|d| - 1] - 48) as nat else 0
  }

  lemma {:induction false} DecimalRoundTrip(n: nat)
    ensures Value(0, Decimal(n)) == n
  {
    if n >= 10 {
      DecimalRoundTrip(n / 10);
      assert Decimal(n)[..|Decimal(n)| - 1] == Decimal(n / 10);
    } else {
      assert Decimal(n)[..0] == [];
    }
  }

  // ----- Entries -----

  /** What stands at a path; `size` is what the file system reports for a file. */
  datatype Kind = Link(target: Bytes) | File(mode: nat, size: nat, contents: Bytes) | Missing

  datatype Entry = Entry(path: Bytes, kind: Kind)

  const LINK: Bytes := [108, 105, 110, 107, 0]
  const FILE: Bytes := [102, 105, 108, 101, 0]
  const MISSING: Bytes := [109, 105, 115, 115, 105, 110, 103, 0]

  /** What stands before each kind of entry. */
  lemma TagsAreNamed()
    ensures LINK == Ascii("link") + [0] && FILE == Ascii("file") + [0] && MISSING == Ascii("missing") + [0]
  {
  }

  /** The execute bits of a mode, `& 0o111`. */
  function ExecuteBits(mode: nat): nat {
    mode / 64 % 2 * 64 + mode / 8 % 2 * 8 + mode % 2
  }

  /** Bit `k` of a number. */
  function Bit(mode: nat, k: nat): nat { mode / Power2(k) % 2 }

  function Power2(k: nat): (p: nat)
    ensures p > 0
  {
    if k == 0 then 1 else 2 * Power2(k - 1)
  }

  /** The mask keeps the execute bits of owner, group and others, and no more: two modes come to
      the same exactly when they agree on all three. */
  lemma ExecuteBitsAre(a: nat, b: nat)
    ensures ExecuteBits(a) == ExecuteBits(b) <==> Bit(a, 6) == Bit(b, 6) && Bit(a, 3) == Bit(b, 3) && Bit(a, 0) == Bit(b, 0)
    ensures Bit(ExecuteBits(a), 6) == Bit(a, 6) && Bit(ExecuteBits(a), 3) == Bit(a, 3) && Bit(ExecuteBits(a), 0) == Bit(a, 0)
    ensures ExecuteBits(a) <= 64 + 8 + 1
  {
    assert Power2(3) == 8 && Power2(6) == 64 && Power2(0) == 1 by {
      assert Power2(2) == 4 && Power2(4) == 16 && Power2(5) == 32;
    }
    MaskBits(a / 64 % 2, a / 8 % 2, a % 2);
    MaskBits(b / 64 % 2, b / 8 % 2, b % 2);
  }

  lemma MaskBits(x: nat, y: nat, z: nat)
    requires x < 2 && y < 2 && z < 2
    ensures var m := x * 64 + y * 8 + z; m / 64 % 2 == x && m / 8 % 2 == y && m % 2 == z
  {
  }

  function Sized(data: Bytes): Bytes { Big(|data|, 8) + data }

  function Described(kind: Kind): Bytes {
    match kind
    case Link(target) => LINK + Sized(target)
    case File(mode, size, contents) => FILE + (Decimal(mode) + [0]) + (Big(size, 8) + contents)
    case Missing => MISSING
  }

  function Encoded(e: Entry): Bytes {
    Sized(e.path) + (Described(e.kind) + [0])
  }

  /** How an entry is written. */
  type Code = Entry -> Bytes

  /** The first `n` entries, one after another. */
  function StreamTo(code: Code, entries: seq<Entry>, n: nat): Bytes
    requires n <= |entries|
  {
    if n == 0 then [] else StreamTo(code, entries, n - 1) + code(entries[n - 1])
  }

  function Stream(entries: seq<Entry>): Bytes { StreamTo(Encoded, entries, |entries|) }

  /** Lengths fit their eight bytes, and a file is as long as the file system says. */
  ghost predicate Fits(e: Entry) {
    && |e.path| < LIMIT
    && match e.kind
       case Link(target) => |target| < LIMIT
       case File(_, size, contents) => size == |contents| < LIMIT
       case Missing => true
  }

  // ----- The decoder -----

  predicate Has(s: Bytes, at: nat, part: Bytes) {
    at + |part| <= |s| && s[at..at + |part|] == part
  }

  function ReadSized(s: Bytes, at: nat): (r: Option<(Bytes, nat)>)
    ensures r.Some? ==> at < r.value.1 <= |s|
  {
    if at + 8 > |s| then None else
    var n := FromBig(s[at..at + 8]);
    if at + 8 + n > |s| then None else Some((s[at + 8..at + 8 + n], at + 8 + n))
  }

  /** Digits up to a zero byte. */
  function ReadDecimal(s: Bytes, at: nat, acc: nat): (r: Option<(nat, nat)>)
    ensures r.Some? ==> at < r.value.1 <= |s|
    decreases |s| - at
  {
    if at >= |s| then None
    else if s[at] == 0 then Some((acc, at + 1))
    else if s[at] < 48 then None
    else ReadDecimal(s, at + 1, 10 * acc + (s[at] - 48) as nat)
  }

  function ReadFile(s: Bytes, at: nat): (r: Option<(Kind, nat)>)
    ensures r.Some? ==> at <= r.value.1 <= |s|
  {
    match ReadDecimal(s, at, 0)
    case None => None
    case Some((mode, next)) =>
      match ReadSized(s, next)
      case None => None
      case Some((contents, end)) => Some((File(mode, |contents|, contents), end))
  }

  function ReadKind(s: Bytes, at: nat): (r: Option<(Kind, nat)>)
    ensures r.Some? ==> at <= r.value.1 <= |s|
  {
    if Has(s, at, LINK) then
      match ReadSized(s, at + 5)
      case None => None
      case Some((target, end)) => Some((Link(target), end))
    else if Has(s, at, FILE) then ReadFile(s, at + 5)
    else if Has(s, at, MISSING) then Some((Missing, at + 8))
    else None
  }

  function ReadEntry(s: Bytes, at: nat): (r: Option<(Entry, nat)>)
    ensures r.Some? ==> at < r.value.1 <= |s|
  {
    match ReadSized(s, at)
    case None => None
    case Some((path, next)) =>
      match ReadKind(s, next)
      case None => None
      case Some((kind, end)) => if Has(s, end, [0]) then Some((Entry(path, kind), end + 1)) else None
  }

  /** An entry reader, as the decoding loop sees it. */
  type Reader = (Bytes, nat) -> Option<(Entry, nat)>

  function DecodeFrom(s: Bytes, at: nat, read: Reader, done: seq<Entry>): Option<seq<Entry>>
    decreases |s| - at
  {
    if at >= |s| then Some(done) else
    match read(s, at)
    case None => None
    case Some((e, next)) => if next <= at then None else DecodeFrom(s, next, read, done + [e])
  }

  function Decode(s: Bytes): Option<seq<Entry>> {
    DecodeFrom(s, 0, ReadEntry, [])
  }

  // ----- Each part is read back -----

  lemma ReadsSized(s: Bytes, at: nat, data: Bytes)
    requires LiesAt(s, at, Sized(data)) && |data| < LIMIT
    ensures ReadSized(s, at) == Some((data, at + 8 + |data|))
  {
    LiesWithin(s, at, Big(|data|, 8), data);
    EightBytes();
    BigRoundTrip(|data|, 8);
  }

  lemma ValueGoes(acc: nat, digit: byte, rest: Bytes)
    requires digit >= 48
    ensures Value(acc, [digit] + rest) == Value(10 * acc + (digit - 48) as nat, rest)
  {
    if rest == [] {
      assert [digit] + rest == [digit];
      assert [digit][..0] == [];
    } else {
      var most := rest[..|rest| - 1];
      ValueGoes(acc, digit, most);
      assert ([digit] + rest)[..|rest|] == [digit] + most;
    }
  }

  lemma {:induction false} ReadsDigits(s: Bytes, at: nat, acc: nat, d: Bytes)
    requires LiesAt(s, at, d + [0]) && forall i :: 0 <= i < |d| ==> 48 <= d[i] < 58
    ensures ReadDecimal(s, at, acc) == Some((Value(acc, d), at + |d| + 1))
    decreases |d|
  {
    LiesWithin(s, at, d, [0]);
    if d == [] {
      assert s[at..at + 1] == [0];
    } else {
      var rest := d[1..];
      assert d + [0] == [d[0]] + (rest + [0]);
      LiesWithin(s, at, [d[0]], rest + [0]);
      assert s[at..at + 1][0] == d[0];
      ReadsDigits(s, at + 1, 10 * acc + (d[0] - 48) as nat, rest);
      assert d == [d[0]] + rest;
      ValueGoes(acc, d[0], rest);
    }
  }

  lemma FileGoes(s: Bytes, at: nat, next: nat, mode: nat, contents: Bytes, end: nat)
    requires ReadDecimal(s, at, 0) == Some((mode, next)) && ReadSized(s, next) == Some((contents, end))
    ensures ReadFile(s, at) == Some((File(mode, |contents|, contents), end))
  {
  }

  lemma ReadsFile(s: Bytes, at: nat, mode: nat, decimal: Bytes, sized: Bytes, contents: Bytes)
    requires LiesAt(s, at, decimal + sized) && |contents| < LIMIT
    requires decimal == Decimal(mode) + [0] && sized == Sized(contents)
    ensures ReadFile(s, at) == Some((File(mode, |contents|, contents), at + |decimal| + |sized|))
  {
    LiesWithin(s, at, decimal, sized);
    ReadsMode(s, at, mode);
    ReadsSized(s, at + |decimal|, contents);
    FileGoes(s, at, at + |decimal|, mode, contents, at + |decimal| + |sized|);
  }

  lemma ReadsMode(s: Bytes, at: nat, mode: nat)
    requires LiesAt(s, at, Decimal(mode) + [0])
    ensures ReadDecimal(s, at, 0) == Some((mode, at + |Decimal(mode) + [0]|))
  {
    ReadsDigits(s, at, 0, Decimal(mode));
    DecimalRoundTrip(mode);
  }

  lemma StartsWith(s: Bytes, at: nat, part: Bytes, other: Bytes)
    requires LiesAt(s, at, part) && part != [] && other != [] && part[0] != other[0]
    ensures !Has(s, at, other)
  {
    assert s[at] == s[at..at + |part|][0];
    if at + |other| <= |s| {
      assert s[at] == s[at..at + |other|][0];
    }
  }

  lemma ReadsKind(s: Bytes, at: nat, e: Entry)
    requires LiesAt(s, at, Described(e.kind)) && Fits(e)
    ensures ReadKind(s, at) == Some((e.kind, at + |Described(e.kind)|))
  {
    match e.kind
    case Link(target) =>
      LiesWithin(s, at, LINK, Sized(target));
      ReadsSized(s, at + 5, target);
    case File(mode, size, contents) =>
      assert Described(e.kind) == FILE + ((Decimal(mode) + [0]) + Sized(contents));
      LiesWithin(s, at, FILE, (Decimal(mode) + [0]) + Sized(contents));
      StartsWith(s, at, FILE, LINK);
      ReadsFile(s, at + 5, mode, Decimal(mode) + [0], Sized(contents), contents);
    case Missing =>
      StartsWith(s, at, MISSING, LINK);
      StartsWith(s, at, MISSING, FILE);
  }

  lemma EntryGoes(s: Bytes, at: nat, path: Bytes, next: nat, kind: Kind, end: nat)
    requires ReadSized(s, at) == Some((path, next)) && ReadKind(s, next) == Some((kind, end)) && LiesAt(s, end, [0])
    ensures ReadEntry(s, at) == Some((Entry(path, kind), end + 1))
  {
  }

  lemma PartsLie(s: Bytes, at: nat, sized: Bytes, described: Bytes)
    requires LiesAt(s, at, sized + (described + [0]))
    ensures LiesAt(s, at, sized) && LiesAt(s, at + |sized|, described) && LiesAt(s, at + |sized| + |described|, [0])
  {
    LiesWithin(s, at, sized, described + [0]);
    LiesWithin(s, at + |sized|, described, [0]);
  }

  lemma ReadsEntry(s: Bytes, at: nat, e: Entry, sized: Bytes, described: Bytes)
    requires LiesAt(s, at, sized) && LiesAt(s, at + |sized|, described) && LiesAt(s, at + |sized| + |described|, [0])
    requires sized == Sized(e.path) && described == Described(e.kind) && Fits(e)
    ensures ReadEntry(s, at) == Some((e, at + |sized| + |described| + 1))
  {
    ReadsSized(s, at, e.path);
    ReadsRest(s, at, at + |sized|, e, described);
  }

  lemma ReadsRest(s: Bytes, at: nat, next: nat, e: Entry, described: Bytes)
    requires ReadSized(s, at) == Some((e.path, next)) && Fits(e) && described == Described(e.kind)
    requires LiesAt(s, next, described) && LiesAt(s, next + |described|, [0])
    ensures ReadEntry(s, at) == Some((e, next + |described| + 1))
  {
    ReadsKind(s, next, e);
    EntryGoes(s, at, e.path, next, e.kind, next + |described|);
  }

  // ----- The stream is read back -----

  /** The entries from the `k`-th on lie one after another from `at` to the end. */
  ghost predicate Stored(s: Bytes, at: nat, code: Code, entries: seq<Entry>, k: nat)
    requires k <= |entries|
    decreases |entries| - k
  {
    if k == |entries| then at == |s|
    else LiesAt(s, at, code(entries[k])) && Stored(s, at + |code(entries[k])|, code, entries, k + 1)
  }

  /** The reader undoes the code, wherever an entry lies. */
  ghost predicate Undoes(read: Reader, code: Code, s: Bytes, e: Entry) {
    code(e) != [] && forall at: nat {:trigger LiesAt(s, at, code(e))} :: LiesAt(s, at, code(e)) ==> read(s, at) == Some((e, at + |code(e)|))
  }

  lemma DecodeGoes(s: Bytes, at: nat, read: Reader, code: Code, done: seq<Entry>, e: Entry)
    requires LiesAt(s, at, code(e)) && Undoes(read, code, s, e)
    ensures DecodeFrom(s, at, read, done) == DecodeFrom(s, at + |code(e)|, read, done + [e])
  {
  }

  lemma {:induction false} DecodesWhatIsStored(s: Bytes, at: nat, read: Reader, code: Code, entries: seq<Entry>, k: nat)
    requires k <= |entries| && Stored(s, at, code, entries, k) && forall e <- entries :: Undoes(read, code, s, e)
    ensures DecodeFrom(s, at, read, entries[..k]) == Some(entries)
    decreases |entries| - k
  {
    if k < |entries| {
      DecodesWhatIsStored(s, at + |code(entries[k])|, read, code, entries, k + 1);
      DecodeGoes(s, at, read, code, entries[..k], entries[k]);
      assert entries[..k + 1] == entries[..k] + [entries[k]];
    } else {
      assert entries[..k] == entries;
    }
  }

  lemma {:induction false} StreamPrefix(code: Code, entries: seq<Entry>, k: nat, n: nat)
    requires k <= n <= |entries|
    ensures StreamTo(code, entries, k) <= StreamTo(code, entries, n)
  {
    if k < n {
      StreamPrefix(code, entries, k, n - 1);
    }
  }

  lemma LiesNext(s: Bytes, before: Bytes, one: Bytes)
    requires before + one <= s
    ensures LiesAt(s, |before|, one)
  {
    assert s[|before|..|before| + |one|] == (before + one)[|before|..];
  }

  lemma {:induction false} StreamIsStored(code: Code, entries: seq<Entry>, s: Bytes, k: nat)
    requires k <= |entries| && s == StreamTo(code, entries, |entries|)
    ensures Stored(s, |StreamTo(code, entries, k)|, code, entries, k)
    decreases |entries| - k
  {
    if k < |entries| {
      StreamIsStored(code, entries, s, k + 1);
      StreamPrefix(code, entries, k + 1, |entries|);
      LiesNext(s, StreamTo(code, entries, k), code(entries[k]));
    }
  }

  lemma EntryReads(s: Bytes, at: nat, e: Entry)
    requires LiesAt(s, at, Encoded(e)) && Fits(e)
    ensures ReadEntry(s, at) == Some((e, at + |Encoded(e)|))
  {
    var sized, described := Sized(e.path), Described(e.kind);
    PartsLie(s, at, sized, described);
    ReadsEntry(s, at, e, sized, described);
  }

  lemma EntryIsUndone(s: Bytes, e: Entry, read: Reader, code: Code)
    requires Fits(e) && read == ReadEntry && code == Encoded
    ensures Undoes(read, code, s, e)
  {
    assert |code(e)| > 0;
    forall at: nat | LiesAt(s, at, code(e))
      ensures read(s, at) == Some((e, at + |code(e)|))
    {
      EntryReads(s, at, e);
    }
  }

  /** The decoder recovers every path with its kind, mode bits and contents. */
  lemma DecodeUndoesStream(entries: seq<Entry>)
    requires forall e <- entries :: Fits(e)
    ensures Decode(Stream(entries)) == Some(entries)
  {
    var s := Stream(entries);
    StreamIsStored(Encoded, entries, s, 0);
    forall e | e in entries
      ensures Undoes(ReadEntry, Encoded, s, e)
    {
      EntryIsUndone(s, e, ReadEntry, Encoded);
    }
    DecodesWhatIsStored(s, 0, ReadEntry, Encoded, entries, 0);
    assert entries[..0] == [];
  }

  /** The lengths fit their eight bytes. */
  ghost predicate Short(e: Entry) {
    && |e.path| < LIMIT
    && (e.kind.Link? ==> |e.kind.target| < LIMIT)
    && (e.kind.File? ==> |e.kind.contents| < LIMIT)
  }

  /** A file is as long as the file system says. */
  predicate SizeHolds(e: Entry) { e.kind.File? ==> e.kind.size == |e.kind.contents| }

  lemma ReadSizesHold(s: Bytes, at: nat)
    requires ReadEntry(s, at).Some?
    ensures SizeHolds(ReadEntry(s, at).value.0)
  {
  }

  lemma {:induction false} DecodedAreRead(s: Bytes, at: nat, read: Reader, done: seq<Entry>, good: Entry -> bool)
    requires DecodeFrom(s, at, read, done).Some? && (forall e <- done :: good(e))
    requires forall i: nat :: read(s, i).Some? ==> good(read(s, i).value.0)
    ensures forall e <- DecodeFrom(s, at, read, done).value :: good(e)
    decreases |s| - at
  {
    if at < |s| {
      var (e, next) := read(s, at).value;
      assert good(e);
      DecodedAreRead(s, next, read, done + [e], good);
    }
  }

  /** The decoder recovers a listing exactly when every file in it is as long as its size says. */
  lemma DecodesExactlyWhen(entries: seq<Entry>)
    requires forall e <- entries :: Short(e)
    ensures Decode(Stream(entries)) == Some(entries) <==> forall e <- entries :: SizeHolds(e)
  {
    if forall e <- entries :: SizeHolds(e) {
      assert forall e <- entries :: Fits(e);
      DecodeUndoesStream(entries);
    }
    if Decode(Stream(entries)) == Some(entries) {
      var s := Stream(entries);
      forall i: nat | ReadEntry(s, i).Some?
        ensures SizeHolds(ReadEntry(s, i).value.0)
      {
        ReadSizesHold(s, i);
      }
      DecodedAreRead(s, 0, ReadEntry, [], SizeHolds);
    }
  }

  /** So different listings never give the same stream. */
  lemma StreamIsInjective(a: seq<Entry>, b: seq<Entry>)
    requires (forall e <- a :: Fits(e)) && (forall e <- b :: Fits(e)) && Stream(a) == Stream(b)
    ensures a == b
  {
    DecodeUndoesStream(a);
    DecodeUndoesStream(b);
  }

  /** A file that grows between the size and the reading can pass for two entries. */
  lemma WrongSizeIsAmbiguous(path: Bytes, other: Bytes)
    requires other != []
    ensures var forged := [0] + (Sized(other) + MISSING);
            var a, b := [Entry(path, File(0, 0, forged))], [Entry(path, File(0, 0, [])), Entry(other, Missing)];
            Stream(a) == Stream(b) && a != b
  {
    var forged := [0] + (Sized(other) + MISSING);
    var one, two, three := Entry(path, File(0, 0, forged)), Entry(path, File(0, 0, [])), Entry(other, Missing);
    TwoEntries(two, three);
    OneEntry(one);
    Shifted(Sized(path), FILE + (Decimal(0) + [0]), Big(0, 8), Sized(other), MISSING);
  }

  lemma Shifted(path: Bytes, file: Bytes, size: Bytes, other: Bytes, missing: Bytes)
    ensures path + ((file + (size + ([0] + (other + missing)))) + [0]) == (path + ((file + (size + [])) + [0])) + (other + (missing + [0]))
  {
  }

  lemma OneEntry(e: Entry)
    ensures Stream([e]) == Encoded(e)
  {
    assert StreamTo(Encoded, [e], 0) == [];
    assert StreamTo(Encoded, [e], 1) == [] + Encoded(e);
  }

  lemma TwoEntries(e: Entry, f: Entry)
    ensures Stream([e, f]) == Encoded(e) + Encoded(f)
  {
    assert StreamTo(Encoded, [e, f], 0) == [];
    assert StreamTo(Encoded, [e, f], 1) == [] + Encoded(e);
    assert StreamTo(Encoded, [e, f], 2) == Encoded(e) + Encoded(f);
  }

  // ----- Snapshots -----

  /** The order of byte strings. */
  predicate Less(a: Bytes, b: Bytes) {
    b != [] && (a == [] || a[0] < b[0] || (a[0] == b[0] && Less(a[1..], b[1..])))
  }

  /** It is an order of all byte strings, and the one by the first byte that differs. */
  lemma {:induction false} LessIsTotal(a: Bytes, b: Bytes)
    ensures a == b || Less(a, b) || Less(b, a)
    ensures Less(a, b) <==> a < b || exists i :: 0 <= i < |a| && i < |b| && a[..i] == b[..i] && a[i] < b[i]
  {
    if a != [] && b != [] && a[0] == b[0] {
      LessIsTotal(a[1..], b[1..]);
      assert a == [a[0]] + a[1..] && b == [b[0]] + b[1..];
      FirstDifference(a, b);
    } else if a != [] && b != [] {
      assert a[..0] == b[..0];
    }
  }

  lemma FirstDifference(a: Bytes, b: Bytes)
    requires a != [] && b != [] && a[0] == b[0]
    ensures a < b <==> a[1..] < b[1..]
    ensures (exists i :: 0 <= i < |a| && i < |b| && a[..i] == b[..i] && a[i] < b[i]) <==>
            (exists i :: 0 <= i < |a[1..]| && i < |b[1..]| && a[1..][..i] == b[1..][..i] && a[1..][i] < b[1..][i])
  {
    if i :| 0 <= i < |a| && i < |b| && a[..i] == b[..i] && a[i] < b[i] {
      assert a[1..][..i - 1] == a[..i][1..] && b[1..][..i - 1] == b[..i][1..];
      assert a[1..][i - 1] < b[1..][i - 1];
    }
    if i :| 0 <= i < |a[1..]| && i < |b[1..]| && a[1..][..i] == b[1..][..i] && a[1..][i] < b[1..][i] {
      assert a[..i + 1] == [a[0]] + a[1..][..i] && b[..i + 1] == [b[0]] + b[1..][..i];
      assert a[i + 1] < b[i + 1];
    }
  }

  lemma {:induction false} LessIsStrict(a: Bytes)
    ensures !Less(a, a)
  {
    if a != [] {
      LessIsStrict(a[1..]);
    }
  }

  lemma {:induction false} LessIsTransitive(a: Bytes, b: Bytes, c: Bytes)
    requires Less(a, b) && Less(b, c)
    ensures Less(a, c)
  {
    if a != [] && a[0] == b[0] == c[0] {
      LessIsTransitive(a[1..], b[1..], c[1..]);
    }
  }

  type Snapshot = map<Bytes, Kind>

  /** The listing of a snapshot: every path once, in order. */
  ghost predicate Lists(entries: seq<Entry>, snapshot: Snapshot) {
    && (forall i, j :: 0 <= i < j < |entries| ==> Less(entries[i].path, entries[j].path))
    && (forall e <- entries :: e.path in snapshot && snapshot[e.path] == e.kind)
    && (forall path <- snapshot :: Entry(path, snapshot[path]) in entries)
  }

  /** Two listings that agree so far agree on the next entry. */
  lemma NextAgrees(a: seq<Entry>, b: seq<Entry>, snapshot: Snapshot, k: nat)
    requires Lists(a, snapshot) && Lists(b, snapshot) && k < |a| && k <= |b| && a[..k] == b[..k]
    ensures k < |b| && a[k] == b[k]
  {
    var j := FindFrom(a, b, snapshot, k, k);
    var i := FindFrom(b, a, snapshot, k, k);
    if k < j && k < i {
      LessIsTransitive(b[k].path, a[k].path, b[k].path);
    }
    LessIsStrict(b[k].path);
  }

  /** Where an entry past the agreed part of one listing is in the other. */
  lemma FindFrom(a: seq<Entry>, b: seq<Entry>, snapshot: Snapshot, i: nat, k: nat) returns (j: nat)
    requires Lists(a, snapshot) && Lists(b, snapshot) && k <= i < |a| && k <= |b| && a[..k] == b[..k]
    ensures k <= j < |b| && b[j] == a[i]
  {
    assert Entry(a[i].path, snapshot[a[i].path]) in b;
    j :| 0 <= j < |b| && b[j] == a[i];
    if j < k {
      assert a[j] == a[..k][j] == b[..k][j] == a[i];
      LessIsStrict(a[i].path);
    }
  }

  lemma {:induction false} ListingsAgree(a: seq<Entry>, b: seq<Entry>, snapshot: Snapshot, k: nat)
    requires Lists(a, snapshot) && Lists(b, snapshot) && k <= |a| && k <= |b| && a[..k] == b[..k]
    ensures a == b
    decreases |a| + |b| - 2 * k
  {
    if k < |a| {
      NextAgrees(a, b, snapshot, k);
      assert a[..k + 1] == a[..k] + [a[k]] && b[..k + 1] == b[..k] + [b[k]];
      ListingsAgree(a, b, snapshot, k + 1);
    } else if k < |b| {
      NextAgrees(b, a, snapshot, k);
    } else {
      assert a == a[..k] && b == b[..k];
    }
  }

  lemma SameListing(a: seq<Entry>, s: Snapshot, t: Snapshot)
    requires Lists(a, s) && Lists(a, t)
    ensures s == t
  {
    forall path | path in s
      ensures path in t && t[path] == s[path]
    {
      assert Entry(path, s[path]) in a;
    }
    forall path | path in t
      ensures path in s
    {
      assert Entry(path, t[path]) in a;
    }
  }

  /** Two source trees have the same stream exactly when they are the same. */
  lemma SameStreamExactlyWhenSame(a: seq<Entry>, s: Snapshot, b: seq<Entry>, t: Snapshot)
    requires Lists(a, s) && Lists(b, t) && (forall e <- a :: Fits(e)) && (forall e <- b :: Fits(e))
    ensures Stream(a) == Stream(b) <==> s == t
  {
    if Stream(a) == Stream(b) {
      StreamIsInjective(a, b);
      SameListing(a, s, t);
    }
    if s == t {
      ListingsAgree(a, b, s, 0);
    }
  }

  // ----- The loop that feeds the hash -----

  /** A hash is what it is fed, in any pieces. */
  class Hasher {
    var fed: Bytes

    constructor ()
      ensures fed == []
    {
      fed := [];
    }

    method Update(data: Bytes)
      modifies this
      ensures fed == old(fed) + data
    {
      fed := fed + data;
    }
  }

  const MIB := 0x10_0000

  /** A file's contents, read a megabyte at a time. */
  method FeedContents(h: Hasher, contents: Bytes)
    modifies h
    ensures h.fed == old(h.fed) + contents
  {
    var at := 0;
    while at < |contents|
      invariant at <= |contents| && h.fed == old(h.fed) + contents[..at]
    {
      var end := if at + MIB < |contents| then at + MIB else |contents|;
      assert contents[..end] == contents[..at] + contents[at..end];
      h.Update(contents[at..end]);
      at := end;
    }
    assert contents[..at] == contents;
  }

  /** What the file system says, with the mode cut to its execute bits. */
  function Masked(kind: Kind): Kind {
    if kind.File? then kind.(mode := ExecuteBits(kind.mode)) else kind
  }

  method FeedFile(h: Hasher, digits: Bytes, size: Bytes, contents: Bytes)
    modifies h
    ensures h.fed == old(h.fed) + (FILE + (digits + [0]) + (size + contents))
  {
    ghost var before := h.fed;
    h.Update(FILE + digits + [0]);
    h.Update(size);
    FeedContents(h, contents);
    assert FILE + digits + [0] == FILE + (digits + [0]);
    assert before + (FILE + (digits + [0])) + size + contents == before + (FILE + (digits + [0]) + (size + contents));
  }

  method FeedKind(h: Hasher, kind: Kind)
    modifies h
    ensures h.fed == old(h.fed) + Described(Masked(kind))
  {
    match kind
    case Link(target) =>
      assert LINK + Big(|target|, 8) + target == LINK + Sized(target);
      h.Update(LINK + Big(|target|, 8) + target);
    case File(mode, size, contents) => FeedFile(h, Decimal(ExecuteBits(mode)), Big(size, 8), contents);
    case Missing => h.Update(MISSING);
  }

  lemma PartsAdd(before: Bytes, sized: Bytes, described: Bytes)
    ensures before + sized + described + [0] == before + (sized + (described + [0]))
  {
  }

  method FeedEntry(h: Hasher, path: Bytes, kind: Kind)
    modifies h
    ensures h.fed == old(h.fed) + Encoded(Entry(path, Masked(kind)))
  {
    PartsAdd(h.fed, Sized(path), Described(Masked(kind)));
    h.Update(Sized(path));
    FeedKind(h, kind);
    h.Update([0]);
  }

  /** The entries of the first `n` paths listed; the empty path is passed over. */
  function EntriesTo(listing: seq<Bytes>, look: Bytes -> Kind, n: nat): seq<Entry>
    requires n <= |listing|
  {
    if n == 0 then [] else
    var path := listing[n - 1];
    if path == [] then EntriesTo(listing, look, n - 1) else EntriesTo(listing, look, n - 1) + [Entry(path, Masked(look(path)))]
  }

  lemma {:induction false} StreamOfMore(code: Code, entries: seq<Entry>, e: Entry, n: nat)
    requires n <= |entries|
    ensures StreamTo(code, entries + [e], n) == StreamTo(code, entries, n)
  {
    if n > 0 {
      StreamOfMore(code, entries, e, n - 1);
    }
  }

  lemma OneMoreEntry(code: Code, entries: seq<Entry>, e: Entry)
    ensures StreamTo(code, entries + [e], |entries| + 1) == StreamTo(code, entries, |entries|) + code(e)
  {
    StreamOfMore(code, entries, e, |entries|);
  }

  ghost function FedTo(listing: seq<Bytes>, look: Bytes -> Kind, n: nat): Bytes
    requires n <= |listing|
  {
    Stream(EntriesTo(listing, look, n))
  }

  lemma FeedGoes(before: Bytes, listing: seq<Bytes>, look: Bytes -> Kind, n: nat)
    requires n < |listing|
    ensures var path := listing[n];
            before + FedTo(listing, look, n + 1) ==
            if path == [] then before + FedTo(listing, look, n)
            else (before + FedTo(listing, look, n)) + Encoded(Entry(path, Masked(look(path))))
  {
    var path := listing[n];
    if path != [] {
      OneMoreEntry(Encoded, EntriesTo(listing, look, n), Entry(path, Masked(look(path))));
    }
  }

  /** The loop: what the hash is fed is the stream of the entries. */
  method Identify(h: Hasher, listing: seq<Bytes>, look: Bytes -> Kind)
    modifies h
    ensures h.fed == old(h.fed) + Stream(EntriesTo(listing, look, |listing|))
  {
    for n := 0 to |listing|
      invariant h.fed == old(h.fed) + FedTo(listing, look, n)
    {
      var path := listing[n];
      FeedGoes(old(h.fed), listing, look, n);
      if path != [] {
        FeedEntry(h, path, look(path));
      }
    }
  }

  // ----- What the loop feeds is the listing of the tree -----

  ghost predicate Sorted(listing: seq<Bytes>) {
    forall i, j :: 0 <= i < j < |listing| ==> Less(listing[i], listing[j])
  }

  /** The tree as the listing and the file system show it. */
  ghost function Tree(listing: seq<Bytes>, look: Bytes -> Kind): Snapshot {
    map path | path in listing && path != [] :: Masked(look(path))
  }

  lemma {:induction false} EntriesAre(listing: seq<Bytes>, look: Bytes -> Kind, n: nat)
    requires n <= |listing| && Sorted(listing)
    ensures forall e <- EntriesTo(listing, look, n) :: e.path in listing[..n] && e.path != [] && e.kind == Masked(look(e.path))
    ensures forall path <- listing[..n] :: path != [] ==> Entry(path, Masked(look(path))) in EntriesTo(listing, look, n)
    ensures forall i, j :: 0 <= i < j < |EntriesTo(listing, look, n)| ==> Less(EntriesTo(listing, look, n)[i].path, EntriesTo(listing, look, n)[j].path)
  {
    if n > 0 {
      EntriesAre(listing, look, n - 1);
      var before, path := EntriesTo(listing, look, n - 1), listing[n - 1];
      assert listing[..n] == listing[..n - 1] + [path];
      forall e | e in before
        ensures Less(e.path, path)
      {
        var i :| 0 <= i < n - 1 && listing[..n - 1][i] == e.path;
        assert listing[i] == e.path;
      }
    }
  }

  lemma EntriesListTree(listing: seq<Bytes>, look: Bytes -> Kind)
    requires Sorted(listing)
    ensures Lists(EntriesTo(listing, look, |listing|), Tree(listing, look))
  {
    EntriesAre(listing, look, |listing|);
    assert listing[..|listing|] == listing;
  }

  /** Two runs of the loop over sorted listings feed the same bytes exactly when the trees are the
      same. */
  lemma SameIdentityExactlyWhenSame(a: seq<Bytes>, look: Bytes -> Kind, b: seq<Bytes>, look': Bytes -> Kind)
    requires Sorted(a) && Sorted(b)
    requires (forall e <- EntriesTo(a, look, |a|) :: Fits(e)) && (forall e <- EntriesTo(b, look', |b|) :: Fits(e))
    ensures Stream(EntriesTo(a, look, |a|)) == Stream(EntriesTo(b, look', |b|)) <==> Tree(a, look) == Tree(b, look')
  {
    EntriesListTree(a, look);
    EntriesListTree(b, look');
    SameStreamExactlyWhenSame(EntriesTo(a, look, |a|), Tree(a, look), EntriesTo(b, look', |b|), Tree(b, look'));
  }
}
