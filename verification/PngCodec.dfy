/** The parts of a PNG reader (scripts/png.py): the chunk layout of section 3.2 of RFC 2083,
    and rows stored behind a filter each. What is taken from a chunk and how a line becomes
    RGBA are parameters here; PngFile supplies them. */
module PngCodec {
  import opened ByteStrings
  import opened Wrappers
  import opened PngFilters

  datatype Error = NotPng | BadChunk | BadDepth | Interlaced | BadColour | BadStream | NoHeader | Truncated | UnknownFilter

  const IHDR: Bytes := [73, 72, 68, 82]
  const PLTE: Bytes := [80, 76, 84, 69]
  const IDAT: Bytes := [73, 68, 65, 84]
  const IEND: Bytes := [73, 69, 78, 68]
  const WORD := 0x1_0000_0000

  /** The four kinds of chunk, by their names in section 4.1 of RFC 2083. */
  lemma KindsAreNamed()
    ensures IHDR == Ascii("IHDR") && PLTE == Ascii("PLTE") && IDAT == Ascii("IDAT") && IEND == Ascii("IEND")
  {
  }

  /** The low four bytes of `n`, most significant first. */
  function Be32(n: nat): (b: Bytes)
    ensures |b| == 4
  {
    [(n / 0x100_0000 % 256) as byte, (n / 0x1_0000 % 256) as byte, (n / 256 % 256) as byte, (n % 256) as byte]
  }

  function FromBe32(b: Bytes): nat
    requires |b| == 4
  {
    ((b[0] as int * 256 + b[1] as int) * 256 + b[2] as int) * 256 + b[3] as int
  }

  lemma Be32RoundTrip(n: nat)
    requires n < WORD
    ensures FromBe32(Be32(n)) == n
  {
    var a, b := n / 256, n / 0x1_0000;
    assert a / 256 == b && b / 256 == n / 0x100_0000;
  }

  /** A slice that stops at the end of the data, as Python's does. */
  function Slice(s: Bytes, from: nat, to: nat): Bytes
    requires from <= to
  {
    if to <= |s| then s[from..to] else if from <= |s| then s[from..] else []
  }

  lemma FileParts(data: Bytes, a: Bytes, b: Bytes, c: Bytes, d: Bytes)
    requires data == a + (b + (c + d))
    ensures LiesAt(data, 0, a) && LiesAt(data, |a|, b) && LiesAt(data, |a| + |b|, c) && LiesAt(data, |a| + |b| + |c|, d)
  {
    assert data[0..0 + |data|] == data;
    LiesWithin(data, 0, a, b + (c + d));
    LiesWithin(data, |a|, b, c + d);
    LiesWithin(data, |a| + |b|, c, d);
  }

  lemma RowParts(data: Bytes, i: nat, kind: byte, row: Bytes, rest: Bytes)
    requires LiesAt(data, i, [kind] + row + rest)
    ensures i < |data| && data[i] == kind && LiesAt(data, i + 1, row) && LiesAt(data, i + 1 + |row|, rest)
  {
    LiesWithin(data, i, [kind] + row, rest);
    LiesWithin(data, i, [kind], row);
    assert data[i..i + 1][0] == kind;
  }

  // ----- The chunk loop -----

  type Take<!A> = (Bytes, Bytes, A) -> Result<A, Error>

  /** One turn of the loop: where it stops, or what it goes on with. */
  datatype Turn<A> = Stop(result: Result<A, Error>) | Go(i: nat, acc: A)

  function ParseTurn<A>(data: Bytes, i: nat, acc: A, take: Take<A>): (t: Turn<A>)
    ensures t.Go? ==> i < |data| && i + 12 <= t.i
  {
    if i >= |data| then Stop(Ok(acc))
    else if i + 4 > |data| then Stop(Err(BadChunk))
    else
      var length := FromBe32(data[i..i + 4]);
      var kind := Slice(data, i + 4, i + 8);
      if kind == IEND then Stop(Ok(acc)) else
      match take(kind, Slice(data, i + 8, i + 8 + length), acc)
      case Err(e) => Stop(Err(e))
      case Ok(next) => Go(i + 12 + length, next)
  }

  function ParseFrom<A>(data: Bytes, i: nat, acc: A, take: Take<A>): Result<A, Error>
    decreases |data| - i
  {
    match ParseTurn(data, i, acc, take)
    case Stop(result) => result
    case Go(i', acc') => ParseFrom(data, i', acc', take)
  }

  /** Where a file stops without an end chunk: at the end of its data, which is no error, or in
      the middle of a length, which is. */
  lemma ParseEnds<A>(data: Bytes, i: nat, acc: A, take: Take<A>)
    ensures i >= |data| ==> ParseFrom(data, i, acc, take) == Ok(acc)
    ensures |data| - 3 <= i < |data| ==> ParseFrom(data, i, acc, take) == Err(BadChunk)
  {
  }

  function TurnAfter<A>(taken: Result<A, Error>, next: nat): Turn<A> {
    match taken
    case Err(e) => Stop(Err(e))
    case Ok(acc) => Go(next, acc)
  }

  /** A chunk that the data ends in is taken as far as it goes. */
  lemma CutChunkIsTaken<A>(data: Bytes, i: nat, acc: A, take: Take<A>, length: nat)
    requires i + 4 <= |data| && length == FromBe32(data[i..i + 4])
    ensures |data| <= i + 8 && data[i + 4..] != IEND ==>
              ParseTurn(data, i, acc, take) == TurnAfter(take(data[i + 4..], [], acc), i + 12 + length)
    ensures i + 8 < |data| <= i + 8 + length && data[i + 4..i + 8] != IEND ==>
              ParseTurn(data, i, acc, take) == TurnAfter(take(data[i + 4..i + 8], data[i + 8..], acc), i + 12 + length)
  {
    if |data| <= i + 8 {
      assert Slice(data, i + 4, i + 8) == data[i + 4..] && Slice(data, i + 8, i + 8 + length) == [];
    } else if |data| <= i + 8 + length {
      assert Slice(data, i + 8, i + 8 + length) == data[i + 8..];
    }
  }

  lemma ParseGoes<A>(data: Bytes, i: nat, acc: A, take: Take<A>, turn: Turn<A>)
    requires turn == ParseTurn(data, i, acc, take)
    ensures turn.Stop? ==> ParseFrom(data, i, acc, take) == turn.result
    ensures turn.Go? ==> ParseFrom(data, i, acc, take) == ParseFrom(data, turn.i, turn.acc, take)
  {
  }

  method ChunkLoop<A>(data: Bytes, start: nat, initial: A, take: Take<A>) returns (r: Result<A, Error>)
    ensures r == ParseFrom(data, start, initial, take)
  {
    var i, acc := start, initial;
    while true
      invariant ParseFrom(data, i, acc, take) == ParseFrom(data, start, initial, take)
      decreases |data| - i
    {
      var turn := ParseTurn(data, i, acc, take);
      ParseGoes(data, i, acc, take, turn);
      if turn.Stop? {
        return turn.result;
      }
      i, acc := turn.i, turn.acc;
    }
  }

  datatype Chunk = Chunk(kind: Bytes, body: Bytes)

  /** A chunk the layout can hold: a four-byte kind and a length that fits four bytes. */
  ghost predicate Fits(c: Chunk) { |c.kind| == 4 && |c.body| < WORD }

  function Encoded(c: Chunk, crc: Bytes -> nat): Bytes {
    Be32(|c.body|) + c.kind + c.body + Be32(crc(c.kind + c.body))
  }

  /** The chunks from the `k`th on lie in `data` one after another, from `i` up to `end`. */
  ghost predicate LaidOut(data: Bytes, i: nat, cs: seq<Chunk>, k: nat, end: nat, crc: Bytes -> nat)
    requires k <= |cs|
    decreases |cs| - k
  {
    if k == |cs| then i == end
    else Fits(cs[k]) && LiesAt(data, i, Encoded(cs[k], crc)) && LaidOut(data, i + 12 + |cs[k].body|, cs, k + 1, end, crc)
  }

  /** What the chunks from the `k`th on come to, taken in order. */
  function TakeAll<A>(cs: seq<Chunk>, k: nat, acc: A, take: Take<A>): Result<A, Error>
    requires k <= |cs|
    decreases |cs| - k
  {
    if k == |cs| then Ok(acc) else
    match take(cs[k].kind, cs[k].body, acc)
    case Err(e) => Err(e)
    case Ok(next) => TakeAll(cs, k + 1, next, take)
  }

  lemma ParseOne<A>(data: Bytes, i: nat, c: Chunk, acc: A, take: Take<A>, crc: Bytes -> nat)
    requires Fits(c) && LiesAt(data, i, Encoded(c, crc))
    ensures ParseTurn(data, i, acc, take) ==
              if c.kind == IEND then Stop(Ok(acc)) else
              match take(c.kind, c.body, acc)
              case Err(e) => Stop(Err(e))
              case Ok(next) => Go(i + 12 + |c.body|, next)
  {
    var head, sum := Be32(|c.body|), Be32(crc(c.kind + c.body));
    LiesWithin(data, i, head + c.kind + c.body, sum);
    LiesWithin(data, i, head + c.kind, c.body);
    LiesWithin(data, i, head, c.kind);
    Be32RoundTrip(|c.body|);
  }

  /** Parsing a run of chunks is taking them in order. */
  lemma {:induction false} ParseFollowsChunks<A>(data: Bytes, i: nat, cs: seq<Chunk>, k: nat, end: nat, acc: A, take: Take<A>, crc: Bytes -> nat)
    requires k <= |cs| && LaidOut(data, i, cs, k, end, crc) && forall j :: k <= j < |cs| ==> cs[j].kind != IEND
    ensures var all := TakeAll(cs, k, acc, take);
            ParseFrom(data, i, acc, take) == if all.Err? then all else ParseFrom(data, end, all.value, take)
    decreases |cs| - k
  {
    if k < |cs| {
      ParseOne(data, i, cs[k], acc, take, crc);
      var turn := ParseTurn(data, i, acc, take);
      ParseGoes(data, i, acc, take, turn);
      if turn.Go? {
        ParseFollowsChunks(data, turn.i, cs, k + 1, end, turn.acc, take, crc);
      }
    }
  }

  // ----- The row loop: how the row at a place is read below a line is the parameter `read` -----

  /** A reconstructed line, and it as RGBA. */
  datatype Row = Row(line: Bytes, rgba: Bytes)

  type Reader = (nat, Bytes) -> Result<Row, Error>

  /** Where the row after the one at `at` begins. */
  function After(at: nat, line: Bytes): nat { at + 1 + |line| }

  /** `n` more rows from `at`, below the line `prior`, after the rows read so far. */
  function ReadRows(size: nat, at: nat, n: nat, prior: Bytes, read: Reader, rows: seq<Bytes>): Result<seq<Bytes>, Error>
    decreases n
  {
    if n == 0 then Ok(rows)
    else if at >= size then Err(Truncated)
    else
      match read(at, prior)
      case Err(e) => Err(e)
      case Ok(row) => ReadRows(size, After(at, prior), n - 1, row.line, read, rows + [row.rgba])
  }

  lemma RowsGo(size: nat, at: nat, n: nat, prior: Bytes, read: Reader, rows: seq<Bytes>, row: Row)
    requires n > 0 && at < size && read(at, prior) == Ok(row)
    ensures ReadRows(size, at, n, prior, read, rows) == ReadRows(size, After(at, prior), n - 1, row.line, read, rows + [row.rgba])
  {
  }

  type Convert = Bytes -> Result<Bytes, Error>

  function Converted(line: Bytes, convert: Convert): Result<Row, Error> {
    match convert(line)
    case Err(e) => Err(e)
    case Ok(rgba) => Ok(Row(line, rgba))
  }

  function ConvertAll(lines: seq<Bytes>, k: nat, convert: Convert, rows: seq<Bytes>): Result<seq<Bytes>, Error>
    requires k <= |lines|
    decreases |lines| - k
  {
    if k == |lines| then Ok(rows) else
    match Converted(lines[k], convert)
    case Err(e) => Err(e)
    case Ok(row) => ConvertAll(lines, k + 1, convert, rows + [row.rgba])
  }

  /** Row by row from `at`, the reader yields the lines from the `k`th on. */
  ghost predicate Yields(size: nat, at: nat, prior: Bytes, read: Reader, lines: seq<Bytes>, k: nat, convert: Convert)
    requires k <= |lines|
    decreases |lines| - k
  {
    k == |lines| ||
    (at < size && read(at, prior) == Converted(lines[k], convert)
     && Yields(size, After(at, prior), lines[k], read, lines, k + 1, convert))
  }

  lemma {:induction false} ReadsWhatIsYielded(size: nat, at: nat, n: nat, prior: Bytes, read: Reader, lines: seq<Bytes>, k: nat,
                                              convert: Convert, rows: seq<Bytes>)
    requires n + k == |lines| && Yields(size, at, prior, read, lines, k, convert)
    ensures ReadRows(size, at, n, prior, read, rows) == ConvertAll(lines, k, convert, rows)
    decreases n
  {
    if n > 0 {
      var row := Converted(lines[k], convert);
      if row.Ok? {
        ReadsWhatIsYielded(size, After(at, prior), n - 1, lines[k], read, lines, k + 1, convert, rows + [row.value.rgba]);
      }
    }
  }

  /** Where `n` rows of `stride` bytes, each behind a filter's number, end. */
  ghost function EndOf(at: nat, n: nat, stride: nat): nat
    decreases n
  {
    if n == 0 then at else EndOf(at + 1 + stride, n - 1, stride)
  }

  /** The reader passes on what is there, up to the end of the data. */
  ghost predicate Plain(size: nat, read: Reader) {
    forall at: nat, prior :: at < size && read(at, prior).Ok? ==> PlainRow(size, at, prior, read(at, prior).value)
  }

  ghost predicate PlainRow(size: nat, at: nat, prior: Bytes, row: Row) {
    row.line == row.rgba && |row.line| == if After(at, prior) <= size then |prior| else size - at - 1
  }

  /** Where pixel data that needs no conversion ends early: every row but the last comes back
      whole, and the last one exactly when the data holds it all. */
  lemma {:induction false} OnlyTheLastRowCanBeShort(size: nat, at: nat, n: nat, prior: Bytes, stride: nat, read: Reader,
                                                    rows: seq<Bytes>, out: seq<Bytes>)
    requires n > 0 && (at < size ==> |prior| == stride) && Plain(size, read)
    requires ReadRows(size, at, n, prior, read, rows) == Ok(out)
    ensures |out| == |rows| + n && rows <= out
    ensures forall i :: |rows| <= i < |out| - 1 ==> |out[i]| == stride
    ensures |out[|out| - 1]| == stride <==> EndOf(at, n, stride) <= size
    decreases n
  {
    var line := read(at, prior).value.line;
    if n > 1 {
      var rows' := rows + [line];
      OnlyTheLastRowCanBeShort(size, After(at, prior), n - 1, line, stride, read, rows', out);
      assert out[|rows|] == rows'[|rows|];
    }
  }

  /** The number of the last row's filter is there, and every row's is known. */
  ghost predicate HasRows(size: nat, at: nat, n: nat, stride: nat, known: nat -> bool)
    requires n > 0
  {
    EndOf(at, n - 1, stride) < size && forall k: nat :: k < n ==> known(EndOf(at, k, stride))
  }

  lemma {:induction false} EndIsLater(at: nat, n: nat, stride: nat)
    ensures at + n <= EndOf(at, n, stride)
    decreases n
  {
    if n > 0 {
      EndIsLater(at + 1 + stride, n - 1, stride);
    }
  }

  lemma EndOfNext(at: nat, k: nat, stride: nat)
    requires k > 0
    ensures EndOf(at, k, stride) == EndOf(at + 1 + stride, k - 1, stride)
  {
  }

  lemma HasOneMore(size: nat, at: nat, n: nat, stride: nat, known: nat -> bool)
    requires n > 1
    ensures HasRows(size, at, n, stride, known) <==> at < size && known(at) && HasRows(size, at + 1 + stride, n - 1, stride, known)
  {
    EndIsLater(at, n - 1, stride);
    var next := at + 1 + stride;
    EndOfNext(at, n - 1, stride);
    if HasRows(size, at, n, stride, known) {
      assert known(EndOf(at, 0, stride));
      forall k: nat | k < n - 1
        ensures known(EndOf(next, k, stride))
      {
        EndOfNext(at, k + 1, stride);
        assert known(EndOf(at, k + 1, stride));
      }
    }
    if known(at) && HasRows(size, next, n - 1, stride, known) {
      forall k: nat | k < n
        ensures known(EndOf(at, k, stride))
      {
        if k > 0 {
          EndOfNext(at, k, stride);
          assert known(EndOf(next, k - 1, stride));
        }
      }
    }
  }

  /** The reader takes a row below one of `stride` bytes exactly where its filter is known. */
  ghost predicate Accepts(size: nat, read: Reader, stride: nat, known: nat -> bool) {
    forall at: nat, prior :: at < size && |prior| == stride ==> (read(at, prior).Ok? <==> known(at))
  }

  /** Pixel data that needs no conversion reads exactly when the last row's filter number is
      there, wherever the data ends after it, and every filter is known. */
  lemma {:induction false} ReadsExactlyWhen(size: nat, at: nat, n: nat, prior: Bytes, stride: nat, read: Reader, known: nat -> bool,
                                            rows: seq<Bytes>)
    requires n > 0 && (at < size ==> |prior| == stride) && Plain(size, read) && Accepts(size, read, stride, known)
    ensures ReadRows(size, at, n, prior, read, rows).Ok? <==> HasRows(size, at, n, stride, known)
    decreases n
  {
    if n == 1 {
      assert EndOf(at, 0, stride) == at;
    } else {
      HasOneMore(size, at, n, stride, known);
      if at < size && read(at, prior).Ok? {
        var row := read(at, prior).value;
        assert PlainRow(size, at, prior, row);
        ReadsExactlyWhen(size, After(at, prior), n - 1, row.line, stride, read, known, rows + [row.rgba]);
      }
    }
  }

  // ----- Rows stored behind a filter each -----

  function ReadRow(raw: Bytes, at: nat, prior: Bytes, step: nat, convert: Convert): Result<Row, Error>
    requires 0 < step
  {
    if at >= |raw| then Err(Truncated) else
    var stored := Slice(raw, at + 1, at + 1 + |prior|);
    if raw[at] > 4 && stored != [] then Err(UnknownFilter)
    else Converted(Unfiltered(PredictorOf(raw[at]), stored, prior, step), convert)
  }

  function ReaderOf(raw: Bytes, step: nat, convert: Convert): Reader
    requires 0 < step
  {
    (at: nat, prior: Bytes) => ReadRow(raw, at, prior, step, convert)
  }

  /** `raw` holds the lines from the `k`th on, from `at`, each behind its filter's number and
      filtered against the line above it. */
  ghost predicate StoredAt(raw: Bytes, at: nat, lines: seq<Bytes>, kinds: seq<byte>, k: nat, prior: Bytes, step: nat)
    requires k <= |lines| == |kinds| && 0 < step
    decreases |lines| - k
  {
    k == |lines| ||
    (&& |lines[k]| == |prior| && kinds[k] <= 4
     && at < |raw| && raw[at] == kinds[k]
     && LiesAt(raw, at + 1, Filtered(PredictorOf(kinds[k]), lines[k], prior, step))
     && StoredAt(raw, After(at, prior), lines, kinds, k + 1, lines[k], step))
  }

  lemma ReadsOneRow(raw: Bytes, at: nat, line: Bytes, prior: Bytes, step: nat, convert: Convert)
    requires 0 < step && |line| == |prior| && at < |raw| && raw[at] <= 4
    requires LiesAt(raw, at + 1, Filtered(PredictorOf(raw[at]), line, prior, step))
    ensures ReadRow(raw, at, prior, step, convert) == Converted(line, convert)
  {
    UnfilterUndoesFilter(PredictorOf(raw[at]), line, prior, step);
  }

  /** The reader yields every row, whatever filter each was stored with. */
  lemma {:induction false} StoredRowsAreYielded(raw: Bytes, at: nat, lines: seq<Bytes>, kinds: seq<byte>, k: nat, prior: Bytes, step: nat, convert: Convert)
    requires k <= |lines| == |kinds| && 0 < step && StoredAt(raw, at, lines, kinds, k, prior, step)
    ensures Yields(|raw|, at, prior, ReaderOf(raw, step, convert), lines, k, convert)
    decreases |lines| - k
  {
    if k < |lines| {
      ReadsOneRow(raw, at, lines[k], prior, step, convert);
      StoredRowsAreYielded(raw, After(at, prior), lines, kinds, k + 1, lines[k], step, convert);
    }
  }

  lemma PlainReader(raw: Bytes, step: nat, convert: Convert)
    requires 0 < step && forall line :: convert(line) == Ok(line)
    ensures Plain(|raw|, ReaderOf(raw, step, convert))
  {
    forall at: nat, prior | at < |raw| && ReadRow(raw, at, prior, step, convert).Ok?
      ensures PlainRow(|raw|, at, prior, ReadRow(raw, at, prior, step, convert).value)
    {
    }
  }

  /** Where the row of `stride` bytes at a place is under a filter there is, or is not there. */
  ghost function KnownFilter(raw: Bytes, stride: nat): nat -> bool {
    (at: nat) => at + 1 < |raw| && stride > 0 ==> raw[at] <= 4
  }

  lemma AcceptsKnown(raw: Bytes, stride: nat, step: nat, convert: Convert)
    requires 0 < step && forall line :: convert(line) == Ok(line)
    ensures Accepts(|raw|, ReaderOf(raw, step, convert), stride, KnownFilter(raw, stride))
  {
    forall at: nat, prior: Bytes | at < |raw| && |prior| == stride
      ensures ReadRow(raw, at, prior, step, convert).Ok? <==> KnownFilter(raw, stride)(at)
    {
      var stored := Slice(raw, at + 1, at + 1 + stride);
      assert stored == [] <==> at + 1 == |raw| || stride == 0;
    }
  }

  /** So data cut inside the last row of an RGBA picture is not refused: that row comes back
      short, and only then. */
  lemma TruncationShortensTheLastRow(raw: Bytes, n: nat, stride: nat, step: nat, convert: Convert)
    requires n > 0 && 0 < step && forall line :: convert(line) == Ok(line)
    ensures var read := ReadRows(|raw|, 0, n, Zeros(stride), ReaderOf(raw, step, convert), []);
            && (read.Ok? <==> HasRows(|raw|, 0, n, stride, KnownFilter(raw, stride)))
            && (read.Ok? ==>
                  && |read.value| == n && (forall i :: 0 <= i < n - 1 ==> |read.value[i]| == stride)
                  && (|read.value[n - 1]| == stride <==> EndOf(0, n, stride) <= |raw|))
  {
    PlainReader(raw, step, convert);
    AcceptsKnown(raw, stride, step, convert);
    var reader := ReaderOf(raw, step, convert);
    ReadsExactlyWhen(|raw|, 0, n, Zeros(stride), stride, reader, KnownFilter(raw, stride), []);
    var read := ReadRows(|raw|, 0, n, Zeros(stride), reader, []);
    if read.Ok? {
      OnlyTheLastRowCanBeShort(|raw|, 0, n, Zeros(stride), stride, reader, [], read.value);
    }
  }

  function Zeros(n: nat): (z: Bytes)
    ensures |z| == n && forall i :: 0 <= i < n ==> z[i] == 0
  {
    seq(n, _ => 0)
  }

  ghost predicate Reads(read: Reader, raw: Bytes, step: nat, convert: Convert)
    requires 0 < step
  {
    forall at: nat, prior {:trigger ReadRow(raw, at, prior, step, convert)} :: read(at, prior) == ReadRow(raw, at, prior, step, convert)
  }

  /** One row of `read`: take its line, undo its filter in place, convert it. */
  method RowTurn(raw: Bytes, at: nat, previous: Bytes, step: nat, convert: Convert, ghost read: Reader) returns (r: Result<Row, Error>)
    requires at < |raw| && 0 < step && Reads(read, raw, step, convert)
    ensures r == read(at, previous)
  {
    assert read(at, previous) == ReadRow(raw, at, previous, step, convert);
    var stored := Slice(raw, at + 1, at + 1 + |previous|);
    var line := new byte[|stored|](i requires 0 <= i < |stored| => stored[i]);
    assert line[..] == stored;
    var ok := Unfilter(raw[at], line, previous, step);
    if !ok {
      return Err(UnknownFilter);
    }
    r := Converted(line[..], convert);
  }

  /** Reading on from here gives `whole`. */
  ghost predicate Leads(whole: Result<seq<Bytes>, Error>, size: nat, at: nat, n: nat, prior: Bytes, read: Reader, rows: seq<Bytes>) {
    ReadRows(size, at, n, prior, read, rows) == whole
  }

  /** A turn of the row loop: past the row at `at`, whose line becomes the one above. */
  method Advance(raw: Bytes, at: nat, left: nat, previous: Bytes, rows: seq<Bytes>, step: nat, convert: Convert,
                 ghost read: Reader, ghost whole: Result<seq<Bytes>, Error>)
    returns (failed: Option<Error>, next: nat, line: Bytes, more: seq<Bytes>)
    requires left > 0 && 0 < step && Reads(read, raw, step, convert) && Leads(whole, |raw|, at, left, previous, read, rows)
    ensures failed.Some? ==> whole == Err(failed.value)
    ensures failed.None? ==> Leads(whole, |raw|, next, left - 1, line, read, more)
  {
    next, line, more := at, previous, rows;
    if at >= |raw| {
      return Some(Truncated), next, line, more;
    }
    var row := RowTurn(raw, at, previous, step, convert, read);
    match row
    case Err(e) => failed := Some(e);
    case Ok(row) =>
      RowsGo(|raw|, at, left, previous, read, rows, row);
      failed, next, line, more := None, After(at, previous), row.line, rows + [row.rgba];
  }

  /** The row loop of `read`; `previous` is always the line just reconstructed. */
  method RowLoop(raw: Bytes, height: nat, above: Bytes, step: nat, convert: Convert, ghost read: Reader) returns (r: Result<seq<Bytes>, Error>)
    requires 0 < step && Reads(read, raw, step, convert)
    ensures r == ReadRows(|raw|, 0, height, above, read, [])
  {
    var rows: seq<Bytes>, previous, at: nat, left := [], above, 0, height;
    ghost var whole := ReadRows(|raw|, 0, height, above, read, []);
    while left > 0
      invariant Leads(whole, |raw|, at, left, previous, read, rows)
    {
      var failed: Option<Error>;
      failed, at, previous, rows := Advance(raw, at, left, previous, rows, step, convert, read, whole);
      if failed.Some? {
        return Err(failed.value);
      }
      left := left - 1;
    }
    r := Ok(rows);
  }
}
