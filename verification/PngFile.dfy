/** Whole PNG files (scripts/png.py): `read`, `to_rgba` and `write`. */
module PngFile {
  import opened Wrappers
  import opened ByteStrings
  import opened PngFilters
  import opened PngCodec

  datatype Image = Image(width: nat, height: nat, rows: seq<Bytes>)

  const SIGNATURE: Bytes := [0x89, 0x50, 0x4E, 0x47, 0x0D, 0x0A, 0x1A, 0x0A]

  datatype Header = Header(width: nat, height: nat, colour: byte)

  datatype Parsed = Parsed(header: Option<Header>, palette: Bytes, body: Bytes)

  predicate Supported(colour: byte) { colour == 2 || colour == 3 || colour == 6 }

  function Channels(colour: byte): nat { if colour == 2 then 3 else if colour == 3 then 1 else 4 }

  function TakeHeader(chunk: Bytes): Result<Header, Error> {
    if |chunk| != 13 then Err(BadChunk)
    else if chunk[8] != 8 then Err(BadDepth)
    else if chunk[12] != 0 then Err(Interlaced)
    else if !Supported(chunk[9]) then Err(BadColour)
    else Ok(Header(FromBe32(chunk[0..4]), FromBe32(chunk[4..8]), chunk[9]))
  }

  /** Which headers are taken: 8 bits a channel, not interlaced, RGB, palette or RGBA; the first
      thing wrong with another is what is said of it. */
  lemma HeaderMeans(chunk: Bytes)
    ensures TakeHeader(chunk).Ok? <==> |chunk| == 13 && chunk[8] == 8 && chunk[12] == 0 && chunk[9] in {2, 3, 6}
    ensures TakeHeader(chunk).Ok? ==> TakeHeader(chunk).value == Header(FromBe32(chunk[0..4]), FromBe32(chunk[4..8]), chunk[9])
    ensures TakeHeader(chunk) == Err(BadChunk) <==> |chunk| != 13
    ensures TakeHeader(chunk) == Err(BadDepth) <==> |chunk| == 13 && chunk[8] != 8
    ensures TakeHeader(chunk) == Err(Interlaced) <==> |chunk| == 13 && chunk[8] == 8 && chunk[12] != 0
    ensures TakeHeader(chunk) == Err(BadColour) <==> |chunk| == 13 && chunk[8] == 8 && chunk[12] == 0 && chunk[9] !in {2, 3, 6}
  {
  }

  function TakeChunk(kind: Bytes, chunk: Bytes, acc: Parsed): Result<Parsed, Error> {
    if kind == IHDR then
      match TakeHeader(chunk)
      case Err(e) => Err(e)
      case Ok(h) => Ok(acc.(header := Some(h)))
    else if kind == PLTE then Ok(acc.(palette := chunk))
    else if kind == IDAT then Ok(acc.(body := acc.body + chunk))
    else Ok(acc)
  }

  // ----- Lines as RGBA -----

  predicate PaletteHolds(line: Bytes, palette: Bytes, width: nat)
    requires width <= |line|
  {
    forall x :: 0 <= x < width ==> line[x] as int * 3 + 3 <= |palette|
  }

  /** Three channels of `source` from `at`, opaque. */
  function Opaque(source: Bytes, at: nat): Bytes
    requires at + 3 <= |source|
  {
    source[at..at + 3] + [255]
  }

  /** Pixel `x` of an RGBA line has the three channels of pixel `p` of `source`, and full alpha. */
  ghost predicate Shows(rgba: Bytes, x: nat, source: Bytes, p: nat) {
    && 4 * x + 4 <= |rgba| && 3 * p + 3 <= |source|
    && rgba[4 * x] == source[3 * p] && rgba[4 * x + 1] == source[3 * p + 1] && rgba[4 * x + 2] == source[3 * p + 2]
    && rgba[4 * x + 3] == 255
  }

  lemma OneMorePixel(before: Bytes, line: Bytes, width: nat, out: Bytes)
    requires 0 < width && 3 * width <= |line| && |before| == 4 * (width - 1) && out == before + Opaque(line, 3 * (width - 1))
    requires forall x: nat :: x < width - 1 ==> Shows(before, x, line, x)
    ensures forall x: nat :: x < width ==> Shows(out, x, line, x)
  {
    forall x: nat | x < width
      ensures Shows(out, x, line, x)
    {
      if x < width - 1 {
        assert Shows(before, x, line, x);
      }
    }
  }

  function FromRgb(line: Bytes, width: nat): (out: Bytes)
    requires 3 * width <= |line|
    ensures |out| == 4 * width && forall x: nat :: x < width ==> Shows(out, x, line, x)
  {
    if width == 0 then [] else
    var before := FromRgb(line, width - 1);
    var all := before + Opaque(line, 3 * (width - 1));
    OneMorePixel(before, line, width, all);
    all
  }

  function FromPalette(line: Bytes, palette: Bytes, width: nat): (out: Bytes)
    requires width <= |line| && PaletteHolds(line, palette, width)
    ensures |out| == 4 * width && forall x: nat :: x < width ==> Shows(out, x, palette, line[x] as int)
  {
    if width == 0 then [] else FromPalette(line, palette, width - 1) + Opaque(palette, 3 * line[width - 1] as int)
  }

  /** A scanline as RGBA. A line or a palette too short for a pixel ends in an index error,
      except that RGBA lines are passed through as they are. */
  function Rgba(line: Bytes, colour: byte, palette: Bytes, width: nat): Result<Bytes, Error> {
    if colour == 6 then Ok(line)
    else if colour == 2 then
      if |line| < 3 * width then Err(Truncated) else Ok(FromRgb(line, width))
    else
      if |line| < width || !PaletteHolds(line, palette, width) then Err(Truncated) else Ok(FromPalette(line, palette, width))
  }

  function Converter(colour: byte, palette: Bytes, width: nat): Convert {
    line => Rgba(line, colour, palette, width)
  }

  /** `to_rgba`. */
  method ToRgba(line: Bytes, colour: byte, palette: Bytes, width: nat) returns (r: Result<Bytes, Error>)
    ensures r == Rgba(line, colour, palette, width)
    ensures r.Err? <==> (colour == 2 && |line| < 3 * width)
                        || (colour != 2 && colour != 6 && (|line| < width || !PaletteHolds(line, palette, width)))
    ensures r.Ok? && colour != 6 ==> |r.value| == 4 * width
    ensures r.Ok? && colour != 6 ==>
              forall x: nat :: x < width ==> if colour == 2 then Shows(r.value, x, line, x) else Shows(r.value, x, palette, line[x] as int)
  {
    if colour == 6 {
      return Ok(line);
    }
    var out: Bytes := [];
    if colour == 2 {
      for x := 0 to width
        invariant 3 * x <= |line| && out == FromRgb(line, x)
      {
        if 3 * x + 3 > |line| {
          return Err(Truncated);
        }
        out := out + Opaque(line, 3 * x);
      }
    } else {
      for x := 0 to width
        invariant x <= |line| && PaletteHolds(line, palette, x) && out == FromPalette(line, palette, x)
      {
        if x >= |line| || line[x] as int * 3 + 3 > |palette| {
          return Err(Truncated);
        }
        out := out + Opaque(palette, 3 * line[x] as int);
      }
    }
    r := Ok(out);
  }

  // ----- Reading -----

  function Finish(p: Parsed, decompress: Bytes -> Option<Bytes>): Result<Image, Error> {
    match decompress(p.body)
    case None => Err(BadStream)
    case Some(raw) =>
      match p.header
      case None => Err(NoHeader)
      case Some(h) =>
        var step := Channels(h.colour);
        match ReadRows(|raw|, 0, h.height, Zeros(step * h.width), ReaderOf(raw, step, Converter(h.colour, p.palette, h.width)), [])
        case Err(e) => Err(e)
        case Ok(rows) => Ok(Image(h.width, h.height, rows))
  }

  const NOTHING := Parsed(None, [], [])

  function ReadFile(data: Bytes, decompress: Bytes -> Option<Bytes>): Result<Image, Error> {
    if Slice(data, 0, 8) != SIGNATURE then Err(NotPng) else
    match ParseFrom(data, 8, NOTHING, TakeChunk)
    case Err(e) => Err(e)
    case Ok(p) => Finish(p, decompress)
  }

  /** `read`: the chunk loop, then the rows. */
  method Read(data: Bytes, decompress: Bytes -> Option<Bytes>) returns (r: Result<Image, Error>)
    ensures r == ReadFile(data, decompress)
  {
    if Slice(data, 0, 8) != SIGNATURE {
      return Err(NotPng);
    }
    var parsed := ChunkLoop(data, 8, NOTHING, TakeChunk);
    if parsed.Err? {
      return Err(parsed.error);
    }
    var acc := parsed.value;
    var raw := decompress(acc.body);
    if raw.None? {
      return Err(BadStream);
    }
    if acc.header.None? {
      return Err(NoHeader);
    }
    var h := acc.header.value;
    var step := Channels(h.colour);
    var convert := Converter(h.colour, acc.palette, h.width);
    var rows := RowLoop(raw.value, h.height, Zeros(step * h.width), step, convert, ReaderOf(raw.value, step, convert));
    if rows.Err? {
      return Err(rows.error);
    }
    r := Ok(Image(h.width, h.height, rows.value));
  }

  // ----- Files as sequences of chunks -----

  /** The image data is the IDAT bodies in order; the palette is the last one given. */
  function DataOf(cs: seq<Chunk>, k: nat, body: Bytes): Bytes
    requires k <= |cs|
    decreases |cs| - k
  {
    if k == |cs| then body else DataOf(cs, k + 1, if cs[k].kind == IDAT then body + cs[k].body else body)
  }

  function PaletteOf(cs: seq<Chunk>, k: nat, palette: Bytes): Bytes
    requires k <= |cs|
    decreases |cs| - k
  {
    if k == |cs| then palette else PaletteOf(cs, k + 1, if cs[k].kind == PLTE then cs[k].body else palette)
  }

  lemma KindsDiffer()
    ensures IDAT != IHDR && IDAT != IEND && PLTE != IHDR && PLTE != IDAT
    ensures |IDAT| == |IHDR| == |IEND| == 4
  {
    assert IDAT[1] != IHDR[1] && IDAT[1] != IEND[1] && PLTE[0] != IHDR[0] && PLTE[0] != IDAT[0];
  }

  lemma TakesOther(c: Chunk, acc: Parsed)
    requires c.kind != IHDR
    ensures TakeChunk(c.kind, c.body, acc) == Ok(Parsed(acc.header, if c.kind == PLTE then c.body else acc.palette,
                                                        if c.kind == IDAT then acc.body + c.body else acc.body))
  {
    KindsDiffer();
  }

  /** However the data is split over IDAT chunks, and whatever other chunks lie between,
      the same bytes are gathered. */
  lemma {:induction false} TakingGathersData(cs: seq<Chunk>, k: nat, acc: Parsed)
    requires k <= |cs| && forall j :: k <= j < |cs| ==> cs[j].kind != IHDR
    ensures TakeAll(cs, k, acc, TakeChunk) == Ok(Parsed(acc.header, PaletteOf(cs, k, acc.palette), DataOf(cs, k, acc.body)))
    decreases |cs| - k
  {
    if k < |cs| {
      TakesOther(cs[k], acc);
      TakingGathersData(cs, k + 1, TakeChunk(cs[k].kind, cs[k].body, acc).value);
    }
  }

  function HeaderChunk(h: Header): Chunk {
    Chunk(IHDR, Be32(h.width) + Be32(h.height) + [8, h.colour, 0, 0, 0])
  }

  /** A header as section 4.1.1 of RFC 2083 has it: the two sizes, 8 bits a channel, the colour
      type, and method 0 for compression, filtering and interlacing. */
  lemma HeaderIsStandard(h: Header)
    requires h.width < WORD && h.height < WORD
    ensures var body := HeaderChunk(h).body;
            && HeaderChunk(h).kind == Ascii("IHDR") && |body| == 13
            && FromBe32(body[0..4]) == h.width && FromBe32(body[4..8]) == h.height
            && body[8] == 8 && body[9] == h.colour && body[10] == 0 && body[11] == 0 && body[12] == 0
  {
    KindsAreNamed();
    Be32RoundTrip(h.width);
    Be32RoundTrip(h.height);
    var body := HeaderChunk(h).body;
    assert body[0..4] == Be32(h.width) && body[4..8] == Be32(h.height);
  }

  ghost predicate Writable(h: Header) { h.width < WORD && h.height < WORD && Supported(h.colour) }

  lemma HeaderRoundTrip(h: Header)
    requires Writable(h)
    ensures TakeHeader(HeaderChunk(h).body) == Ok(h)
  {
    var b := HeaderChunk(h).body;
    assert b[0..4] == Be32(h.width) && b[4..8] == Be32(h.height);
    Be32RoundTrip(h.width);
    Be32RoundTrip(h.height);
  }

  /** A file: the signature, a header, any chunks that are neither header nor end, the end,
      and anything after it. */
  ghost predicate IsFile(data: Bytes, h: Header, cs: seq<Chunk>, end: nat, last: Chunk, crc: Bytes -> nat) {
    && |cs| > 0 && cs[0] == HeaderChunk(h)
    && (forall j :: 0 < j < |cs| ==> cs[j].kind != IHDR) && (forall j :: 0 <= j < |cs| ==> cs[j].kind != IEND)
    && LiesAt(data, 0, SIGNATURE) && LaidOut(data, 8, cs, 0, end, crc)
    && Fits(last) && last.kind == IEND && LiesAt(data, end, Encoded(last, crc))
  }

  lemma ReadsAnyLayout(data: Bytes, h: Header, cs: seq<Chunk>, end: nat, last: Chunk, crc: Bytes -> nat)
    requires Writable(h) && IsFile(data, h, cs, end, last, crc)
    ensures ParseFrom(data, 8, NOTHING, TakeChunk) == Ok(Parsed(Some(h), PaletteOf(cs, 1, []), DataOf(cs, 1, [])))
  {
    var p := Parsed(Some(h), PaletteOf(cs, 1, []), DataOf(cs, 1, []));
    ParseFollowsChunks(data, 8, cs, 0, end, NOTHING, TakeChunk, crc);
    HeaderRoundTrip(h);
    assert TakeChunk(cs[0].kind, cs[0].body, NOTHING) == Ok(Parsed(Some(h), [], []));
    TakingGathersData(cs, 1, Parsed(Some(h), [], []));
    ParseOne(data, end, last, p, TakeChunk, crc);
    ParseGoes(data, end, p, TakeChunk, Stop(Ok(p)));
  }

  lemma ReadsAnyFile(data: Bytes, h: Header, cs: seq<Chunk>, end: nat, last: Chunk, crc: Bytes -> nat, decompress: Bytes -> Option<Bytes>)
    requires Writable(h) && IsFile(data, h, cs, end, last, crc)
    ensures ReadFile(data, decompress) == Finish(Parsed(Some(h), PaletteOf(cs, 1, []), DataOf(cs, 1, [])), decompress)
  {
    ReadsAnyLayout(data, h, cs, end, last, crc);
  }

  function Picture(h: Header, rows: Result<seq<Bytes>, Error>): Result<Image, Error> {
    match rows
    case Err(e) => Err(e)
    case Ok(rows) => Ok(Image(h.width, h.height, rows))
  }

  lemma FinishReads(p: Parsed, decompress: Bytes -> Option<Bytes>, h: Header, raw: Bytes, lines: seq<Bytes>, kinds: seq<byte>, step: nat)
    requires p.header == Some(h) && decompress(p.body) == Some(raw) && step == Channels(h.colour) && |lines| == h.height
    requires Stores(raw, lines, kinds, h.width, step)
    ensures Finish(p, decompress) == Picture(h, ConvertAll(lines, 0, Converter(h.colour, p.palette, h.width), []))
  {
    RowsComeBack(raw, h.height, h.width, lines, kinds, step, Converter(h.colour, p.palette, h.width));
  }

  /** The data holds these lines, `step` bytes a pixel, each behind the filter given for it. */
  ghost predicate Stores(raw: Bytes, lines: seq<Bytes>, kinds: seq<byte>, width: nat, step: nat) {
    step > 0 && |lines| == |kinds| && StoredAt(raw, 0, lines, kinds, 0, Zeros(step * width), step)
  }

  lemma RowsComeBack(raw: Bytes, height: nat, width: nat, lines: seq<Bytes>, kinds: seq<byte>, step: nat, convert: Convert)
    requires 0 < step && |lines| == height && Stores(raw, lines, kinds, width, step)
    ensures ReadRows(|raw|, 0, height, Zeros(step * width), ReaderOf(raw, step, convert), []) == ConvertAll(lines, 0, convert, [])
  {
    var prior := Zeros(step * width);
    StoredRowsAreYielded(raw, 0, lines, kinds, 0, prior, step, convert);
    ReadsWhatIsYielded(|raw|, 0, height, prior, ReaderOf(raw, step, convert), lines, 0, convert, []);
  }

  /** The reader gives back the picture for every choice of filter per row, every split of
      the compressed data over IDAT chunks and any chunks it does not know in between. */
  lemma ReadsEveryEncoding(data: Bytes, h: Header, cs: seq<Chunk>, end: nat, last: Chunk, crc: Bytes -> nat,
                           decompress: Bytes -> Option<Bytes>, raw: Bytes, lines: seq<Bytes>, kinds: seq<byte>)
    requires Writable(h) && IsFile(data, h, cs, end, last, crc)
    requires decompress(DataOf(cs, 1, [])) == Some(raw) && |lines| == h.height
    requires Stores(raw, lines, kinds, h.width, if h.colour == 2 then 3 else if h.colour == 3 then 1 else 4)
    ensures ReadFile(data, decompress)
         == Picture(h, ConvertAll(lines, 0, Converter(h.colour, PaletteOf(cs, 1, []), h.width), []))
  {
    ReadsAnyFile(data, h, cs, end, last, crc, decompress);
    FinishReads(Parsed(Some(h), PaletteOf(cs, 1, []), DataOf(cs, 1, [])), decompress, h, raw, lines, kinds, Channels(h.colour));
  }

  /** An RGBA file reads exactly when the last row's filter number is there and the filters are
      known; only its last row can then be short, exactly when the data ends early. */
  lemma FileReadsExactlyWhen(data: Bytes, h: Header, cs: seq<Chunk>, end: nat, last: Chunk, crc: Bytes -> nat,
                             decompress: Bytes -> Option<Bytes>, raw: Bytes)
    requires Writable(h) && IsFile(data, h, cs, end, last, crc) && h.colour == 6 && h.height > 0
    requires decompress(DataOf(cs, 1, [])) == Some(raw)
    ensures var r, stride := ReadFile(data, decompress), 4 * h.width;
            && (r.Ok? <==> HasRows(|raw|, 0, h.height, stride, KnownFilter(raw, stride)))
            && (r.Ok? ==>
                  && |r.value.rows| == h.height && (forall i :: 0 <= i < h.height - 1 ==> |r.value.rows[i]| == stride)
                  && (|r.value.rows[h.height - 1]| == stride <==> EndOf(0, h.height, stride) <= |raw|))
  {
    ReadsAnyLayout(data, h, cs, end, last, crc);
    TruncationShortensTheLastRow(raw, h.height, 4 * h.width, 4, Converter(6, PaletteOf(cs, 1, []), h.width));
  }

  // ----- Writing -----

  /** The rows from the `k`th on, each behind filter 0. */
  function RawRows(rows: seq<Bytes>, k: nat): Bytes
    requires k <= |rows|
    decreases |rows| - k
  {
    if k == |rows| then [] else [0] + rows[k] + RawRows(rows, k + 1)
  }

  /** `write`: a length that does not fit its four bytes cannot be packed. */
  function WriteFile(width: nat, rows: seq<Bytes>, compress: Bytes -> Bytes, crc: Bytes -> nat): Option<Bytes> {
    var body := compress(RawRows(rows, 0));
    if width >= WORD || |rows| >= WORD || |body| >= WORD then None
    else Some(SIGNATURE + (Encoded(HeaderChunk(Header(width, |rows|, 6)), crc)
                           + (Encoded(Chunk(IDAT, body), crc) + Encoded(Chunk(IEND, []), crc))))
  }

  lemma {:induction false} RawRowsAreStored(raw: Bytes, at: nat, rows: seq<Bytes>, kinds: seq<byte>, k: nat, prior: Bytes)
    requires k <= |rows| == |kinds| && (forall i :: 0 <= i < |kinds| ==> kinds[i] == 0)
    requires (forall i :: k <= i < |rows| ==> |rows[i]| == |prior|) && LiesAt(raw, at, RawRows(rows, k))
    ensures StoredAt(raw, at, rows, kinds, k, prior, 4)
    decreases |rows| - k
  {
    if k < |rows| {
      RowParts(raw, at, 0, rows[k], RawRows(rows, k + 1));
      RawRowsAreStored(raw, After(at, prior), rows, kinds, k + 1, rows[k]);
      NoFilter(rows[k], prior, 4);
    }
  }

  lemma {:induction false} RgbaIsItself(rows: seq<Bytes>, k: nat, palette: Bytes, width: nat)
    requires k <= |rows|
    ensures ConvertAll(rows, k, Converter(6, palette, width), rows[..k]) == Ok(rows)
    decreases |rows| - k
  {
    if k < |rows| {
      RgbaIsItself(rows, k + 1, palette, width);
      assert rows[..k] + [rows[k]] == rows[..k + 1];
    } else {
      assert rows[..k] == rows;
    }
  }

  lemma TwoLaidOut(data: Bytes, i: nat, a: Chunk, b: Chunk, crc: Bytes -> nat)
    requires Fits(a) && Fits(b) && LiesAt(data, i, Encoded(a, crc)) && LiesAt(data, i + 12 + |a.body|, Encoded(b, crc))
    ensures LaidOut(data, i, [a, b], 0, i + 24 + |a.body| + |b.body|, crc)
  {
    var end := i + 24 + |a.body| + |b.body|;
    assert LaidOut(data, end, [a, b], 2, end, crc);
    assert LaidOut(data, i + 12 + |a.body|, [a, b], 1, end, crc);
  }

  lemma ThreeChunkFile(data: Bytes, h: Header, d: Chunk, last: Chunk, crc: Bytes -> nat)
    requires Fits(d) && Fits(last) && d.kind == IDAT && last.kind == IEND
    requires data == SIGNATURE + (Encoded(HeaderChunk(h), crc) + (Encoded(d, crc) + Encoded(last, crc)))
    ensures IsFile(data, h, [HeaderChunk(h), d], 45 + |d.body|, last, crc)
  {
    KindsDiffer();
    var a, b, c := Encoded(HeaderChunk(h), crc), Encoded(d, crc), Encoded(last, crc);
    assert Fits(HeaderChunk(h)) && |a| == 25 && |b| == 12 + |d.body|;
    FileParts(data, SIGNATURE, a, b, c);
    TwoLaidOut(data, 8, HeaderChunk(h), d, crc);
  }

  lemma OneBody(h: Chunk, d: Chunk)
    requires d.kind == IDAT
    ensures DataOf([h, d], 1, []) == d.body
  {
    assert DataOf([h, d], 2, [] + d.body) == [] + d.body == d.body;
  }

  lemma CutInItsOnlyRow(raw: Bytes, stride: nat)
    requires 0 < |raw| <= stride && raw[0] <= 4
    ensures HasRows(|raw|, 0, 1, stride, KnownFilter(raw, stride)) && EndOf(0, 1, stride) > |raw|
  {
    assert EndOf(0, 0, stride) == 0 && EndOf(0, 1, stride) == EndOf(1 + stride, 0, stride);
  }

  /** Such files: of one row, with data that ends inside it. */
  lemma CutFileIsRead(data: Bytes, h: Header, d: Chunk, last: Chunk, crc: Bytes -> nat, decompress: Bytes -> Option<Bytes>, raw: Bytes)
    requires Fits(d) && Fits(last) && d.kind == IDAT && last.kind == IEND && decompress(d.body) == Some(raw)
    requires data == SIGNATURE + (Encoded(HeaderChunk(h), crc) + (Encoded(d, crc) + Encoded(last, crc)))
    requires Writable(h) && h.colour == 6 && h.height == 1 && 0 < |raw| <= 4 * h.width && raw[0] <= 4
    ensures var r := ReadFile(data, decompress);
            r.Ok? && |r.value.rows| == 1 && |r.value.rows[0]| != 4 * h.width
  {
    ThreeChunkFile(data, h, d, last, crc);
    OneBody(HeaderChunk(h), d);
    FileReadsExactlyWhen(data, h, [HeaderChunk(h), d], 45 + |d.body|, last, crc, decompress, raw);
    CutInItsOnlyRow(raw, 4 * h.width);
  }

  /** One pixel, of which only the first byte is there. */
  lemma OneByteOfAPixelIsRead(body: Bytes, crc: Bytes -> nat, decompress: Bytes -> Option<Bytes>)
    returns (data: Bytes)
    requires |body| < WORD && decompress(body) == Some([0, 7])
    ensures var r := ReadFile(data, decompress);
            r.Ok? && |r.value.rows| == 1 && |r.value.rows[0]| != 4
  {
    var h, d, last := Header(1, 1, 6), Chunk(IDAT, body), Chunk(IEND, []);
    KindsDiffer();
    data := SIGNATURE + (Encoded(HeaderChunk(h), crc) + (Encoded(d, crc) + Encoded(last, crc)));
    CutFileIsRead(data, h, d, last, crc, decompress, [0, 7]);
  }

  /** Reading undoes writing, for every picture the file format can hold. */
  lemma ReadUndoesWrite(width: nat, rows: seq<Bytes>, compress: Bytes -> Bytes, crc: Bytes -> nat, decompress: Bytes -> Option<Bytes>)
    requires forall i :: 0 <= i < |rows| ==> |rows[i]| == 4 * width
    requires decompress(compress(RawRows(rows, 0))) == Some(RawRows(rows, 0))
    ensures WriteFile(width, rows, compress, crc).None? <==> width >= WORD || |rows| >= WORD || |compress(RawRows(rows, 0))| >= WORD
    ensures WriteFile(width, rows, compress, crc).Some? ==>
              ReadFile(WriteFile(width, rows, compress, crc).value, decompress) == Ok(Image(width, |rows|, rows))
  {
    var file := WriteFile(width, rows, compress, crc);
    if file.Some? {
      var h, d, last := Header(width, |rows|, 6), Chunk(IDAT, compress(RawRows(rows, 0))), Chunk(IEND, []);
      KindsDiffer();
      ThreeChunkFile(file.value, h, d, last, crc);
      OneBody(HeaderChunk(h), d);
      var kinds, raw, cs := Zeros(|rows|), RawRows(rows, 0), [HeaderChunk(h), d];
      assert raw[0..0 + |raw|] == raw;
      RawRowsAreStored(raw, 0, rows, kinds, 0, Zeros(4 * width));
      ReadsEveryEncoding(file.value, h, cs, 45 + |d.body|, last, crc, decompress, raw, rows, kinds);
      RgbaIsItself(rows, 0, PaletteOf(cs, 1, []), width);
      assert rows[..0] == [];
    }
  }
}
