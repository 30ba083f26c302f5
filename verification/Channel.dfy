/** Newline-framed messages with offers among the responses (scripts/claude_channel_smoke.py,
    class `Connection`). */
module Channel {
  import opened ByteStrings
  import opened Wrappers

  const NEWLINE: byte := 10
  const FRAME_BOUND := 8 * 1024 * 1024

  // ----- Lines -----

  function Find(b: Bytes, p: nat): (n: nat)
    requires p <= |b|
    ensures p <= n <= |b| && (n < |b| ==> b[n] == NEWLINE)
    decreases |b| - p
  {
    if p == |b| || b[p] == NEWLINE then p else Find(b, p + 1)
  }

  lemma {:induction false} FindIsFirst(b: Bytes, p: nat)
    requires p <= |b|
    ensures forall i :: p <= i < Find(b, p) ==> b[i] != NEWLINE
    decreases |b| - p
  {
    if p < |b| && b[p] != NEWLINE {
      FindIsFirst(b, p + 1);
    }
  }

  lemma {:induction false} FindFinds(b: Bytes, p: nat, n: nat)
    requires p <= n < |b| && b[n] == NEWLINE && forall i :: p <= i < n ==> b[i] != NEWLINE
    ensures Find(b, p) == n
    decreases n - p
  {
    if p < n {
      FindFinds(b, p + 1, n);
    }
  }

  /** The complete lines of a stream, without their newlines. */
  function LinesOf(b: Bytes): seq<Bytes>
    decreases |b|
  {
    var n := Find(b, 0);
    if n == |b| then [] else [b[..n]] + LinesOf(b[n + 1..])
  }

  predicate IsLine(b: Bytes) { NEWLINE !in b }

  lemma LineComesFirst(line: Bytes, rest: Bytes)
    requires IsLine(line)
    ensures LinesOf(line + [NEWLINE] + rest) == [line] + LinesOf(rest)
  {
    var b := line + [NEWLINE] + rest;
    FindFinds(b, 0, |line|);
    assert b[..|line|] == line && b[|line| + 1..] == rest;
  }

  function Joined(lines: seq<Bytes>): Bytes {
    if lines == [] then [] else Joined(lines[..|lines| - 1]) + (lines[|lines| - 1] + [NEWLINE])
  }

  lemma JoinedGrows(lines: seq<Bytes>, line: Bytes)
    ensures Joined(lines + [line]) == Joined(lines) + (line + [NEWLINE])
  {
    assert (lines + [line])[..|lines|] == lines;
  }

  lemma Regroup(a: Bytes, b: Bytes, c: Bytes)
    ensures (a + b) + c == a + (b + c)
  {
  }

  lemma RegroupLines(a: seq<Bytes>, b: seq<Bytes>, c: seq<Bytes>)
    ensures (a + b) + c == a + (b + c)
  {
  }

  /** Lines taken off a stream, then what is left of it: the stream's lines, in order. */
  lemma {:induction false} LinesOfJoined(lines: seq<Bytes>, rest: Bytes)
    requires forall l <- lines :: IsLine(l)
    ensures LinesOf(Joined(lines) + rest) == lines + LinesOf(rest)
  {
    if lines == [] {
      assert Joined(lines) + rest == rest;
    } else {
      var most, last := lines[..|lines| - 1], lines[|lines| - 1];
      var tail := (last + [NEWLINE]) + rest;
      assert lines == most + [last];
      LinesOfJoined(most, tail);
      LineComesFirst(last, rest);
      Regroup(Joined(most), last + [NEWLINE], rest);
      Chained(LinesOf(Joined(most) + tail), most, last, LinesOf(tail), LinesOf(rest));
    }
  }

  lemma Chained(all: seq<Bytes>, most: seq<Bytes>, last: Bytes, tail: seq<Bytes>, rest: seq<Bytes>)
    requires all == most + tail && tail == [last] + rest
    ensures all == (most + [last]) + rest
  {
  }

  // ----- Messages -----

  /** A parsed message: an offer, or anything else with the id it answers, if any, and whether
      it reports an error. */
  datatype Message = Offer(params: string) | Other(id: Option<nat>, failed: bool)

  /** `json.loads`; `None` when it raises. */
  type Parser = Bytes -> Option<Message>

  function OffersIn(lines: seq<Bytes>, parse: Parser): seq<Message> {
    if lines == [] then [] else
    OffersIn(lines[..|lines| - 1], parse) + OfferIn(parse(lines[|lines| - 1]))
  }

  function OfferIn(m: Option<Message>): seq<Message> {
    if m.Some? && m.value.Offer? then [m.value] else []
  }

  lemma OffersGrow(lines: seq<Bytes>, line: Bytes, parse: Parser)
    ensures OffersIn(lines + [line], parse) == OffersIn(lines, parse) + OfferIn(parse(line))
  {
    assert (lines + [line])[..|lines|] == lines;
  }

  lemma RegroupOffers(a: seq<Message>, b: seq<Message>, c: seq<Message>)
    ensures (a + b) + c == a + (b + c)
  {
  }

  lemma {:induction false} OffersAdd(a: seq<Bytes>, b: seq<Bytes>, parse: Parser)
    ensures OffersIn(a + b, parse) == OffersIn(a, parse) + OffersIn(b, parse)
  {
    if b == [] {
      assert a + b == a;
    } else {
      var most, last := b[..|b| - 1], b[|b| - 1];
      OffersAdd(a, most, parse);
      assert b == most + [last];
      RegroupLines(a, most, [last]);
      OffersGrow(a + most, last, parse);
      RegroupOffers(OffersIn(a, parse), OffersIn(most, parse), OfferIn(parse(last)));
    }
  }

  // ----- The connection -----

  /** What waiting for output brings. */
  datatype Event = Chunk(data: Bytes) | Quiet

  datatype Error = Closed | TooLong | NotJson | NoAnswer | WrongAnswer | QueueFull | TooManyOffers | NotAnOffer | Refused

  /** The bytes still to come. */
  ghost function Pending(script: seq<Event>, at: nat): Bytes
    decreases |script| - at
  {
    if at >= |script| then [] else (if script[at].Chunk? then script[at].data else []) + Pending(script, at + 1)
  }

  /** What has arrived is the lines taken off it and the rest. */
  ghost predicate Framed(arrived: Bytes, taken: seq<Bytes>, buffer: Bytes) {
    arrived == Joined(taken) + buffer && forall l <- taken :: IsLine(l)
  }

  lemma CutAtNewline(buffer: Bytes, n: nat)
    requires n == Find(buffer, 0) < |buffer|
    ensures IsLine(buffer[..n]) && buffer == (buffer[..n] + [NEWLINE]) + buffer[n + 1..]
  {
    FindIsFirst(buffer, 0);
  }

  lemma LineIsTaken(arrived: Bytes, taken: seq<Bytes>, buffer: Bytes, line: Bytes, rest: Bytes)
    requires Framed(arrived, taken, buffer) && IsLine(line) && buffer == (line + [NEWLINE]) + rest
    ensures Framed(arrived, taken + [line], rest)
  {
    JoinedGrows(taken, line);
    Regroup(Joined(taken), line + [NEWLINE], rest);
  }

  /** However it was cut into chunks, a stream's first lines and the rest are one and the same. */
  lemma FramingIsForced(arrived: Bytes, a: seq<Bytes>, x: Bytes, b: seq<Bytes>, y: Bytes)
    requires Framed(arrived, a, x) && Framed(arrived, b, y) && |a| == |b|
    ensures a == b && x == y
  {
    LinesOfJoined(a, x);
    LinesOfJoined(b, y);
    assert a == LinesOf(arrived)[..|a|] == b;
    assert x == arrived[|Joined(a)|..] == y;
  }

  lemma ChunkArrives(arrived: Bytes, taken: seq<Bytes>, buffer: Bytes, data: Bytes)
    requires Framed(arrived, taken, buffer)
    ensures Framed(arrived + data, taken, buffer + data)
  {
    Regroup(Joined(taken), buffer, data);
  }

  /** What comes of a line, or of none. */
  function Parsed(line: Bytes, parse: Parser): Result<Option<Message>, Error> {
    if parse(line).Some? then Ok(parse(line)) else Err(NotJson)
  }

  predicate GotNothing(r: Result<Option<Message>, Error>) {
    r == Ok(None) || r == Err(Closed) || r == Err(TooLong)
  }

  class Connection {
    var buffer: Bytes
    var offers: seq<Message>
    /** What waiting will bring, and how far it has come; what has arrived, the lines taken off
        it, and the offers handed out. */
    const script: seq<Event>
    var at: nat
    ghost var arrived: Bytes
    ghost var taken: seq<Bytes>
    ghost var handed: seq<Message>

    constructor (script: seq<Event>, ghost parse: Parser)
      ensures Valid(parse) && this.script == script && at == 0 && arrived == [] && handed == [] && offers == []
    {
      this.script := script;
      buffer, offers, at, arrived, taken, handed := [], [], 0, [], [], [];
    }

    /** No byte is lost or repeated between lines and buffer, and the offers handed out, then
        those queued, are those of the lines taken. */
    ghost predicate Valid(parse: Parser)
      reads this
    {
      Framed(arrived, taken, buffer) && handed + offers == OffersIn(taken, parse)
    }

    /** `read`: the next line's message, or nothing in time. `line` is the line taken, if any. */
    method Read(parse: Parser) returns (r: Result<Option<Message>, Error>, ghost line: seq<Bytes>)
      requires Framed(arrived, taken, buffer)
      modifies this`buffer, this`at, this`arrived, this`taken
      ensures Framed(arrived, taken, buffer) && taken == old(taken) + line
      ensures (line == [] && GotNothing(r)) || (|line| == 1 && r == if parse(line[0]).None? then Err(NotJson) else Ok(parse(line[0])))
      ensures old(at) <= at && (old(Find(buffer, 0) < |buffer|) ==> |line| == 1 && at == old(at))
      ensures r == Ok(None) && line == [] ==> Find(buffer, 0) == |buffer| && (at >= |script| || (old(at) < at && script[at - 1].Quiet?))
      ensures r == Err(Closed) ==> Find(buffer, 0) == |buffer| && old(at) < at <= |script| && script[at - 1] == Chunk([])
      ensures r == Err(TooLong) ==> |buffer| > FRAME_BOUND
      ensures arrived + Pending(script, at) == old(arrived + Pending(script, at))
    {
      line := [];
      while true
        invariant Framed(arrived, taken, buffer) && taken == old(taken) && line == []
        invariant old(at) <= at && (old(Find(buffer, 0) < |buffer|) ==> at == old(at) && buffer == old(buffer))
        invariant arrived + Pending(script, at) == old(arrived + Pending(script, at))
        decreases |script| - at
      {
        var n := Find(buffer, 0);
        if n < |buffer| {
          CutAtNewline(buffer, n);
          LineIsTaken(arrived, taken, buffer, buffer[..n], buffer[n + 1..]);
          var first := buffer[..n];
          line := [first];
          taken := taken + [first];
          buffer := buffer[n + 1..];
          r := Parsed(first, parse);
          return;
        }
        if at >= |script| {
          return Ok(None), [];
        }
        var event := script[at];
        at := at + 1;
        match event
        case Quiet => return Ok(None), [];
        case Chunk(data) =>
          Regroup(arrived, data, Pending(script, at));
          ChunkArrives(arrived, taken, buffer, data);
          arrived := arrived + data;
          if data == [] {
            assert buffer + data == buffer;
            return Err(Closed), [];
          }
          buffer := buffer + data;
          if |buffer| > FRAME_BOUND {
            return Err(TooLong), [];
          }
      }
    }

    /** A line read here adds its offer, if it is one, to those of the lines taken. */
    ghost predicate Adds(before: seq<Bytes>, line: seq<Bytes>, parse: Parser)
      reads this
    {
      OffersIn(taken, parse) == OffersIn(before, parse) + NewOffers(line, parse)
    }

    method ReadMore(parse: Parser) returns (r: Result<Option<Message>, Error>, ghost line: seq<Bytes>)
      requires Framed(arrived, taken, buffer)
      modifies this`buffer, this`at, this`arrived, this`taken
      ensures Framed(arrived, taken, buffer) && taken == old(taken) + line && Adds(old(taken), line, parse)
      ensures r.Ok? && r.value.Some? ==> |line| == 1 && parse(line[0]) == r.value && NewOffers(line, parse) == OfferIn(r.value)
      ensures r.Err? || r.value.None? ==> NewOffers(line, parse) == [] && (line == [] || (|line| == 1 && parse(line[0]).None?))
      ensures r.Err? ==> r.error in {Closed, TooLong, NotJson}
      ensures arrived + Pending(script, at) == old(arrived + Pending(script, at))
    {
      r, line := Read(parse);
      OffersAfter(old(taken), line, parse);
    }

    /** The last of the lines taken since there were `n` is the answer to a request, with or
        without an error. */
    ghost predicate Answered(n: nat, identifier: nat, failed: bool, parse: Parser)
      reads this
    {
      |taken| > n && parse(taken[|taken| - 1]) == Some(Other(Some(identifier), failed))
    }

    /** Nothing but offers since there were `n` lines. */
    ghost predicate OffersSince(n: nat, parse: Parser)
      reads this
    {
      n <= |taken| && (|taken| > n ==> parse(taken[|taken| - 1]).Some? && parse(taken[|taken| - 1]).value.Offer?)
    }

    /** `response`: queues the offers that come first. It never runs out of turns: the queue
        fills before. */
    method Response(identifier: nat, parse: Parser) returns (r: Result<Message, Error>)
      requires Valid(parse) && |offers| <= 16
      modifies this`buffer, this`offers, this`at, this`arrived, this`taken
      ensures Valid(parse) && arrived + Pending(script, at) == old(arrived + Pending(script, at))
      ensures r != Err(TooManyOffers) && (r != Err(QueueFull) ==> |offers| <= 16)
      ensures r.Ok? ==> r.value.Other? && Answered(|old(taken)|, identifier, r.value.failed, parse)
      ensures r.Err? ==> r.error != Refused && forall failed :: !Answered(|old(taken)|, identifier, failed, parse)
    {
      for i := 0 to 18
        invariant Valid(parse) && arrived + Pending(script, at) == old(arrived + Pending(script, at))
        invariant i <= |offers| <= 16 && OffersSince(|old(taken)|, parse)
      {
        ghost var before := taken;
        var value, line := ReadMore(parse);
        if value.Err? {
          return Err(value.error);
        }
        if value.value.None? {
          return Err(NoAnswer);
        }
        match value.value.value
        case Offer(_) =>
          RegroupOffers(handed, offers, [value.value.value]);
          offers := offers + [value.value.value];
          if |offers| > 16 {
            return Err(QueueFull);
          }
        case Other(id, _) =>
          if id != Some(identifier) {
            return Err(WrongAnswer);
          }
          return Ok(value.value.value);
      }
      r := Err(TooManyOffers);
    }

    /** `offer`: the first queued, or else the next message. */
    method TakeOffer(parse: Parser) returns (r: Result<string, Error>)
      requires Valid(parse)
      modifies this`buffer, this`offers, this`at, this`arrived, this`taken, this`handed
      ensures Valid(parse) && arrived + Pending(script, at) == old(arrived + Pending(script, at))
      ensures |offers| <= |old(offers)|
      ensures r.Ok? ==> handed == old(handed) + [Offer(r.value)]
      ensures r.Err? ==> handed == old(handed)
    {
      if offers != [] {
        var first := offers[0];
        FirstIsOffer(handed, offers, taken, parse);
        handed := handed + [first];
        offers := offers[1..];
        return Ok(first.params);
      }
      var value, line := ReadMore(parse);
      if value.Err? {
        return Err(value.error);
      }
      if value.value.None? || !value.value.value.Offer? {
        return Err(NotAnOffer);
      }
      handed := handed + [value.value.value];
      r := Ok(value.value.value.params);
    }

    /** `ack`: its request goes out, and its response must not report an error. */
    method Ack(identifier: nat, parse: Parser) returns (r: Result<(), Error>)
      requires Valid(parse) && |offers| <= 16
      modifies this`buffer, this`offers, this`at, this`arrived, this`taken
      ensures Valid(parse) && arrived + Pending(script, at) == old(arrived + Pending(script, at))
      ensures r.Ok? ==> |offers| <= 16
      ensures r.Ok? <==> Answered(|old(taken)|, identifier, false, parse)
      ensures r == Err(Refused) <==> Answered(|old(taken)|, identifier, true, parse)
    {
      var response := Response(identifier, parse);
      if response.Err? {
        return Err(response.error);
      }
      if response.value.failed {
        return Err(Refused);
      }
      r := Ok(());
    }

    /** Whatever the chunking and the calls made: the offers handed out, those queued and those
        still in the buffer are the stream's offers, in the order they arrived. */
    lemma OffersAreTheStreams(parse: Parser)
      requires Valid(parse)
      ensures handed + offers + OffersIn(LinesOf(buffer), parse) == OffersIn(LinesOf(arrived), parse)
      ensures taken + LinesOf(buffer) == LinesOf(arrived)
    {
      LinesOfJoined(taken, buffer);
      OffersAdd(taken, LinesOf(buffer), parse);
    }
  }

  /** The offer a line taken brings. */
  function NewOffers(line: seq<Bytes>, parse: Parser): seq<Message> {
    if line == [] then [] else OfferIn(parse(line[0]))
  }

  lemma OffersAfter(before: seq<Bytes>, line: seq<Bytes>, parse: Parser)
    requires |line| <= 1
    ensures OffersIn(before + line, parse) == OffersIn(before, parse) + NewOffers(line, parse)
  {
    if line == [] {
      assert before + line == before;
    } else {
      assert line == [line[0]];
      OffersGrow(before, line[0], parse);
    }
  }

  /** The first queued can be handed out. */
  lemma FirstIsOffer(handed: seq<Message>, offers: seq<Message>, taken: seq<Bytes>, parse: Parser)
    requires offers != [] && handed + offers == OffersIn(taken, parse)
    ensures offers[0].Offer? && (handed + [offers[0]]) + offers[1..] == OffersIn(taken, parse)
  {
    var first := offers[0];
    OffersAreOffers(taken, parse);
    assert (handed + offers)[|handed|] == first;
    assert first in OffersIn(taken, parse);
    RegroupOffers(handed, [first], offers[1..]);
    assert [first] + offers[1..] == offers;
  }

  lemma {:induction false} OffersAreOffers(lines: seq<Bytes>, parse: Parser)
    ensures forall m <- OffersIn(lines, parse) :: m.Offer?
  {
    if lines != [] {
      OffersAreOffers(lines[..|lines| - 1], parse);
    }
  }
}
