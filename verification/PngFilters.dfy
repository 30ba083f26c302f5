/** Scanline filters (scripts/png.py), against the filter algorithms of section 6 of RFC 2083. */
module PngFilters {
  import opened ByteStrings

  function Abs(x: int): nat { if x < 0 then -x else x }

  function Paeth(left: byte, up: byte, upleft: byte): byte {
    var p := left as int + up as int - upleft as int;
    var pa, pb, pc := Abs(p - left as int), Abs(p - up as int), Abs(p - upleft as int);
    if pa <= pb && pa <= pc then left else if pb <= pc then up else upleft
  }

  /** What a filter expects at a byte, from its neighbours left, above and above left. */
  type Predictor = (byte, byte, byte) -> byte

  function PredictorOf(kind: byte): Predictor {
    (left: byte, up: byte, upleft: byte) =>
      if kind == 1 then left
      else if kind == 2 then up
      else if kind == 3 then ((left as int + up as int) / 2) as byte
      else if kind == 4 then Paeth(left, up, upleft)
      else 0
  }

  function Plus(a: byte, b: byte): byte { ((a as int + b as int) % 256) as byte }

  function Minus(a: byte, b: byte): byte { ((a as int - b as int) % 256) as byte }

  lemma PlusMinus(a: byte, b: byte)
    ensures Plus(Minus(a, b), b) == a && Minus(Plus(a, b), b) == a
  {
    Wraps(a as int - b as int);
    Wraps(a as int + b as int);
    Wraps(Minus(a, b) as int + b as int);
    Wraps(Plus(a, b) as int - b as int);
  }

  /** A sum or difference of two bytes, modulo 256. */
  lemma Wraps(x: int)
    requires -256 < x < 512
    ensures x % 256 == if x < 0 then x + 256 else if x < 256 then x else x - 256
  {
  }

  /** The byte `step` places back, 0 before the line begins. */
  function Back(line: seq<byte>, i: nat, step: nat): byte
    requires i <= |line| && 0 < step
  {
    if i >= step then line[i - step] else 0
  }

  /** What the filter expects at `i` of a line, from the line's own bytes before `i`. */
  function Expected(predict: Predictor, line: seq<byte>, prior: seq<byte>, step: nat, i: nat): byte
    requires i <= |line| && i < |prior| && 0 < step
  {
    predict(Back(line, i, step), prior[i], Back(prior, i, step))
  }

  // ----- The encoder of the standard: every byte from the original neighbours -----

  function Filtered(predict: Predictor, raw: seq<byte>, prior: seq<byte>, step: nat): (line: seq<byte>)
    requires |raw| <= |prior| && 0 < step
    ensures |line| == |raw|
    ensures forall i :: 0 <= i < |raw| ==> line[i] == Minus(raw[i], Expected(predict, raw, prior, step, i))
  {
    seq(|raw|, i requires 0 <= i < |raw| => Minus(raw[i], Expected(predict, raw, prior, step, i)))
  }

  // ----- The decoder: every byte from what is already reconstructed -----

  /** The first `n` bytes of the line, reconstructed. */
  function UnfilteredTo(predict: Predictor, line: seq<byte>, prior: seq<byte>, step: nat, n: nat): (raw: seq<byte>)
    requires n <= |line| <= |prior| && 0 < step
    ensures |raw| == n
  {
    if n == 0 then [] else
    var done := UnfilteredTo(predict, line, prior, step, n - 1);
    done + [Plus(line[n - 1], Expected(predict, done, prior, step, n - 1))]
  }

  function Unfiltered(predict: Predictor, line: seq<byte>, prior: seq<byte>, step: nat): (raw: seq<byte>)
    requires |line| <= |prior| && 0 < step
    ensures |raw| == |line|
  {
    UnfilteredTo(predict, line, prior, step, |line|)
  }

  lemma ExpectedOfPrefix(predict: Predictor, line: seq<byte>, prior: seq<byte>, step: nat, i: nat, n: nat)
    requires i <= n <= |line| && i < |prior| && 0 < step
    ensures Expected(predict, line[..n], prior, step, i) == Expected(predict, line, prior, step, i)
  {
  }

  lemma {:induction false} UnfilterUndoesFilterTo(predict: Predictor, raw: seq<byte>, prior: seq<byte>, step: nat, n: nat)
    requires n <= |raw| <= |prior| && 0 < step
    ensures UnfilteredTo(predict, Filtered(predict, raw, prior, step), prior, step, n) == raw[..n]
  {
    if n > 0 {
      UnfilterUndoesFilterTo(predict, raw, prior, step, n - 1);
      ExpectedOfPrefix(predict, raw, prior, step, n - 1, n - 1);
      PlusMinus(raw[n - 1], Expected(predict, raw, prior, step, n - 1));
    }
  }

  /** Undoing a filter gives back the original line, for every filter, line and line above. */
  lemma UnfilterUndoesFilter(predict: Predictor, raw: seq<byte>, prior: seq<byte>, step: nat)
    requires |raw| <= |prior| && 0 < step
    ensures Unfiltered(predict, Filtered(predict, raw, prior, step), prior, step) == raw
  {
    UnfilterUndoesFilterTo(predict, raw, prior, step, |raw|);
  }

  lemma {:induction false} UnfilteredPrefix(predict: Predictor, line: seq<byte>, prior: seq<byte>, step: nat, n: nat, m: nat)
    requires n <= m <= |line| <= |prior| && 0 < step
    ensures UnfilteredTo(predict, line, prior, step, m)[..n] == UnfilteredTo(predict, line, prior, step, n)
  {
    if n < m {
      UnfilteredPrefix(predict, line, prior, step, n, m - 1);
    }
  }

  lemma UnfilteredAt(predict: Predictor, line: seq<byte>, prior: seq<byte>, step: nat, i: nat)
    requires i < |line| <= |prior| && 0 < step
    ensures var raw := Unfiltered(predict, line, prior, step);
            raw[i] == Plus(line[i], Expected(predict, raw, prior, step, i))
  {
    var raw, done := Unfiltered(predict, line, prior, step), UnfilteredTo(predict, line, prior, step, i);
    UnfilteredPrefix(predict, line, prior, step, i, |line|);
    UnfilteredPrefix(predict, line, prior, step, i + 1, |line|);
    ExpectedOfPrefix(predict, raw, prior, step, i, i);
    assert raw[i] == raw[..i + 1][i];
  }

  /** And filtering what was reconstructed gives back the stored line: nothing is lost either way. */
  lemma FilterUndoesUnfilter(predict: Predictor, line: seq<byte>, prior: seq<byte>, step: nat)
    requires |line| <= |prior| && 0 < step
    ensures Filtered(predict, Unfiltered(predict, line, prior, step), prior, step) == line
  {
    var raw := Unfiltered(predict, line, prior, step);
    forall i | 0 <= i < |line|
      ensures Filtered(predict, raw, prior, step)[i] == line[i]
    {
      UnfilteredAt(predict, line, prior, step, i);
      PlusMinus(line[i], Expected(predict, raw, prior, step, i));
    }
  }

  /** Filter 0 changes nothing. */
  lemma NoFilter(line: seq<byte>, prior: seq<byte>, step: nat)
    requires |line| <= |prior| && 0 < step
    ensures Unfiltered(PredictorOf(0), line, prior, step) == line
    ensures Filtered(PredictorOf(0), line, prior, step) == line
  {
    assert Filtered(PredictorOf(0), line, prior, step) == line;
    UnfilterUndoesFilter(PredictorOf(0), line, prior, step);
  }

  /** What the filter of a number makes of a stored byte: that plus nothing, the byte to the left,
      the one above, half the sum of both rounded down, or the nearest of the three neighbours. */
  ghost predicate Rebuilt(kind: byte, stored: int, left: int, up: int, corner: int, out: int) {
    && (kind == 0 ==> out == stored)
    && (kind == 1 ==> out == (stored + left) % 256)
    && (kind == 2 ==> out == (stored + up) % 256)
    && (kind == 3 ==> out == (stored + (left + up) / 2) % 256)
    && (kind == 4 ==> exists guess: int :: IsNearest(guess, left, up, corner) && out == (stored + guess) % 256)
  }

  lemma PaethRebuilds(stored: byte, left: byte, up: byte, corner: byte)
    ensures Rebuilt(4, stored as int, left as int, up as int, corner as int, Plus(stored, Paeth(left, up, corner)) as int)
  {
    PaethIsNearest(left, up, corner);
    var guess := Paeth(left, up, corner);
    assert IsNearest(guess as int, left as int, up as int, corner as int);
  }

  lemma FilterRebuilds(kind: byte, stored: byte, left: byte, up: byte, corner: byte)
    ensures Rebuilt(kind, stored as int, left as int, up as int, corner as int, Plus(stored, PredictorOf(kind)(left, up, corner)) as int)
  {
    if kind == 4 {
      PaethRebuilds(stored, left, up, corner);
    }
  }

  /** Each reconstructed byte, from the ones already reconstructed and the line above, with 0 for
      what is before the line begins. */
  lemma ReconstructedByte(kind: byte, line: seq<byte>, prior: seq<byte>, step: nat, i: nat)
    requires i < |line| <= |prior| && 0 < step
    ensures var raw := Unfiltered(PredictorOf(kind), line, prior, step);
            Rebuilt(kind, line[i] as int, if i < step then 0 else raw[i - step] as int, prior[i] as int,
                    if i < step then 0 else prior[i - step] as int, raw[i] as int)
  {
    UnfilteredAt(PredictorOf(kind), line, prior, step, i);
    var raw := Unfiltered(PredictorOf(kind), line, prior, step);
    FilterRebuilds(kind, line[i], Back(raw, i, step), prior[i], Back(prior, i, step));
  }

  /** One of the three, as near as any to `left + up - corner`; of those as near, the first. */
  ghost predicate IsNearest(guess: int, left: int, up: int, corner: int) {
    var p := left + up - corner;
    && (guess == left || guess == up || guess == corner)
    && Abs(p - guess) <= Abs(p - left) && Abs(p - guess) <= Abs(p - up) && Abs(p - guess) <= Abs(p - corner)
    && (Abs(p - guess) == Abs(p - left) ==> guess == left)
    && (guess != left && Abs(p - guess) == Abs(p - up) ==> guess == up)
  }

  /** The Paeth choice is a nearest neighbour of the gradient, left before up before upper left. */
  lemma PaethIsNearest(left: byte, up: byte, upleft: byte)
    ensures var p, best := left as int + up as int - upleft as int, Paeth(left, up, upleft);
            var far := (b: byte) => Abs(p - b as int);
            && (best == left || best == up || best == upleft)
            && far(best) <= far(left) && far(best) <= far(up) && far(best) <= far(upleft)
            && (far(best) == far(left) ==> best == left)
            && (best != left && far(best) == far(up) ==> best == up)
  {
  }

  /** `unfilter`, in place; the line above is only read. A filter that is not one of the five is refused before anything
      changes; an empty line holds no byte to refuse it at. */
  method Unfilter(kind: byte, line: array<byte>, previous: seq<byte>, step: nat) returns (ok: bool)
    requires line.Length <= |previous| && 0 < step
    modifies line
    ensures ok <==> kind <= 4 || line.Length == 0
    ensures ok ==> line[..] == Unfiltered(PredictorOf(kind), old(line[..]), previous, step)
    ensures !ok ==> line[..] == old(line[..])
  {
    ghost var stored, predict := line[..], PredictorOf(kind);
    if kind == 0 {
      NoFilter(stored, previous, step);
      return true;
    }
    for i := 0 to line.Length
      invariant line[..i] == UnfilteredTo(predict, stored, previous, step, i)
      invariant line[i..] == stored[i..]
      invariant i > 0 ==> kind <= 4
    {
      var left := if i >= step then line[i - step] else 0;
      var up := previous[i];
      var guess: byte;
      if kind == 1 {
        guess := left;
      } else if kind == 2 {
        guess := up;
      } else if kind == 3 {
        guess := ((left as int + up as int) / 2) as byte;
      } else if kind == 4 {
        guess := Paeth(left, up, if i >= step then previous[i - step] else 0);
      } else {
        return false;
      }
      ghost var done := line[..i];
      assert guess == Expected(predict, done, previous, step, i);
      assert line[i] == stored[i] && line[i + 1..] == line[i..][1..];
      line[i] := Plus(line[i], guess);
      assert line[..i + 1] == done + [line[i]];
    }
    ok := true;
  }
}
