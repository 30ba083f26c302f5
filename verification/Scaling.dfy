/** `resample` on pictures (scripts/png.py): the loops, and what they do to colour and alpha. */
module Scaling {
  import opened Division
  import opened ByteStrings
  import opened Resample

  type Rows = seq<seq<byte>>

  /** A byte of the picture; 0 outside it, so that sums are total. */
  function ByteAt(rows: Rows, y: nat, i: nat): int {
    if y < |rows| && i < |rows[y]| then rows[y][i] as int else 0
  }

  function Alpha(rows: Rows): Grid {
    (y: nat, x: nat) => ByteAt(rows, y, 4 * x + 3)
  }

  /** Channel `c`, weighted by alpha. */
  function Tinted(rows: Rows, c: nat): Grid {
    (y: nat, x: nat) => ByteAt(rows, y, 4 * x + c) * ByteAt(rows, y, 4 * x + 3)
  }

  ghost predicate Holds(rows: Rows, s: Scale) {
    |rows| == s.height && forall y :: 0 <= y < |rows| ==> |rows[y]| == 4 * s.width
  }

  /** Channel `c` of a destination pixel; channel 3 is alpha. */
  function OutValue(rows: Rows, s: Scale, y: nat, x: nat, c: nat): int
    requires s.tw > 0 && s.th > 0
  {
    var a, n := Under(Alpha(rows), s, y, x), Under(ONE, s, y, x);
    if c == 3 then (if n > 0 then a / n else 0)
    else if a > 0 then Min(255, Under(Tinted(rows, c), s, y, x) / a)
    else 0
  }

  function Min(a: int, b: int): int { if a < b then a else b }

  // ----- Colour and alpha -----

  /** The pixels under a destination pixel that are not fully transparent have channel `c`
      between `lo` and `hi`. */
  ghost predicate ColoursWithin(rows: Rows, s: Scale, y: nat, x: nat, c: nat, lo: int, hi: int)
    requires s.tw > 0 && s.th > 0
  {
    forall sy: nat, sx: nat :: Covers(y, sy, s.height, s.th) && Covers(x, sx, s.width, s.tw) && Alpha(rows)(sy, sx) > 0 ==>
      lo <= ByteAt(rows, sy, 4 * sx + c) <= hi
  }

  lemma Tints(v: int, a: int, lo: int, hi: int)
    requires a >= 0 && (a > 0 ==> lo <= v <= hi)
    ensures lo * a <= v * a <= hi * a
  {
    if a > 0 {
      MulLe(lo, v, a);
      MulLe(v, hi, a);
    } else {
      assert a == 0 && lo * a == 0 && v * a == 0 && hi * a == 0;
    }
  }

  lemma ColourIsWeighed(rows: Rows, s: Scale, y: nat, x: nat, c: nat, lo: int, hi: int)
    requires s.tw > 0 && s.th > 0 && ColoursWithin(rows, s, y, x, c, lo, hi)
    ensures Weighed(Tinted(rows, c), Alpha(rows), lo, hi,
                    Lo(y, s.height, s.th), Hi(y, s.height, s.th), Lo(x, s.width, s.tw), Hi(x, s.width, s.tw))
  {
    forall sy: nat, sx: nat | Covers(y, sy, s.height, s.th) && Covers(x, sx, s.width, s.tw)
      ensures lo * Alpha(rows)(sy, sx) <= Tinted(rows, c)(sy, sx) <= hi * Alpha(rows)(sy, sx)
    {
      Tints(ByteAt(rows, sy, 4 * sx + c), Alpha(rows)(sy, sx), lo, hi);
    }
  }

  /** A colour never leaves the range of the colours it is averaged from, transparent pixels
      not counting. */
  lemma ColourStaysBetween(rows: Rows, s: Scale, y: nat, x: nat, c: nat, lo: int, hi: int)
    requires s.tw > 0 && s.th > 0 && ColoursWithin(rows, s, y, x, c, lo, hi) && Under(Alpha(rows), s, y, x) > 0
    ensures lo <= Under(Tinted(rows, c), s, y, x) / Under(Alpha(rows), s, y, x) <= hi
  {
    var y1 := Hi(y, s.height, s.th);
    ColourIsWeighed(rows, s, y, x, c, lo, hi);
    BoxWeighed(Tinted(rows, c), Alpha(rows), lo, hi, Lo(y, s.height, s.th), y1, Lo(x, s.width, s.tw), Hi(x, s.width, s.tw), y1);
    DivBetween(Under(Tinted(rows, c), s, y, x), Under(Alpha(rows), s, y, x), lo, hi);
  }

  /** So the clamp at 255 never acts. */
  lemma ClampNeverActs(rows: Rows, s: Scale, y: nat, x: nat, c: nat)
    requires s.tw > 0 && s.th > 0 && Under(Alpha(rows), s, y, x) > 0
    ensures 0 <= Under(Tinted(rows, c), s, y, x) / Under(Alpha(rows), s, y, x) <= 255
  {
    ColourStaysBetween(rows, s, y, x, c, 0, 255);
  }

  lemma AlphaInRange(rows: Rows, s: Scale, y: nat, x: nat)
    requires ValidScale(s) && y < s.th && x < s.tw
    ensures 0 < Under(ONE, s, y, x) && 0 <= Under(Alpha(rows), s, y, x)
    ensures 0 <= Under(Alpha(rows), s, y, x) / Under(ONE, s, y, x) <= 255
  {
    var y1 := Hi(y, s.height, s.th);
    KeptIsNear(Alpha(rows), s, y, x);
    BoxWeighed(Alpha(rows), ONE, 0, 255, Lo(y, s.height, s.th), y1, Lo(x, s.width, s.tw), Hi(x, s.width, s.tw), y1);
    DivBetween(Under(Alpha(rows), s, y, x), Under(ONE, s, y, x), 0, 255);
  }

  lemma OutValueInRange(rows: Rows, s: Scale, y: nat, x: nat, c: nat)
    requires ValidScale(s) && y < s.th && x < s.tw
    ensures 0 <= OutValue(rows, s, y, x, c) <= 255
  {
    AlphaInRange(rows, s, y, x);
    if Under(Alpha(rows), s, y, x) > 0 {
      ClampNeverActs(rows, s, y, x, c);
    }
  }

  // ----- The alpha bytes put out -----

  /** The alpha byte of a destination pixel, once for every source pixel it stands for. */
  function Spread(out: Rows, s: Scale): Grid
    requires s.tw > 0 && s.th > 0
  {
    (y: nat, x: nat) => ByteAt(out, y, 4 * x + 3) * ((Hi(y, s.height, s.th) - Lo(y, s.height, s.th)) * (Hi(x, s.width, s.tw) - Lo(x, s.width, s.tw)))
  }

  lemma {:induction false} SameLine(a: Grid, b: Grid, y: nat, n: nat)
    requires forall x: nat :: x < n ==> a(y, x) == b(y, x)
    ensures Line(a, y, 0, n) == Line(b, y, 0, n)
  {
    if n > 0 {
      SameLine(a, b, y, n - 1);
    }
  }

  lemma {:induction false} SameBox(a: Grid, b: Grid, m: nat, n: nat)
    requires forall y: nat, x: nat :: y < m && x < n ==> a(y, x) == b(y, x)
    ensures Box(a, 0, m, 0, n) == Box(b, 0, m, 0, n)
  {
    if m > 0 {
      SameBox(a, b, m - 1, n);
      SameLine(a, b, m - 1, n);
    }
  }

  lemma SpreadIsKept(rows: Rows, s: Scale, out: Rows, y: nat, x: nat)
    requires ValidScale(s) && y < s.th && x < s.tw && y < |out| && HasPixel(out[y], rows, s, y, x)
    ensures Spread(out, s)(y, x) == Kept(Alpha(rows), s)(y, x)
  {
    AlphaInRange(rows, s, y, x);
    BoxCounts(Lo(y, s.height, s.th), Hi(y, s.height, s.th), Lo(x, s.width, s.tw), Hi(x, s.width, s.tw));
    assert out[y][4 * x..4 * x + 4][3] == out[y][4 * x + 3];
  }

  /** Scaling down conserves opacity in the bytes it puts out: spread over the pixels they stand
      for, they add up to at most the source's alpha, and to less than one per source pixel below. */
  lemma AlphaBytesAreConserved(rows: Rows, s: Scale, out: Rows)
    requires ValidScale(s) && s.tw <= s.width && s.th <= s.height && |out| == s.th
    requires forall y, x :: 0 <= y < s.th && 0 <= x < s.tw ==> HasPixel(out[y], rows, s, y, x)
    ensures var put, all := Box(Spread(out, s), 0, s.th, 0, s.tw), Box(Alpha(rows), 0, s.height, 0, s.width);
            put <= all <= put + s.height * s.width - s.th * s.tw
  {
    forall y: nat, x: nat | y < s.th && x < s.tw
      ensures Spread(out, s)(y, x) == Kept(Alpha(rows), s)(y, x)
    {
      SpreadIsKept(rows, s, out, y, x);
    }
    SameBox(Spread(out, s), Kept(Alpha(rows), s), s.th, s.tw);
    AlphaIsConserved(Alpha(rows), s);
  }

  // ----- Scaling to the same size -----

  lemma SameSize(k: nat, n: nat)
    requires n > 0
    ensures Lo(k, n, n) == k && Hi(k, n, n) == k + 1
  {
    DivOfProduct(k, n);
    DivOfProduct(k + 1, n);
  }

  lemma OnePixel(g: Grid, y: nat, x: nat)
    ensures Box(g, y, y + 1, x, x + 1) == g(y, x)
  {
    assert Line(g, y, x, x) == 0 && Box(g, y, y, x, x + 1) == 0;
  }

  /** Scaling to the same size changes nothing but the colour of fully transparent pixels,
      which becomes 0. */
  lemma SameSizeIsIdentity(rows: Rows, s: Scale, y: nat, x: nat, c: nat)
    requires ValidScale(s) && s.tw == s.width && s.th == s.height && y < s.th && x < s.tw && c <= 3
    ensures OutValue(rows, s, y, x, c) == if ByteAt(rows, y, 4 * x + 3) > 0 || c == 3 then ByteAt(rows, y, 4 * x + c) else 0
  {
    SameSize(y, s.height);
    SameSize(x, s.width);
    OnePixel(Alpha(rows), y, x);
    OnePixel(ONE, y, x);
    OnePixel(Tinted(rows, c), y, x);
    if ByteAt(rows, y, 4 * x + 3) > 0 {
      DivOfProduct(ByteAt(rows, y, 4 * x + c), ByteAt(rows, y, 4 * x + 3));
    }
  }

  // ----- The loops -----

  datatype Sums = Sums(r: int, g: int, b: int, a: int, n: int)

  ghost function SumsTo(rows: Rows, y0: nat, y1: nat, x0: nat, x1: nat): Sums
    requires y0 <= y1 && x0 <= x1
  {
    Sums(Box(Tinted(rows, 0), y0, y1, x0, x1), Box(Tinted(rows, 1), y0, y1, x0, x1), Box(Tinted(rows, 2), y0, y1, x0, x1),
         Box(Alpha(rows), y0, y1, x0, x1), Box(ONE, y0, y1, x0, x1))
  }

  ghost function LineSums(rows: Rows, y: nat, x0: nat, x1: nat): Sums
    requires x0 <= x1
  {
    Sums(Line(Tinted(rows, 0), y, x0, x1), Line(Tinted(rows, 1), y, x0, x1), Line(Tinted(rows, 2), y, x0, x1),
         Line(Alpha(rows), y, x0, x1), Line(ONE, y, x0, x1))
  }

  function Plus5(a: Sums, b: Sums): Sums {
    Sums(a.r + b.r, a.g + b.g, a.b + b.b, a.a + b.a, a.n + b.n)
  }

  /** The two inner loops: the sums under one destination pixel. */
  method SumUnder(rows: Rows, ghost width: nat, y0: nat, y1: nat, x0: nat, x1: nat) returns (t: Sums)
    requires y0 <= y1 <= |rows| && x0 <= x1 <= width && forall y :: 0 <= y < |rows| ==> |rows[y]| == 4 * width
    ensures t == SumsTo(rows, y0, y1, x0, x1)
  {
    t := Sums(0, 0, 0, 0, 0);
    for sy := y0 to y1
      invariant t == SumsTo(rows, y0, sy, x0, x1)
    {
      var line := rows[sy];
      ghost var before := t;
      for sx := x0 to x1
        invariant t == Plus5(before, LineSums(rows, sy, x0, sx))
      {
        var at := sx * 4;
        var alpha := line[at + 3] as int;
        assert Alpha(rows)(sy, sx) == alpha && Tinted(rows, 0)(sy, sx) == line[at] as int * alpha
            && Tinted(rows, 1)(sy, sx) == line[at + 1] as int * alpha && Tinted(rows, 2)(sy, sx) == line[at + 2] as int * alpha;
        t := Sums(t.r + line[at] as int * alpha, t.g + line[at + 1] as int * alpha, t.b + line[at + 2] as int * alpha,
                  t.a + alpha, t.n + 1);
      }
    }
  }

  /** The four bytes of one destination pixel. */
  ghost predicate IsPixel(p: seq<byte>, rows: Rows, s: Scale, y: nat, x: nat)
    requires s.tw > 0 && s.th > 0
  {
    |p| == 4 && forall c :: 0 <= c < 4 ==> p[c] as int == OutValue(rows, s, y, x, c)
  }

  /** The pixel at `x` of a destination row. */
  ghost predicate HasPixel(row: seq<byte>, rows: Rows, s: Scale, y: nat, x: nat)
    requires s.tw > 0 && s.th > 0
  {
    4 * x + 4 <= |row| && IsPixel(row[4 * x..4 * x + 4], rows, s, y, x)
  }

  method Pixel(rows: Rows, s: Scale, y: nat, x: nat) returns (p: seq<byte>)
    requires ValidScale(s) && Holds(rows, s) && y < s.th && x < s.tw
    ensures IsPixel(p, rows, s, y, x)
  {
    IntervalInRange(y, s.height, s.th);
    IntervalInRange(x, s.width, s.tw);
    var t := SumUnder(rows, s.width, Lo(y, s.height, s.th), Hi(y, s.height, s.th), Lo(x, s.width, s.tw), Hi(x, s.width, s.tw));
    AlphaInRange(rows, s, y, x);
    var r, g, b := 0, 0, 0;
    if t.a != 0 {
      OutValueInRange(rows, s, y, x, 0);
      OutValueInRange(rows, s, y, x, 1);
      OutValueInRange(rows, s, y, x, 2);
      r, g, b := Min(255, t.r / t.a), Min(255, t.g / t.a), Min(255, t.b / t.a);
    }
    p := [r as byte, g as byte, b as byte, (t.a / t.n) as byte];
  }

  /** `resample`: every destination pixel is the average of the pixels under it. */
  method Resampled(rows: Rows, s: Scale) returns (out: Rows)
    requires s.width > 0 && s.height > 0 && Holds(rows, s)
    ensures |out| == s.th && forall y :: 0 <= y < |out| ==> |out[y]| == 4 * s.tw
    ensures forall y, x :: 0 <= y < s.th && 0 <= x < s.tw ==> HasPixel(out[y], rows, s, y, x)
  {
    out := [];
    for y := 0 to s.th
      invariant |out| == y && forall j :: 0 <= j < y ==> |out[j]| == 4 * s.tw
      invariant forall j, x :: 0 <= j < y && 0 <= x < s.tw ==> HasPixel(out[j], rows, s, j, x)
    {
      var row: seq<byte> := [];
      for x := 0 to s.tw
        invariant |row| == 4 * x
        invariant forall k :: 0 <= k < x ==> HasPixel(row, rows, s, y, k)
      {
        var p := Pixel(rows, s, y, x);
        ghost var before := row;
        row := row + p;
        forall k | 0 <= k < x
          ensures HasPixel(row, rows, s, y, k)
        {
          assert HasPixel(before, rows, s, y, k);
          assert row[4 * k..4 * k + 4] == before[4 * k..4 * k + 4];
        }
        assert row[4 * x..4 * x + 4] == p;
      }
      out := out + [row];
    }
  }
}
