/** The box filter that scales a picture (scripts/png.py, `resample`). */
module Resample {
  import opened Division

  // ----- Which source positions a destination position averages -----

  function Lo(k: nat, n: nat, t: nat): nat
    requires t > 0
  {
    k * n / t
  }

  function Hi(k: nat, n: nat, t: nat): nat
    requires t > 0
  {
    var next := Lo(k + 1, n, t);
    if next > Lo(k, n, t) then next else Lo(k, n, t) + 1
  }

  lemma NextProduct(k: nat, n: nat)
    ensures (k + 1) * n == k * n + n
  {
  }

  lemma Ends(n: nat, t: nat)
    requires t > 0
    ensures Lo(0, n, t) == 0 && Lo(t, n, t) == n
  {
    assert t * n == n * t;
    DivOfProduct(n, t);
    DivOfProduct(0, t);
  }

  /** Up or down, every interval is non-empty and within the source. */
  lemma IntervalInRange(k: nat, n: nat, t: nat)
    requires k < t && n > 0
    ensures Lo(k, n, t) < Hi(k, n, t) <= n
  {
    LoSteps(k, n, t);
    LoMonotone(k + 1, t, n, t);
    Ends(n, t);
    LoBelow(k, n, t);
  }

  lemma LoBelow(k: nat, n: nat, t: nat)
    requires k < t && n > 0
    ensures Lo(k, n, t) < n
  {
    NextProduct(k, n);
    MulLe(k + 1, t, n);
    DivBounds(k * n, t);
    assert t * n == n * t;
    LtCancel(k * n / t, n, t);
  }

  lemma LoSteps(k: nat, n: nat, t: nat)
    requires t > 0
    ensures Lo(k, n, t) <= Lo(k + 1, n, t)
    ensures t <= n ==> Lo(k, n, t) < Lo(k + 1, n, t)
  {
    NextProduct(k, n);
    DivMonotone(k * n, (k + 1) * n, t);
    if t <= n {
      DivOneMore(k * n, t);
      DivMonotone(k * n + t, (k + 1) * n, t);
    }
  }

  lemma {:induction false} LoMonotone(j: nat, k: nat, n: nat, t: nat)
    requires j <= k && t > 0
    ensures Lo(j, n, t) <= Lo(k, n, t)
    decreases k
  {
    if j < k {
      LoMonotone(j, k - 1, n, t);
      LoSteps(k - 1, n, t);
    }
  }

  ghost predicate Covers(k: nat, s: nat, n: nat, t: nat)
    requires t > 0
  {
    Lo(k, n, t) <= s < Hi(k, n, t)
  }

  /** The one interval a position falls in, when there are no more intervals than positions. */
  lemma {:induction false} FindInterval(s: nat, n: nat, t: nat, m: nat) returns (k: nat)
    requires 0 < t <= n && m <= t && s < Lo(m, n, t)
    ensures k < m && Covers(k, s, n, t)
    decreases m
  {
    Ends(n, t);
    if s < Lo(m - 1, n, t) {
      k := FindInterval(s, n, t, m - 1);
    } else {
      LoSteps(m - 1, n, t);
      k := m - 1;
    }
  }

  lemma OnlyOneInterval(j: nat, k: nat, s: nat, n: nat, t: nat)
    requires 0 < t <= n && j < k && Covers(j, s, n, t)
    ensures !Covers(k, s, n, t)
  {
    LoSteps(j, n, t);
    LoMonotone(j + 1, k, n, t);
  }

  ghost predicate CountedOnce(s: nat, n: nat, t: nat)
    requires t > 0
  {
    exists k: nat :: k < t && Covers(k, s, n, t) && forall j: nat :: j < t && Covers(j, s, n, t) ==> j == k
  }

  lemma DownscalingCountsOnce(s: nat, n: nat, t: nat)
    requires 0 < t <= n && s < n
    ensures CountedOnce(s, n, t)
  {
    Ends(n, t);
    var k := FindInterval(s, n, t, t);
    forall j: nat | j < t && Covers(j, s, n, t)
      ensures j == k
    {
      if j < k {
        OnlyOneInterval(j, k, s, n, t);
      } else if k < j {
        OnlyOneInterval(k, j, s, n, t);
      }
    }
  }

  lemma UpscalingRepeats(n: nat, t: nat)
    requires 0 < n < t
    ensures !CountedOnce(0, n, t)
  {
    Ends(n, t);
    DivIs(n, t, 0);
    assert Lo(1, n, t) == 0;
    assert Covers(0, 0, n, t) && Covers(1, 0, n, t);
  }

  /** Every source position is counted exactly once precisely when scaling down (or not at all);
      scaling up, the first is counted at least twice. */
  lemma CountedOnceExactlyWhenDownscaling(n: nat, t: nat)
    requires n > 0 && t > 0
    ensures t <= n <==> forall s: nat :: s < n ==> CountedOnce(s, n, t)
  {
    if t <= n {
      forall s: nat | s < n
        ensures CountedOnce(s, n, t)
      {
        DownscalingCountsOnce(s, n, t);
      }
    } else {
      UpscalingRepeats(n, t);
    }
  }

  // ----- Sums over rectangles -----

  type Grid = (nat, nat) -> int

  function Line(g: Grid, y: nat, x0: nat, x1: nat): int
    requires x0 <= x1
  {
    if x0 == x1 then 0 else Line(g, y, x0, x1 - 1) + g(y, x1 - 1)
  }

  function Box(g: Grid, y0: nat, y1: nat, x0: nat, x1: nat): int
    requires y0 <= y1 && x0 <= x1
  {
    if y0 == y1 then 0 else Box(g, y0, y1 - 1, x0, x1) + Line(g, y1 - 1, x0, x1)
  }

  lemma {:induction false} LineSplit(g: Grid, y: nat, a: nat, b: nat, c: nat)
    requires a <= b <= c
    ensures Line(g, y, a, c) == Line(g, y, a, b) + Line(g, y, b, c)
    decreases c
  {
    if b < c {
      LineSplit(g, y, a, b, c - 1);
    }
  }

  lemma {:induction false} BoxSplitX(g: Grid, y0: nat, y1: nat, a: nat, b: nat, c: nat)
    requires y0 <= y1 && a <= b <= c
    ensures Box(g, y0, y1, a, c) == Box(g, y0, y1, a, b) + Box(g, y0, y1, b, c)
    decreases y1
  {
    if y0 < y1 {
      BoxSplitX(g, y0, y1 - 1, a, b, c);
      LineSplit(g, y1 - 1, a, b, c);
    }
  }

  lemma {:induction false} BoxSplitY(g: Grid, a: nat, b: nat, c: nat, x0: nat, x1: nat)
    requires a <= b <= c && x0 <= x1
    ensures Box(g, a, c, x0, x1) == Box(g, a, b, x0, x1) + Box(g, b, c, x0, x1)
    decreases c
  {
    if b < c {
      BoxSplitY(g, a, b, c - 1, x0, x1);
    }
  }

  lemma {:induction false} EmptyBox(g: Grid, y0: nat, y1: nat, x: nat)
    requires y0 <= y1
    ensures Box(g, y0, y1, x, x) == 0
    decreases y1
  {
    if y0 < y1 {
      EmptyBox(g, y0, y1 - 1, x);
    }
  }

  // ----- A scaled picture -----

  datatype Scale = Scale(width: nat, height: nat, tw: nat, th: nat)

  ghost predicate ValidScale(s: Scale) { s.width > 0 && s.height > 0 && s.tw > 0 && s.th > 0 }

  /** The sum under one destination pixel. */
  function Under(g: Grid, s: Scale, y: nat, x: nat): int
    requires s.tw > 0 && s.th > 0
  {
    Box(g, Lo(y, s.height, s.th), Hi(y, s.height, s.th), Lo(x, s.width, s.tw), Hi(x, s.width, s.tw))
  }

  function Down(g: Grid, s: Scale): Grid
    requires s.tw > 0 && s.th > 0
  {
    (y: nat, x: nat) => Under(g, s, y, x)
  }

  lemma {:induction false} StripIsTiled(g: Grid, s: Scale, y: nat, k: nat)
    requires ValidScale(s) && s.tw <= s.width
    ensures Line(Down(g, s), y, 0, k) == Box(g, Lo(y, s.height, s.th), Hi(y, s.height, s.th), 0, Lo(k, s.width, s.tw))
  {
    var y0, y1 := Lo(y, s.height, s.th), Hi(y, s.height, s.th);
    if k == 0 {
      Ends(s.width, s.tw);
      EmptyBox(g, y0, y1, 0);
    } else {
      StripIsTiled(g, s, y, k - 1);
      LoSteps(k - 1, s.width, s.tw);
      BoxSplitX(g, y0, y1, 0, Lo(k - 1, s.width, s.tw), Lo(k, s.width, s.tw));
    }
  }

  lemma {:induction false} PictureIsTiledTo(g: Grid, s: Scale, m: nat)
    requires ValidScale(s) && s.tw <= s.width && s.th <= s.height
    ensures Box(Down(g, s), 0, m, 0, s.tw) == Box(g, 0, Lo(m, s.height, s.th), 0, s.width)
  {
    Ends(s.height, s.th);
    Ends(s.width, s.tw);
    if m > 0 {
      PictureIsTiledTo(g, s, m - 1);
      StripIsTiled(g, s, m - 1, s.tw);
      LoSteps(m - 1, s.height, s.th);
      BoxSplitY(g, 0, Lo(m - 1, s.height, s.th), Lo(m, s.height, s.th), 0, s.width);
    }
  }

  /** Scaling down loses and repeats nothing: the sums under all destination pixels are the
      sum over the source. */
  lemma PictureIsTiled(g: Grid, s: Scale)
    requires ValidScale(s) && s.tw <= s.width && s.th <= s.height
    ensures Box(Down(g, s), 0, s.th, 0, s.tw) == Box(g, 0, s.height, 0, s.width)
  {
    PictureIsTiledTo(g, s, s.th);
    Ends(s.height, s.th);
  }

  // ----- Alpha -----

  const ONE: Grid := (y: nat, x: nat) => 1

  lemma {:induction false} LineCounts(y: nat, x0: nat, x1: nat)
    requires x0 <= x1
    ensures Line(ONE, y, x0, x1) == x1 - x0
    decreases x1
  {
    if x0 < x1 {
      LineCounts(y, x0, x1 - 1);
    }
  }

  lemma {:induction false} BoxCounts(y0: nat, y1: nat, x0: nat, x1: nat)
    requires y0 <= y1 && x0 <= x1
    ensures Box(ONE, y0, y1, x0, x1) == (y1 - y0) * (x1 - x0)
    decreases y1
  {
    if y0 < y1 {
      BoxCounts(y0, y1 - 1, x0, x1);
      LineCounts(y1 - 1, x0, x1);
      NextProduct(y1 - 1 - y0, x1 - x0);
    }
  }

  /** What a destination's alpha stands for, over the pixels under it. */
  function KeptAt(alpha: Grid, s: Scale, y: nat, x: nat): int
    requires s.tw > 0 && s.th > 0
  {
    var n := Under(ONE, s, y, x);
    if n > 0 then Under(alpha, s, y, x) / n * n else 0
  }

  function Kept(alpha: Grid, s: Scale): Grid
    requires s.tw > 0 && s.th > 0
  {
    (y: nat, x: nat) => KeptAt(alpha, s, y, x)
  }

  lemma KeptIsNear(alpha: Grid, s: Scale, y: nat, x: nat)
    requires ValidScale(s) && y < s.th && x < s.tw
    ensures Kept(alpha, s)(y, x) <= Down(alpha, s)(y, x) <= Kept(alpha, s)(y, x) + Down(ONE, s)(y, x) - 1
  {
    IntervalInRange(y, s.height, s.th);
    IntervalInRange(x, s.width, s.tw);
    var dy := Hi(y, s.height, s.th) - Lo(y, s.height, s.th);
    var dx := Hi(x, s.width, s.tw) - Lo(x, s.width, s.tw);
    BoxCounts(Lo(y, s.height, s.th), Hi(y, s.height, s.th), Lo(x, s.width, s.tw), Hi(x, s.width, s.tw));
    MulLe(1, dy, dx);
    DivBounds(Under(alpha, s, y, x), Under(ONE, s, y, x));
  }

  /** Three grids, everywhere one between another and that plus a third less one. */
  ghost predicate Near(k: Grid, a: Grid, n: Grid, h: nat, w: nat) {
    forall y: nat, x: nat :: y < h && x < w ==> k(y, x) <= a(y, x) <= k(y, x) + n(y, x) - 1
  }

  lemma {:induction false} NearLine(k: Grid, a: Grid, n: Grid, h: nat, w: nat, y: nat, m: nat)
    requires Near(k, a, n, h, w) && y < h && m <= w
    ensures Line(k, y, 0, m) <= Line(a, y, 0, m) <= Line(k, y, 0, m) + Line(n, y, 0, m) - m
  {
    if m > 0 {
      NearLine(k, a, n, h, w, y, m - 1);
    }
  }

  lemma {:induction false} NearBox(k: Grid, a: Grid, n: Grid, h: nat, w: nat, m: nat)
    requires Near(k, a, n, h, w) && m <= h
    ensures Box(k, 0, m, 0, w) <= Box(a, 0, m, 0, w) <= Box(k, 0, m, 0, w) + Box(n, 0, m, 0, w) - m * w
  {
    if m > 0 {
      NearBox(k, a, n, h, w, m - 1);
      NearLine(k, a, n, h, w, m - 1, w);
      NextProduct(m - 1, w);
    }
  }

  /** Opacity is conserved up to rounding: what the destination's alphas stand for is at most
      the source's alpha, and short of it by less than one for every source pixel. */
  lemma AlphaIsConserved(alpha: Grid, s: Scale)
    requires ValidScale(s) && s.tw <= s.width && s.th <= s.height
    ensures var kept, all := Box(Kept(alpha, s), 0, s.th, 0, s.tw), Box(alpha, 0, s.height, 0, s.width);
            kept <= all <= kept + s.height * s.width - s.th * s.tw
  {
    forall y: nat, x: nat | y < s.th && x < s.tw
      ensures Kept(alpha, s)(y, x) <= Down(alpha, s)(y, x) <= Kept(alpha, s)(y, x) + Down(ONE, s)(y, x) - 1
    {
      KeptIsNear(alpha, s, y, x);
    }
    NearBox(Kept(alpha, s), Down(alpha, s), Down(ONE, s), s.th, s.tw, s.th);
    PictureIsTiled(alpha, s);
    PictureIsTiled(ONE, s);
    BoxCounts(0, s.height, 0, s.width);
  }

  // ----- Colour -----

  ghost predicate Weighed(v: Grid, a: Grid, lo: int, hi: int, y0: nat, y1: nat, x0: nat, x1: nat) {
    forall y: nat, x: nat :: y0 <= y < y1 && x0 <= x < x1 ==> lo * a(y, x) <= v(y, x) <= hi * a(y, x)
  }

  lemma Distribute(c: int, a: int, b: int)
    ensures c * (a + b) == c * a + c * b
  {
  }

  lemma {:induction false} LineWeighed(v: Grid, a: Grid, lo: int, hi: int, y0: nat, y1: nat, x0: nat, x1: nat, y: nat, m: nat)
    requires Weighed(v, a, lo, hi, y0, y1, x0, x1) && y0 <= y < y1 && x0 <= m <= x1
    ensures lo * Line(a, y, x0, m) <= Line(v, y, x0, m) <= hi * Line(a, y, x0, m)
    decreases m
  {
    if x0 < m {
      LineWeighed(v, a, lo, hi, y0, y1, x0, x1, y, m - 1);
      Distribute(lo, Line(a, y, x0, m - 1), a(y, m - 1));
      Distribute(hi, Line(a, y, x0, m - 1), a(y, m - 1));
    }
  }

  lemma {:induction false} BoxWeighed(v: Grid, a: Grid, lo: int, hi: int, y0: nat, y1: nat, x0: nat, x1: nat, m: nat)
    requires Weighed(v, a, lo, hi, y0, y1, x0, x1) && y0 <= m <= y1 && x0 <= x1
    ensures lo * Box(a, y0, m, x0, x1) <= Box(v, y0, m, x0, x1) <= hi * Box(a, y0, m, x0, x1)
    decreases m
  {
    if y0 < m {
      BoxWeighed(v, a, lo, hi, y0, y1, x0, x1, m - 1);
      LineWeighed(v, a, lo, hi, y0, y1, x0, x1, m - 1, x1);
      Distribute(lo, Box(a, y0, m - 1, x0, x1), Line(a, m - 1, x0, x1));
      Distribute(hi, Box(a, y0, m - 1, x0, x1), Line(a, m - 1, x0, x1));
    }
  }
}
