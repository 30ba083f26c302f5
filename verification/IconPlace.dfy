/** Placing the mark on the icon's tile (scripts/icon.py, `place`), with the scale taken over
    the reals. */
module IconPlace {
  import opened Division
  import opened ByteStrings
  import opened Resample
  import opened Scaling

  const BODY: real := 824.0 / 1024.0

  function FillFor(size: nat): real { if size < 40 then 0.96 else 0.80 }

  /** Python's `round`: to the nearest, halves to even. */
  function Round(x: real): int {
    var down := x.Floor;
    var over := x - down as real;
    if over < 0.5 || (over == 0.5 && down % 2 == 0) then down else down + 1
  }

  /** How many pixels the mark may take. */
  function Room(size: nat): nat {
    (size as real * BODY * FillFor(size)).Floor
  }

  function Share(room: nat, n: nat): real
    requires n > 0
  {
    room as real / n as real
  }

  function Smaller(a: real, b: real): real { if a < b then a else b }

  function Target(n: nat, scale: real): nat {
    var r := Round(n as real * scale);
    if r > 1 then r else 1
  }

  lemma RoundWithin(x: real, n: int)
    requires x <= n as real
    ensures Round(x) <= n
  {
  }

  lemma QuotientTimes(room: real, n: real, scale: real)
    requires n > 0.0 && scale <= room / n
    ensures n * scale <= room
  {
    var q := room / n;
    assert n * q == room;
    assert n * (q - scale) >= 0.0;
  }

  lemma TargetFits(n: nat, room: nat, scale: real)
    requires n > 0 && room >= 1 && scale <= Share(room, n)
    ensures 1 <= Target(n, scale) <= room
  {
    QuotientTimes(room as real, n as real, scale);
    RoundWithin(n as real * scale, room);
  }

  lemma FloorWithin(n: nat, f: real)
    requires 0.0 <= f <= 1.0
    ensures 0 <= (n as real * f).Floor <= n
  {
    assert 0.0 <= n as real * f && 0.0 <= n as real * (1.0 - f);
  }

  lemma RoomWithin(size: nat)
    ensures Room(size) <= size
  {
    FloorWithin(size, BODY * FillFor(size));
    assert size as real * BODY * FillFor(size) == size as real * (BODY * FillFor(size));
  }

  /** Where the mark goes: `th` rows of `tw` pixels, from row `top` and column `left`. */
  datatype Spot = Spot(top: nat, left: nat, th: nat, tw: nat) {
    predicate Covers(j: int, x: int) { top <= j < top + th && left <= x < left + tw }
  }

  /** The mark is scaled as far as the room allows, in proportion, and centred to a pixel: it
      always fits the tile, however large the mark. */
  function SpotFor(size: nat, w: nat, h: nat): (spot: Spot)
    requires w > 0 && h > 0 && Room(size) >= 1
    ensures spot.top + spot.th <= size && spot.left + spot.tw <= size
    ensures 0 <= size - spot.th - 2 * spot.top <= 1 && 0 <= size - spot.tw - 2 * spot.left <= 1
    ensures 1 <= spot.tw <= Room(size) && 1 <= spot.th <= Room(size)
  {
    var room := Room(size);
    var scale := Smaller(Share(room, w), Share(room, h));
    TargetFits(w, room, scale);
    TargetFits(h, room, scale);
    RoomWithin(size);
    var tw, th := Target(w, scale), Target(h, scale);
    Spot((size - th) / 2, (size - tw) / 2, th, tw)
  }

  // ----- How large the mark becomes, in whole numbers -----

  /** The room is that share of the tile's body, rounded down: 96 hundredths for a small icon,
      80 for others. */
  lemma RoomIs(size: nat)
    ensures var share := size * 824 * if size < 40 then 96 else 80;
            Room(size) * 102400 <= share < (Room(size) + 1) * 102400
  {
    var share := size * 824 * if size < 40 then 96 else 80;
    assert size as real * BODY * FillFor(size) * 102400.0 == share as real;
  }

  lemma RoundIsNearest(x: real)
    ensures var r := Round(x); r as real - 0.5 <= x <= r as real + 0.5 && (x - r as real == 0.5 || x - r as real == -0.5 ==> r % 2 == 0)
  {
  }

  /** `t` is the whole number nearest to `n * room / long`, halves to even, but at least 1. */
  ghost predicate Nearly(t: nat, n: nat, room: nat, long: nat) {
    var twice, exact := 2 * (t * long), 2 * (n * room);
    && t >= 1
    && exact - twice <= long && (exact - twice == long ==> t % 2 == 0)
    && (t > 1 ==> twice - exact <= long) && (t > 1 && twice - exact == long ==> t % 2 == 0)
  }

  lemma Stretch(a: real, b: real, k: real)
    requires k > 0.0
    ensures a <= b <==> a * k <= b * k
    ensures a == b <==> a * k == b * k
  {
    assert (b - a) * k == b * k - a * k;
    if a < b {
      assert (b - a) * k > 0.0;
    } else if b < a {
      assert (a - b) * k > 0.0;
    }
  }

  lemma RealProduct(a: int, b: int)
    ensures (a * b) as real == a as real * b as real
  {
  }

  lemma HalfMore(r: int, half: real, k: nat)
    ensures (r as real + half) * k as real == (r * k) as real + half * k as real
  {
    RealProduct(r, k);
  }

  lemma UpperSide(x: real, r: int, k: nat, p: int)
    requires k > 0 && p == r * k && x <= r as real + 0.5
    ensures x * k as real <= p as real + 0.5 * k as real
    ensures x * k as real == p as real + 0.5 * k as real ==> x == r as real + 0.5
  {
    HalfMore(r, 0.5, k);
    Stretch(x, r as real + 0.5, k as real);
  }

  lemma LowerSide(x: real, r: int, k: nat, p: int)
    requires k > 0 && p == r * k && r as real - 0.5 <= x
    ensures p as real - 0.5 * k as real <= x * k as real
    ensures p as real - 0.5 * k as real == x * k as real ==> x == r as real - 0.5
  {
    HalfMore(r, -0.5, k);
    Stretch(r as real - 0.5, x, k as real);
  }

  /** A number within a half of `r`, multiplied out: `y` is `k` times the number. */
  lemma MultipliedOut(x: real, r: int, k: nat, p: int, y: real, exact: int)
    requires k > 0 && p == r * k && y == x * k as real && y == exact as real && r as real - 0.5 <= x <= r as real + 0.5
    ensures 2 * p - k <= 2 * exact <= 2 * p + k
    ensures 2 * exact == 2 * p + k ==> x == r as real + 0.5
    ensures 2 * exact == 2 * p - k ==> x == r as real - 0.5
  {
    UpperSide(x, r, k, p);
    LowerSide(x, r, k, p);
  }

  lemma RoundedIsNear(x: real, t: nat, n: nat, room: nat, long: nat)
    requires long > 0 && x * long as real == (n * room) as real && t == (if Round(x) > 1 then Round(x) else 1)
    ensures Nearly(t, n, room, long)
  {
    RoundIsNearest(x);
    var r := Round(x);
    MultipliedOut(x, r, long, r * long, x * long as real, n * room);
    if r < 1 {
      MulLe(r, 0, long);
    }
  }

  lemma ShareTimes(room: nat, long: nat)
    requires long > 0
    ensures Share(room, long) * long as real == room as real
  {
  }

  lemma SideTimes(n: nat, scale: real, long: nat, room: nat, x: real)
    requires scale * long as real == room as real && x == n as real * scale
    ensures x * long as real == (n * room) as real
  {
    RealProduct(n, room);
    assert x * long as real == n as real * (scale * long as real);
  }

  lemma ExactTarget(n: nat, room: nat, long: nat, scale: real) returns (x: real)
    requires long > 0 && scale * long as real == room as real
    ensures x * long as real == (n * room) as real && Target(n, scale) == if Round(x) > 1 then Round(x) else 1
  {
    x := n as real * scale;
    SideTimes(n, scale, long, room, x);
  }

  lemma TargetIsNear(n: nat, room: nat, long: nat, scale: real)
    requires n > 0 && long > 0 && scale == Share(room, long)
    ensures Nearly(Target(n, scale), n, room, long)
  {
    ShareTimes(room, long);
    var x := ExactTarget(n, room, long, scale);
    RoundedIsNear(x, Target(n, scale), n, room, long);
  }

  lemma LongSideFills(room: nat, long: nat)
    requires room >= 1 && long > 0
    ensures Target(long, Share(room, long)) == room
  {
    assert long as real * Share(room, long) == room as real;
  }

  lemma LongSideDecides(room: nat, long: nat, short: nat)
    requires long >= short > 0
    ensures Share(room, long) <= Share(room, short)
  {
    ShareTimes(room, long);
    ShareTimes(room, short);
    var a := Share(room, long);
    Stretch(short as real, long as real, 1.0);
    assert a * (long as real - short as real) >= 0.0;
    Stretch(a, Share(room, short), short as real);
  }

  /** The longer side takes all the room, and the other is in proportion, to the nearest pixel. */
  lemma SpotIsProportional(size: nat, w: nat, h: nat)
    requires w > 0 && h > 0 && Room(size) >= 1
    ensures var room, spot := Room(size), SpotFor(size, w, h);
            && (w >= h ==> spot.tw == room && Nearly(spot.th, h, room, w))
            && (h >= w ==> spot.th == room && Nearly(spot.tw, w, room, h))
  {
    var room := Room(size);
    if w >= h {
      LongSideDecides(room, w, h);
      LongSideFills(room, w);
      TargetIsNear(h, room, w, Share(room, w));
    }
    if h >= w {
      LongSideDecides(room, h, w);
      LongSideFills(room, h);
      TargetIsNear(w, room, h, Share(room, h));
    }
  }

  function Max(a: int, b: int): int { if a < b then b else a }

  function Blend(tile: int, mark: int, alpha: int): int {
    (mark * alpha + tile * (255 - alpha)) / 255
  }

  lemma BlendBetween(tile: int, mark: int, alpha: int)
    requires 0 <= alpha <= 255
    ensures Min(mark, tile) <= Blend(tile, mark, alpha) <= Max(mark, tile)
  {
    var lo, hi := Min(mark, tile), Max(mark, tile);
    var a, b := alpha, 255 - alpha;
    MulLe(lo, mark, a);
    MulLe(mark, hi, a);
    MulLe(lo, tile, b);
    MulLe(tile, hi, b);
    assert lo * a + lo * b == lo * 255 && hi * a + hi * b == hi * 255;
    DivBetween(mark * a + tile * b, 255, lo, hi);
  }

  /** One byte of a tile pixel once a mark pixel is over it; `c` says which of the four. */
  function Mixed(tile: byte, mark: byte, alpha: byte, c: nat): byte {
    if alpha == 0 then tile
    else if c == 3 then (if tile < alpha then alpha else tile)
    else
      BlendBetween(tile as int, mark as int, alpha as int);
      Blend(tile as int, mark as int, alpha as int) as byte
  }

  /** A blended channel lies between the mark's and the tile's; alpha is never lowered; where
      the mark is opaque it stands, where it is transparent the tile does. */
  lemma MixedIsBetween(tile: byte, mark: byte, alpha: byte, c: nat)
    ensures c != 3 ==> Min(mark as int, tile as int) <= Mixed(tile, mark, alpha, c) as int <= Max(mark as int, tile as int)
    ensures c == 3 ==> Mixed(tile, mark, alpha, c) >= tile && Mixed(tile, mark, alpha, c) >= alpha
    ensures c == 3 ==> Mixed(tile, mark, alpha, c) == tile || Mixed(tile, mark, alpha, c) == alpha
    ensures c != 3 ==> var sum := mark as int * alpha as int + tile as int * (255 - alpha as int);
                       255 * Mixed(tile, mark, alpha, c) as int <= sum < 255 * (Mixed(tile, mark, alpha, c) as int + 1)
    ensures alpha == 0 ==> Mixed(tile, mark, alpha, c) == tile
    ensures alpha == 255 && c != 3 ==> Mixed(tile, mark, alpha, c) == mark
  {
    BlendBetween(tile as int, mark as int, alpha as int);
    DivOfProduct(mark as int, 255);
  }

  /** The byte of the tile at row `j`, column `i`, once the mark is on it: the tile's own
      outside the mark's rectangle. */
  ghost function Placed(was: byte, scaled: Rows, spot: Spot, j: int, i: int): byte
    requires |scaled| == spot.th && forall y :: 0 <= y < |scaled| ==> |scaled[y]| == 4 * spot.tw
  {
    if spot.Covers(j, i / 4) then
      var line, at := scaled[j - spot.top], 4 * (i / 4 - spot.left);
      Mixed(was, line[at + i % 4], line[at + 3], i % 4)
    else was
  }

  /** One pixel, in place. */
  method Composite(base: array2<byte>, row: nat, to: nat, pixel: seq<byte>)
    requires row < base.Length0 && to + 4 <= base.Length1 && |pixel| == 4
    modifies base
    ensures forall j, i :: 0 <= j < base.Length0 && 0 <= i < base.Length1 ==>
              base[j, i] == if j == row && to <= i < to + 4
                            then Mixed(old(base[j, i]), pixel[i - to], pixel[3], i - to)
                            else old(base[j, i])
  {
    var alpha := pixel[3];
    if alpha == 0 {
      return;
    }
    for c := 0 to 3
      invariant forall j, i :: 0 <= j < base.Length0 && 0 <= i < base.Length1 ==>
                  base[j, i] == if j == row && to <= i < to + c
                                then Mixed(old(base[j, i]), pixel[i - to], alpha, i - to)
                                else old(base[j, i])
    {
      BlendBetween(base[row, to + c] as int, pixel[c] as int, alpha as int);
      base[row, to + c] := Blend(base[row, to + c] as int, pixel[c] as int, alpha as int) as byte;
    }
    base[row, to + 3] := if base[row, to + 3] < alpha then alpha else base[row, to + 3];
  }

  /** Done so far: the rows above `y` of the mark, and its row `y` up to column `x`. */
  ghost predicate Reached(spot: Spot, y: int, x: int, j: int, k: int) {
    spot.Covers(j, k) && (j < spot.top + y || (j == spot.top + y && k < spot.left + x))
  }

  /** The compositing loops. */
  method CompositeAll(base: array2<byte>, scaled: Rows, spot: Spot)
    requires |scaled| == spot.th && forall y :: 0 <= y < |scaled| ==> |scaled[y]| == 4 * spot.tw
    requires spot.top + spot.th <= base.Length0 && 4 * (spot.left + spot.tw) <= base.Length1
    modifies base
    ensures forall j, i :: 0 <= j < base.Length0 && 0 <= i < base.Length1 ==>
              base[j, i] == Placed(old(base[j, i]), scaled, spot, j, i)
  {
    for y := 0 to spot.th
      invariant forall j, i :: 0 <= j < base.Length0 && 0 <= i < base.Length1 ==>
                  base[j, i] == if Reached(spot, y, 0, j, i / 4) then Placed(old(base[j, i]), scaled, spot, j, i) else old(base[j, i])
    {
      for x := 0 to spot.tw
        invariant forall j, i :: 0 <= j < base.Length0 && 0 <= i < base.Length1 ==>
                    base[j, i] == if Reached(spot, y, x, j, i / 4) then Placed(old(base[j, i]), scaled, spot, j, i) else old(base[j, i])
      {
        Composite(base, spot.top + y, 4 * (spot.left + x), scaled[y][4 * x..4 * x + 4]);
      }
    }
  }

  /** The mark as `resample` scales it for its spot. */
  ghost predicate IsScaled(scaled: Rows, mark: Rows, s: Scale) {
    && s.width > 0 && s.height > 0 && Holds(mark, s)
    && |scaled| == s.th
    && (forall y :: 0 <= y < |scaled| ==> |scaled[y]| == 4 * s.tw)
    && forall y, x :: 0 <= y < s.th && 0 <= x < s.tw ==> HasPixel(scaled[y], mark, s, y, x)
  }

  /** `place`. Nothing changes when there is no room for the mark; otherwise only the mark's
      rectangle does. */
  method Place(base: array2<byte>, size: nat, w: nat, h: nat, mark: Rows) returns (scaled: Rows)
    requires base.Length0 == size && base.Length1 == 4 * size && w > 0 && h > 0
    requires Holds(mark, Scale(w, h, 0, 0))
    modifies base
    ensures Room(size) < 1 ==> forall j, i :: 0 <= j < size && 0 <= i < 4 * size ==> base[j, i] == old(base[j, i])
    ensures Room(size) >= 1 ==>
              var spot := SpotFor(size, w, h);
              && IsScaled(scaled, mark, Scale(w, h, spot.tw, spot.th))
              && forall j, i :: 0 <= j < size && 0 <= i < 4 * size ==>
                   base[j, i] == Placed(old(base[j, i]), scaled, spot, j, i)
  {
    scaled := [];
    if Room(size) < 1 {
      return;
    }
    var spot := SpotFor(size, w, h);
    scaled := Resampled(mark, Scale(w, h, spot.tw, spot.th));
    CompositeAll(base, scaled, spot);
  }

  /** What `Place` leaves of a byte: unchanged outside the rectangle, never less opaque,
      never outside the range between mark and tile. */
  lemma PlacedIsGentle(was: byte, scaled: Rows, spot: Spot, j: int, i: int)
    requires |scaled| == spot.th && forall y :: 0 <= y < |scaled| ==> |scaled[y]| == 4 * spot.tw
    ensures !spot.Covers(j, i / 4) ==> Placed(was, scaled, spot, j, i) == was
    ensures i % 4 == 3 ==> was <= Placed(was, scaled, spot, j, i)
    ensures i % 4 != 3 && spot.Covers(j, i / 4) ==>
              var mark := scaled[j - spot.top][4 * (i / 4 - spot.left) + i % 4];
              Min(mark as int, was as int) <= Placed(was, scaled, spot, j, i) as int <= Max(mark as int, was as int)
  {
    if spot.Covers(j, i / 4) {
      var line, at := scaled[j - spot.top], 4 * (i / 4 - spot.left);
      MixedIsBetween(was, line[at + i % 4], line[at + 3], i % 4);
    }
  }
}
