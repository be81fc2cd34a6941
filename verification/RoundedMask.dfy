/**
 The rounded-corner mask (scripts/split_staff_oa_icon_sheet.py): nested loops over the pixels and,
 in the corners, over the sample points of a pixel. Sample positions are scaled by twice the
 supersampling rate, so the arithmetic is exact on integers; it is exact in the original, too, whose
 rate is a power of two.
*/
module RoundedMask {

  // ---------- The pixel ----------

  // Distances, scaled by 2s, from the centre c to the first sample of pixel x; samples are two apart.
  function FirstSample(x: int, c: int, s: nat): int {
    2 * s * (x - c) + 1
  }

  function Square(x: int): nat {
    x * x
  }

  // How many of the samples d, d+2, ... of a row have a square of at most q.
  function CountRow(d: int, q: int, n: nat): (r: nat)
    ensures r <= n
  {
    if n == 0 then 0 else CountRow(d, q, n - 1) + if Square(d + 2 * (n - 1)) <= q then 1 else 0
  }

  // The same over n rows e, e+2, ... of s samples each.
  function CountRows(e: int, d: int, bound: int, s: nat, n: nat): (r: nat)
    ensures r <= n * s
  {
    if n == 0 then 0
    else
      var row := CountRow(d, bound - Square(e + 2 * (n - 1)), s);
      assert (n - 1) * s + s == n * s;
      CountRows(e, d, bound, s, n - 1) + row
  }

  // Python's round of a/b.
  function Round(a: nat, b: nat): nat
    requires b > 0
  {
    var q, m := a / b, a % b;
    if 2 * m < b || (2 * m == b && q % 2 == 0) then q else q + 1
  }

  /** It is the nearest integer, and on a tie the even one. */
  lemma RoundMeaning(a: nat, b: nat)
    requires b > 0
    ensures var off: int := 2 * (Round(a, b) * b - a);
            0 <= off + b <= 2 * b && (off == b || off + b == 0 ==> Round(a, b) % 2 == 0)
  {
    var q, m, r := a / b, a % b, Round(a, b);
    Division(a, b);
    Distribute(q, b);
    hide Round;
    var off: int := 2 * (r * b - a);
    if r == q {
      assert off == -2 * m;
    } else {
      assert off == 2 * (b - m);
    }
  }

  lemma Division(a: nat, b: nat)
    requires b > 0
    ensures (a / b) * b + a % b == a && a % b < b
  {
  }

  lemma Distribute(q: int, b: int)
    ensures (q + 1) * b == q * b + b
  {
  }

  lemma RoundMonotone(a: nat, c: nat, b: nat)
    requires b > 0 && a <= c
    ensures Round(a, b) <= Round(c, b)
  {
    RoundMeaning(a, b);
    RoundMeaning(c, b);
    var r, t := Round(a, b), Round(c, b);
    Division(a, b);
    Division(c, b);
    QuotientMonotone(a, c, b);
    if a / b == c / b {
      assert a % b <= c % b;
    }
  }

  lemma QuotientMonotone(a: nat, c: nat, b: nat)
    requires b > 0 && a <= c
    ensures a / b <= c / b
  {
    var q, t := a / b, c / b;
    Division(a, b);
    Division(c, b);
    Distribute(t, b);
    if q > t {
      Scaled(t + 1, q, b);
      assert false;
    }
  }

  lemma Scaled(x: int, y: int, b: nat)
    requires x <= y
    ensures x * b <= y * b
  {
  }

  predicate IsCorner(x: int, size: nat, radius: nat) {
    x < radius || x >= size - radius
  }

  function Centre(x: int, size: nat, radius: nat): int {
    if x < radius then radius else size - radius
  }

  function Inside(w: nat, h: nat, radius: nat, s: nat, x: int, y: int): (r: nat)
    ensures r <= s * s
  {
    CountRows(FirstSample(y, Centre(y, h, radius), s), FirstSample(x, Centre(x, w, radius), s),
              Square(2 * s * radius), s, s)
  }

  function Pixel(w: nat, h: nat, radius: nat, s: nat, x: int, y: int): (p: nat)
    requires s >= 1
  {
    if radius == 0 || !IsCorner(x, w, radius) || !IsCorner(y, h, radius) then 255
    else
      SquarePositive(s);
      Round(255 * Inside(w, h, radius, s, x, y), s * s)
  }

  lemma SquarePositive(s: nat)
    requires s >= 1
    ensures s * s >= 1
  {
  }

  // ---------- The loops ----------

  // The samples of one row of a pixel.
  method CountSamples(d: int, dy: int, bound: nat, s: nat) returns (inside: nat)
    ensures inside == CountRow(d, bound - Square(dy), s)
  {
    inside := 0;
    for sx := 0 to s
      invariant inside == CountRow(d, bound - Square(dy), sx)
    {
      var dx := d + 2 * sx;
      if Square(dx) + Square(dy) <= bound {
        inside := inside + 1;
      }
    }
  }

  // The samples of one corner pixel.
  method CountInside(w: nat, h: nat, radius: nat, s: nat, x: nat, y: nat) returns (inside: nat)
    ensures inside == Inside(w, h, radius, s, x, y)
  {
    var cy, cx := Centre(y, h, radius), Centre(x, w, radius);
    var e, d, bound := FirstSample(y, cy, s), FirstSample(x, cx, s), Square(2 * s * radius);
    hide FirstSample, Square, CountRow, Centre;
    inside := 0;
    for sy := 0 to s
      invariant inside == CountRows(e, d, bound, s, sy)
    {
      var row := CountSamples(d, e + 2 * sy, bound, s);
      inside := inside + row;
    }
  }

  method Mask(width: nat, height: nat, radius: nat, supersample: nat) returns (pixels: array2<nat>)
    requires supersample >= 1
    ensures fresh(pixels) && pixels.Length0 == width && pixels.Length1 == height
    ensures forall x, y | 0 <= x < width && 0 <= y < height ::
            pixels[x, y] == Pixel(width, height, radius, supersample, x, y)
  {
    pixels := new nat[width, height]((x, y) => 255);
    if radius == 0 {
      return;
    }
    hide Inside, Round;
    for y := 0 to height
      invariant forall i, j | 0 <= i < width && 0 <= j < y ::
                pixels[i, j] == Pixel(width, height, radius, supersample, i, j)
      invariant forall i, j | 0 <= i < width && y <= j < height :: pixels[i, j] == 255
    {
      if !IsCorner(y, height, radius) {
        continue;
      }
      for x := 0 to width
        invariant forall i, j | 0 <= i < width && 0 <= j < y ::
                  pixels[i, j] == Pixel(width, height, radius, supersample, i, j)
        invariant forall i | 0 <= i < x :: pixels[i, y] == Pixel(width, height, radius, supersample, i, y)
        invariant forall i | x <= i < width :: pixels[i, y] == 255
        invariant forall i, j | 0 <= i < width && y < j < height :: pixels[i, j] == 255
      {
        if !IsCorner(x, width, radius) {
          continue;
        }
        var inside := CountInside(width, height, radius, supersample, x, y);
        SquarePositive(supersample);
        pixels[x, y] := Round(255 * inside, supersample * supersample);
      }
    }
  }

  // ---------- What is counted ----------

  // The samples (row, column) of the first n rows that lie in the disc.
  ghost function Samples(e: int, d: int, bound: int, s: nat, n: nat): set<(nat, nat)> {
    set j: nat, i: nat | j < n && i < s && InDisc(e, d, bound, j, i) :: (j, i)
  }

  predicate InDisc(e: int, d: int, bound: int, j: nat, i: nat) {
    Square(d + 2 * i) + Square(e + 2 * j) <= bound
  }

  ghost function RowSamples(e: int, d: int, bound: int, j: nat, n: nat): set<(nat, nat)> {
    set i: nat | i < n && InDisc(e, d, bound, j, i) :: (j, i)
  }

  lemma {:induction false} RowCounts(e: int, d: int, bound: int, j: nat, n: nat)
    ensures CountRow(d, bound - Square(e + 2 * j), n) == |RowSamples(e, d, bound, j, n)|
  {
    if n > 0 {
      RowCounts(e, d, bound, j, n - 1);
      assert RowSamples(e, d, bound, j, n) ==
             RowSamples(e, d, bound, j, n - 1) + if InDisc(e, d, bound, j, n - 1) then {(j, n - 1)} else {};
    }
  }

  lemma SamplesNext(e: int, d: int, bound: int, s: nat, n: nat)
    requires n > 0
    ensures Samples(e, d, bound, s, n) == Samples(e, d, bound, s, n - 1) + RowSamples(e, d, bound, n - 1, s)
    ensures Samples(e, d, bound, s, n - 1) !! RowSamples(e, d, bound, n - 1, s)
  {
    hide InDisc;
  }

  /** The counter ends at the number of sample points in the disc. */
  lemma {:induction false} RowsCount(e: int, d: int, bound: int, s: nat, n: nat)
    ensures CountRows(e, d, bound, s, n) == |Samples(e, d, bound, s, n)|
  {
    if n > 0 {
      RowsCount(e, d, bound, s, n - 1);
      RowCounts(e, d, bound, n - 1, s);
      SamplesNext(e, d, bound, s, n);
      hide Samples, RowSamples, CountRow;
    }
  }

  // ---------- In the plane ----------

  // How far sample i of pixel x lies from the centre of its corner's disc, on one axis of the picture; the
  // samples are in the middles of s equal parts of the pixel.
  function Offset(x: int, i: nat, size: int, radius: nat, s: nat): real
    requires s >= 1
  {
    x as real + (i as real + 0.5) / s as real - (if x < radius then radius else size - radius) as real
  }

  predicate NearCentre(dx: real, dy: real, radius: real) {
    dx * dx + dy * dy <= radius * radius
  }

  // The samples of a corner pixel at most the radius away from the centre of the corner's disc.
  ghost function SamplesInside(w: nat, h: nat, radius: nat, s: nat, x: int, y: int): set<(nat, nat)>
    requires s >= 1
  {
    set j: nat, i: nat | j < s && i < s
      && NearCentre(Offset(x, i, w, radius, s), Offset(y, j, h, radius, s), radius as real) :: (j, i)
  }

  lemma OffsetScaled(x: int, i: nat, size: nat, radius: nat, s: nat)
    requires s >= 1
    ensures Offset(x, i, size, radius, s) * (2 * s) as real ==
            (FirstSample(x, Centre(x, size, radius), s) + 2 * i) as real
  {
    var a, part := x - Centre(x, size, radius), (i as real + 0.5) / s as real;
    assert part * s as real == i as real + 0.5;
    assert (a as real + part) * (2.0 * s as real) == 2.0 * (s as real * a as real) + 2.0 * (part * s as real);
    RealProduct(s, a);
    assert 2 * s * a == 2 * (s * a);
  }

  lemma RealProduct(a: int, b: int)
    ensures (a * b) as real == a as real * b as real
  {
  }

  // Multiplication as a function, to reason about products by name.
  function Times(a: real, b: real): real {
    a * b
  }

  lemma TimesPositive(a: real, b: real)
    requires a > 0.0 && b > 0.0
    ensures Times(a, b) > 0.0
  {
  }

  lemma ScaledSquare(a: real, t: real)
    ensures Times(Times(a, t), Times(a, t)) == Times(Times(a, a), Times(t, t))
  {
  }

  lemma ScaledOrder(u: real, v: real, w: real, k: real)
    requires k > 0.0
    ensures Times(u, k) + Times(v, k) <= Times(w, k) <==> u + v <= w
  {
    assert Times(u, k) + Times(v, k) == Times(u + v, k);
    if u + v > w {
      TimesPositive(u + v - w, k);
    } else if u + v < w {
      TimesPositive(w - (u + v), k);
    }
  }

  lemma ScaledSquares(a: real, b: real, r: real, t: real)
    requires t > 0.0
    ensures Times(Times(a, t), Times(a, t)) + Times(Times(b, t), Times(b, t)) <= Times(Times(r, t), Times(r, t)) <==>
            Times(a, a) + Times(b, b) <= Times(r, r)
  {
    hide Times;
    ScaledSquare(a, t);
    ScaledSquare(b, t);
    ScaledSquare(r, t);
    TimesPositive(t, t);
    ScaledOrder(Times(a, a), Times(b, b), Times(r, r), Times(t, t));
  }

  lemma IntegerTimes(d: int)
    ensures Times(d as real, d as real) == (d * d) as real
  {
  }

  // The squares on the scaled integers.
  lemma IntegerSquares(dx: real, dy: real, r: real, t: real, d: int, e: int, q: int)
    requires t > 0.0 && Times(dx, t) == d as real && Times(dy, t) == e as real && Times(r, t) == q as real
    ensures Times(dx, dx) + Times(dy, dy) <= Times(r, r) <==> d * d + e * e <= q * q
  {
    hide Times;
    ScaledSquares(dx, dy, r, t);
    IntegerTimes(d);
    IntegerTimes(e);
    IntegerTimes(q);
  }

  lemma SampleInside(w: nat, h: nat, radius: nat, s: nat, x: int, y: int, j: nat, i: nat)
    requires s >= 1
    ensures NearCentre(Offset(x, i, w, radius, s), Offset(y, j, h, radius, s), radius as real) <==>
            InDisc(FirstSample(y, Centre(y, h, radius), s), FirstSample(x, Centre(x, w, radius), s),
                   Square(2 * s * radius), j, i)
  {
    hide Offset, FirstSample, Centre;
    var d, e := FirstSample(x, Centre(x, w, radius), s) + 2 * i, FirstSample(y, Centre(y, h, radius), s) + 2 * j;
    OffsetScaled(x, i, w, radius, s);
    OffsetScaled(y, j, h, radius, s);
    RealProduct(2 * s, radius);
    IntegerSquares(Offset(x, i, w, radius, s), Offset(y, j, h, radius, s), radius as real, (2 * s) as real,
                   d, e, 2 * s * radius);
  }

  /** What a pixel shows: outside the four corners it is opaque; in a corner it is 255 times the part of its
      samples that lie at most the radius from the corner's centre, to the nearest integer, on a tie the
      even one. */
  lemma PixelMeaning(w: nat, h: nat, radius: nat, s: nat, x: int, y: int)
    requires s >= 1
    ensures var p := Pixel(w, h, radius, s, x, y);
            if radius > 0 && (x < radius || x >= w - radius) && (y < radius || y >= h - radius) then
              var off: int := 2 * (p * (s * s) - 255 * |SamplesInside(w, h, radius, s, x, y)|);
              -(s * s) <= off <= s * s && (off == s * s || off == -(s * s) ==> p % 2 == 0)
            else p == 255
  {
    if radius > 0 && IsCorner(x, w, radius) && IsCorner(y, h, radius) {
      var e, d := FirstSample(y, Centre(y, h, radius), s), FirstSample(x, Centre(x, w, radius), s);
      var bound := Square(2 * s * radius);
      RowsCount(e, d, bound, s, s);
      SquarePositive(s);
      RoundMeaning(255 * Inside(w, h, radius, s, x, y), s * s);
      hide InDisc, NearCentre, Offset, FirstSample, Square, Centre, Round, CountRows;
      forall j: nat, i: nat | j < s && i < s
        ensures NearCentre(Offset(x, i, w, radius, s), Offset(y, j, h, radius, s), radius as real) <==>
                InDisc(e, d, bound, j, i)
      {
        SampleInside(w, h, radius, s, x, y, j, i);
      }
      assert Samples(e, d, bound, s, s) == SamplesInside(w, h, radius, s, x, y);
    }
  }

  // ---------- Symmetry ----------

  lemma MirrorSquare(x: int)
    ensures Square(-x) == Square(x)
  {
  }

  // Counting from the front.
  lemma {:induction false} CountRowFront(d: int, q: int, n: nat)
    requires n > 0
    ensures CountRow(d, q, n) == CountRow(d + 2, q, n - 1) + if Square(d) <= q then 1 else 0
  {
    if n > 1 {
      CountRowFront(d, q, n - 1);
      assert d + 2 + 2 * (n - 2) == d + 2 * (n - 1);
    }
  }

  // The mirrored row, sample by sample in the other order.
  lemma {:induction false} MirrorRow(d: int, q: int, n: nat)
    ensures CountRow(-(d + 2 * (n - 1)), q, n) == CountRow(d, q, n)
    decreases n
  {
    if n > 0 {
      MirrorRow(d + 2, q, n - 1);
      CountRowFront(d, q, n);
      MirrorSquare(d);
      assert -(d + 2 + 2 * (n - 2)) == -(d + 2 * (n - 1));
      assert -(d + 2 * (n - 1)) + 2 * (n - 1) == -d;
    }
  }

  lemma {:induction false} MirrorEachRow(e: int, d: int, bound: int, s: nat, n: nat)
    ensures CountRows(e, -(d + 2 * (s - 1)), bound, s, n) == CountRows(e, d, bound, s, n)
  {
    if n > 0 {
      MirrorEachRow(e, d, bound, s, n - 1);
      MirrorRow(d, bound - Square(e + 2 * (n - 1)), s);
    }
  }

  lemma {:induction false} CountRowsFront(e: int, d: int, bound: int, s: nat, n: nat)
    requires n > 0
    ensures CountRows(e, d, bound, s, n) == CountRows(e + 2, d, bound, s, n - 1) + CountRow(d, bound - Square(e), s)
  {
    if n > 1 {
      CountRowsFront(e, d, bound, s, n - 1);
      assert e + 2 + 2 * (n - 2) == e + 2 * (n - 1);
    }
  }

  // The mirrored rows, row by row in the other order.
  lemma {:induction false} MirrorRows(e: int, d: int, bound: int, s: nat, n: nat)
    ensures CountRows(-(e + 2 * (n - 1)), d, bound, s, n) == CountRows(e, d, bound, s, n)
    decreases n
  {
    if n > 0 {
      MirrorRows(e + 2, d, bound, s, n - 1);
      CountRowsFront(e, d, bound, s, n);
      MirrorSquare(e);
      assert -(e + 2 + 2 * (n - 2)) == -(e + 2 * (n - 1));
      assert -(e + 2 * (n - 1)) + 2 * (n - 1) == -e;
    }
  }

  // The samples of the mirrored pixel are the mirrored samples.
  lemma MirrorPixel(x: int, size: nat, radius: nat, s: nat)
    requires 0 <= x < size && 2 * radius <= size
    ensures IsCorner(size - 1 - x, size, radius) <==> IsCorner(x, size, radius)
    ensures IsCorner(x, size, radius) ==>
              FirstSample(size - 1 - x, Centre(size - 1 - x, size, radius), s)
              == -(FirstSample(x, Centre(x, size, radius), s) + 2 * (s - 1))
  {
    var c := Centre(x, size, radius);
    if IsCorner(x, size, radius) {
      assert Centre(size - 1 - x, size, radius) == size - c;
      Mirrored(s, x - c);
      assert size - 1 - x - (size - c) == -(x - c) - 1;
    }
  }

  lemma Mirrored(s: int, t: int)
    ensures 2 * s * (-t - 1) + 1 == -(2 * s * t + 1 + 2 * (s - 1))
  {
    assert 2 * s * (-t - 1) == -(2 * s * t) - 2 * s;
  }

  /** The mask is symmetric in both axes. */
  lemma FourFold(w: nat, h: nat, radius: nat, s: nat, x: int, y: int)
    requires s >= 1 && 2 * radius <= w && 2 * radius <= h && 0 <= x < w && 0 <= y < h
    ensures Pixel(w, h, radius, s, w - 1 - x, y) == Pixel(w, h, radius, s, x, y)
    ensures Pixel(w, h, radius, s, x, h - 1 - y) == Pixel(w, h, radius, s, x, y)
  {
    MirrorPixel(x, w, radius, s);
    MirrorPixel(y, h, radius, s);
    var e, d := FirstSample(y, Centre(y, h, radius), s), FirstSample(x, Centre(x, w, radius), s);
    var bound := Square(2 * s * radius);
    hide Square, FirstSample, Centre, IsCorner, Round;
    MirrorEachRow(e, d, bound, s, s);
    MirrorRows(e, d, bound, s, s);
  }

  // ---------- Toward the middle ----------

  // Samples closer to the centre count at least as often.
  lemma {:induction false} CloserRow(d: int, d2: int, q: int, q2: int, n: nat)
    requires AllCloser(d, d2, n)
    requires q <= q2
    ensures CountRow(d, q, n) <= CountRow(d2, q2, n)
  {
    if n > 0 {
      CloserRow(d, d2, q, q2, n - 1);
      assert Closer(d, d2, n - 1);
    }
  }

  ghost predicate AllCloser(d: int, d2: int, n: nat) {
    forall i | 0 <= i < n :: Closer(d, d2, i)
  }

  predicate Closer(d: int, d2: int, i: int) {
    Square(d2 + 2 * i) <= Square(d + 2 * i)
  }

  lemma {:induction false} CloserRows(e: int, e2: int, d: int, d2: int, bound: int, s: nat, n: nat)
    requires AllCloser(e, e2, n)
    requires AllCloser(d, d2, s)
    ensures CountRows(e, d, bound, s, n) <= CountRows(e2, d2, bound, s, n)
  {
    if n > 0 {
      CloserRows(e, e2, d, d2, bound, s, n - 1);
      assert Closer(e, e2, n - 1);
      CloserRow(d, d2, bound - Square(e + 2 * (n - 1)), bound - Square(e2 + 2 * (n - 1)), s);
    }
  }

  // One pixel in from the edge, still in the corner.
  lemma StepIn(x: int, radius: nat, s: nat, i: int)
    requires 0 <= x && x + 1 < radius && 0 <= i < s
    ensures Closer(FirstSample(x, radius, s), FirstSample(x + 1, radius, s), i)
  {
    var near := FirstSample(x + 1, radius, s) + 2 * i;
    assert FirstSample(x + 1, radius, s) == FirstSample(x, radius, s) + 2 * s;
    assert near <= 0 by {
      Scaled(x + 1 - radius, -1, 2 * s);
    }
    SquaresShrink(near, 2 * s);
  }

  lemma SquaresShrink(t: int, step: nat)
    requires t <= 0
    ensures Square(t) <= Square(t - step)
  {
    assert Square(t - step) == Square(t) - 2 * t * step + step * step;
    assert t * step <= 0;
  }

  lemma SameSample(d: int, i: int)
    ensures Closer(d, d, i)
  {
  }

  /** Pixels are bytes. */
  lemma PixelIsByte(w: nat, h: nat, radius: nat, s: nat, x: int, y: int)
    requires s >= 1
    ensures Pixel(w, h, radius, s, x, y) <= 255
  {
    SquarePositive(s);
    var n := s * s;
    Scaled(Inside(w, h, radius, s, x, y), n, 255);
    hide Inside;
    RoundMonotone(255 * Inside(w, h, radius, s, x, y), 255 * n, n);
    assert Round(255 * n, n) == 255 by {
      Exact(255, n);
    }
  }

  lemma Exact(k: nat, n: nat)
    requires n > 0
    ensures Round(k * n, n) == k
  {
    Division(k * n, n);
    Scaled(k * n / n, k, n);
    var q, m := k * n / n, k * n % n;
    assert (k - q) * n == m;
    if k - q >= 1 {
      Scaled(1, k - q, n);
      assert false;
    }
    if k - q <= -1 {
      Scaled(k - q, -1, n);
      assert false;
    }
  }

  lemma CornerGrows(w: nat, h: nat, radius: nat, s: nat, x: int, y: int, x2: int, y2: int)
    requires s >= 1 && IsCorner(x, w, radius) && IsCorner(y, h, radius) && IsCorner(x2, w, radius)
             && IsCorner(y2, h, radius)
    requires AllCloser(FirstSample(x, Centre(x, w, radius), s), FirstSample(x2, Centre(x2, w, radius), s), s)
    requires AllCloser(FirstSample(y, Centre(y, h, radius), s), FirstSample(y2, Centre(y2, h, radius), s), s)
    ensures Pixel(w, h, radius, s, x, y) <= Pixel(w, h, radius, s, x2, y2)
  {
    SquarePositive(s);
    assert Inside(w, h, radius, s, x, y) <= Inside(w, h, radius, s, x2, y2) by {
      hide Closer, FirstSample, Centre, Square;
      CloserRows(FirstSample(y, Centre(y, h, radius), s), FirstSample(y2, Centre(y2, h, radius), s),
                 FirstSample(x, Centre(x, w, radius), s), FirstSample(x2, Centre(x2, w, radius), s),
                 Square(2 * s * radius), s, s);
    }
    hide Inside, Round;
    RoundMonotone(255 * Inside(w, h, radius, s, x, y), 255 * Inside(w, h, radius, s, x2, y2), s * s);
  }

  /** From each edge toward the middle the mask never darkens; by the symmetry, from the other edge neither. */
  lemma GrowsInward(w: nat, h: nat, radius: nat, s: nat, x: int, y: int)
    requires s >= 1 && 2 * radius <= w && 2 * radius <= h && 0 <= x < w && 0 <= y < h
    ensures 2 * (x + 1) < w ==> Pixel(w, h, radius, s, x, y) <= Pixel(w, h, radius, s, x + 1, y)
    ensures 2 * (y + 1) < h ==> Pixel(w, h, radius, s, x, y) <= Pixel(w, h, radius, s, x, y + 1)
  {
    PixelIsByte(w, h, radius, s, x, y);
    if 2 * (x + 1) < w {
      GrowsInX(w, h, radius, s, x, y);
    }
    if 2 * (y + 1) < h {
      GrowsInY(w, h, radius, s, x, y);
    }
  }

  lemma PlainPixel(w: nat, h: nat, radius: nat, s: nat, x: int, y: int)
    requires s >= 1 && (!IsCorner(x, w, radius) || !IsCorner(y, h, radius))
    ensures Pixel(w, h, radius, s, x, y) == 255
  {
  }

  lemma AllStepIn(x: int, radius: nat, s: nat)
    requires 0 <= x && x + 1 < radius
    ensures AllCloser(FirstSample(x, radius, s), FirstSample(x + 1, radius, s), s)
  {
    hide Closer, FirstSample;
    var d, d2 := FirstSample(x, radius, s), FirstSample(x + 1, radius, s);
    forall i | 0 <= i < s ensures Closer(d, d2, i) {
      StepIn(x, radius, s, i);
    }
  }

  lemma AllStay(d: int, s: nat)
    ensures AllCloser(d, d, s)
  {
    forall i | 0 <= i < s ensures Closer(d, d, i) {
      SameSample(d, i);
    }
  }

  lemma GrowsInX(w: nat, h: nat, radius: nat, s: nat, x: int, y: int)
    requires s >= 1 && 2 * radius <= w && 0 <= x && 2 * (x + 1) < w && Pixel(w, h, radius, s, x, y) <= 255
    ensures Pixel(w, h, radius, s, x, y) <= Pixel(w, h, radius, s, x + 1, y)
  {
    hide Pixel, FirstSample, Closer;
    if x + 1 < radius && IsCorner(y, h, radius) {
      AllStepIn(x, radius, s);
      AllStay(FirstSample(y, Centre(y, h, radius), s), s);
      CornerGrows(w, h, radius, s, x, y, x + 1, y);
    } else {
      PlainPixel(w, h, radius, s, x + 1, y);
    }
  }

  lemma GrowsInY(w: nat, h: nat, radius: nat, s: nat, x: int, y: int)
    requires s >= 1 && 2 * radius <= h && 0 <= y && 2 * (y + 1) < h && Pixel(w, h, radius, s, x, y) <= 255
    ensures Pixel(w, h, radius, s, x, y) <= Pixel(w, h, radius, s, x, y + 1)
  {
    hide Pixel, FirstSample, Closer;
    if y + 1 < radius && IsCorner(x, w, radius) {
      AllStepIn(y, radius, s);
      AllStay(FirstSample(x, Centre(x, w, radius), s), s);
      CornerGrows(w, h, radius, s, x, y, x, y + 1);
    } else {
      PlainPixel(w, h, radius, s, x, y + 1);
    }
  }
}
