/** Lines and filled circles of the graphics library, as the sequence of calls they make. */
module Gfx {
  import opened Arithmetic
  import opened Ssd1306

  datatype Point = Point(x: int, y: int)

  /** Twice the distance from the true line, along the minor axis, in units of the major extent. */
  function Offset(dx: int, dy: int, px: int, py: int): int { 2 * Abs(py * dx - px * dy) }

  /** Steps of the minor coordinate, one entry for every step of the major one. */
  ghost predicate Steps(ms: seq<nat>, dx: nat, dy: nat) {
    && (forall k | 0 <= k < |ms| :: Offset(dx, dy, k, ms[k]) <= dx)
    && (forall k | 0 < k < |ms| :: ms[k - 1] <= ms[k] <= ms[k - 1] + 1)
  }

  function Place(a0: int, b0: int, steep: bool, s: int, k: int, m: int): Point {
    if steep then Point(b0 + s * m, a0 + k) else Point(a0 + k, b0 + s * m)
  }

  lemma ErrorIsOffset(dx: nat, dy: nat, k: nat, m: nat, err: int)
    requires err == dx / 2 + (m * dx - k * dy) && 0 <= err && (err < dx || dx == 0) && dy <= dx
    ensures Offset(dx, dy, k, m) <= dx
  {
  }

  lemma NextError(dx: nat, dy: nat, k: nat, m: nat)
    ensures m * dx - (k + 1) * dy == (m * dx - k * dy) - dy
    ensures (m + 1) * dx - (k + 1) * dy == (m * dx - k * dy) - dy + dx
  {
  }

  /** No step of the minor coordinate goes beyond its end. */
  lemma MinorBound(dx: nat, dy: nat, k: nat, m: nat)
    requires Offset(dx, dy, k, m) <= dx && k <= dx
    ensures dx > 0 ==> m <= dy
  {
    assert (dy + 1) * dx == dx * dy + dx;
    Times(k, dx, dy);
    if m > dy {
      Times(dy + 1, m, dx);
    }
  }

  /** The quotient of a signed division by two. */
  function Halved(v: int): int { if v < 0 then 0 - (0 - v) / 2 else v / 2 }

  /** The extents are those of the line. */
  predicate Measured(a0: int, b0: int, a1: int, dx: int, dy: int, ystep: int) {
    0 <= dy <= dx == a1 - a0 <= 32767 && Int16(b0) && Int16(b0 + ystep * dy) && (ystep == 1 || ystep == -1)
  }

  lemma Between(b0: int, ystep: int, dy: nat, m: nat)
    requires Int16(b0) && Int16(b0 + ystep * dy) && (ystep == 1 || ystep == -1) && m <= dy
    ensures Int16(b0 + ystep * m)
  {
    if ystep == 1 {
      assert ystep * m <= ystep * dy;
    } else {
      assert ystep * m == 0 - m && ystep * dy == 0 - dy;
    }
  }

  lemma Unwrapped(v: int)
    requires Int16(v)
    ensures Wrap16(v) == v
  {
  }

  /** The next pixel's error and minor coordinate. */
  method Advance(dx: int, dy: int, ystep: int, y: int, err: int, ghost a0: int, ghost b0: int, ghost a1: int,
                 ghost k: nat, ghost m: nat)
    returns (y': int, err': int, ghost m': nat)
    requires Measured(a0, b0, a1, dx, dy, ystep) ==>
               && k <= dx && m <= dy && y == b0 + ystep * m
               && err == dx / 2 + (m * dx - k * dy) && (if dx > 0 then 0 <= err < dx else err == 0)
    ensures Measured(a0, b0, a1, dx, dy, ystep) ==>
              && m <= m' <= m + 1 && (m' <= dy ==> y' == b0 + ystep * m')
              && err' == dx / 2 + (m' * dx - (k + 1) * dy) && (if dx > 0 then 0 <= err' < dx else err' == 0)
  {
    hide Wrap16;
    ghost var good := Measured(a0, b0, a1, dx, dy, ystep);
    if good {
      NextError(dx, dy, k, m);
      Unwrapped(err - dy);
      if err - dy < 0 {
        Unwrapped(err - dy + dx);
        if m + 1 <= dy {
          Between(b0, ystep, dy, m + 1);
          assert ystep * (m + 1) == ystep * m + ystep;
          Unwrapped(b0 + ystep * (m + 1));
        }
      }
    }
    y', m' := y, m;
    err' := Wrap16(err - dy);
    if err' < 0 {
      y' := Wrap16(y' + ystep);
      err' := Wrap16(err' + dx);
      m' := m + 1;
    }
  }

  /**
   The loop, on coordinates that are swapped so that the first is the major one and grows.
   All variables have 16 bits.
   */
  method Trace(a0: int, b0: int, a1: int, dx: int, dy: int, ystep: int, steep: bool)
    returns (pixels: seq<Point>, ghost ms: seq<nat>)
    requires Int16(a0) && a0 <= a1 < 32767
    ensures |pixels| == |ms| == a1 - a0 + 1
    ensures forall k | 0 <= k < |pixels| :: (if steep then pixels[k].y else pixels[k].x) == a0 + k
    ensures Measured(a0, b0, a1, dx, dy, ystep) ==>
              && Steps(ms, dx, dy) && ms[0] == 0
              && forall k | 0 <= k < |pixels| :: pixels[k] == Place(a0, b0, steep, ystep, k, ms[k])
  {
    hide Offset, Wrap16, Measured;
    pixels, ms := [], [];
    ghost var good := Measured(a0, b0, a1, dx, dy, ystep);
    Measures(a0, b0, a1, dx, dy, ystep);
    var x, y, err := a0, b0, Halved(dx);
    ghost var m: nat := 0;
    while x <= a1
      invariant a0 <= x <= a1 + 1 && |pixels| == |ms| == x - a0
      invariant forall k | 0 <= k < |pixels| :: (if steep then pixels[k].y else pixels[k].x) == a0 + k
      invariant good ==> (m <= dy ==> y == b0 + ystep * m)
      invariant good ==> err == dx / 2 + (m * dx - (x - a0) * dy) && if dx > 0 then 0 <= err < dx else err == 0
      invariant good ==> Steps(ms, dx, dy)
      invariant good ==> if ms == [] then m == 0 else ms[0] == 0 && ms[|ms| - 1] <= m <= ms[|ms| - 1] + 1
      invariant good ==> forall k | 0 <= k < |ms| :: pixels[k] == Place(a0, b0, steep, ystep, k, ms[k])
      decreases a1 - x
    {
      if good {
        ErrorIsOffset(dx, dy, x - a0, m, err);
        MinorBound(dx, dy, x - a0, m);
      }
      pixels := pixels + [if steep then Point(y, x) else Point(x, y)];
      ms := ms + [m];
      y, err, m := Advance(dx, dy, ystep, y, err, a0, b0, a1, x - a0, m);
      Unwrapped(x + 1);
      x := Wrap16(x + 1);
    }
  }

  lemma Measures(a0: int, b0: int, a1: int, dx: int, dy: int, ystep: int)
    ensures Measured(a0, b0, a1, dx, dy, ystep) ==> 0 <= dy <= dx == a1 - a0
  {
  }

  /** How far `p` is from the line through two points, times its length. */
  function Cross(p0: Point, p1: Point, p: Point): int {
    (p.y - p0.y) * (p1.x - p0.x) - (p.x - p0.x) * (p1.y - p0.y)
  }

  function Transposed(p: Point): Point { Point(p.y, p.x) }

  lemma CrossSwapped(p0: Point, p1: Point, p: Point)
    ensures Cross(p1, p0, p) == -Cross(p0, p1, p)
  {
    var dx, dy := p1.x - p0.x, p1.y - p0.y;
    assert (p.y - p1.y) * (-dx) == -((p.y - p0.y) * dx) + dy * dx;
    assert (p.x - p1.x) * (-dy) == -((p.x - p0.x) * dy) + dx * dy;
  }

  lemma CrossTransposed(p0: Point, p1: Point, p: Point)
    ensures Cross(Transposed(p0), Transposed(p1), Transposed(p)) == -Cross(p0, p1, p)
  {
  }

  /** The number of steps along the longer extent. */
  function Extent(p0: Point, p1: Point): nat {
    Max(Abs(p1.x - p0.x), Abs(p1.y - p0.y))
  }

  /** The longer extent is the vertical one. */
  predicate Steep(p0: Point, p1: Point) {
    Abs(p1.y - p0.y) > Abs(p1.x - p0.x)
  }

  /** The `k`th step along the longer extent, from the smaller coordinate up. */
  predicate OnStep(p0: Point, p1: Point, k: nat, p: Point) {
    if Steep(p0, p1) then p.y == Min(p0.y, p1.y) + k else p.x == Min(p0.x, p1.x) + k
  }

  /** One pixel for every step, within half a pixel of the true line, next to the pixel before it. */
  ghost predicate IsLine(p0: Point, p1: Point, pixels: seq<Point>) {
    && |pixels| == Extent(p0, p1) + 1
    && (forall k | 0 <= k < |pixels| ::
          OnStep(p0, p1, k, pixels[k]) && 2 * Abs(Cross(p0, p1, pixels[k])) <= Extent(p0, p1))
    && (forall k | 0 < k < |pixels| ::
          Abs(pixels[k].x - pixels[k - 1].x) <= 1 && Abs(pixels[k].y - pixels[k - 1].y) <= 1)
    && p0 in pixels && p1 in pixels
  }

  /** The loop's own coordinates: the longer extent first, growing. */
  function Normal(p0: Point, p1: Point): (r: (Point, Point))
    ensures 0 <= r.1.x - r.0.x == Extent(p0, p1) && Abs(r.1.y - r.0.y) <= Extent(p0, p1)
  {
    var q0, q1 := if Steep(p0, p1) then Transposed(p0) else p0, if Steep(p0, p1) then Transposed(p1) else p1;
    if q0.x > q1.x then (q1, q0) else (q0, q1)
  }

  lemma NormalCross(p0: Point, p1: Point, p: Point)
    ensures var q := if Steep(p0, p1) then Transposed(p) else p;
            var (n0, n1) := Normal(p0, p1);
            Abs(Cross(n0, n1, q)) == Abs(Cross(p0, p1, p))
  {
    hide Cross;
    CrossTransposed(p0, p1, p);
    CrossSwapped(p0, p1, p);
    CrossSwapped(Transposed(p0), Transposed(p1), Transposed(p));
  }

  /** In those coordinates the distance is the loop's error. */
  lemma StepCross(a: Point, b: Point, s: int, k: nat, m: nat)
    requires a.x <= b.x && s == (if a.y < b.y then 1 else -1)
    ensures Abs(Cross(a, b, Point(a.x + k, a.y + s * m))) == Abs(m * (b.x - a.x) - k * Abs(b.y - a.y))
  {
    var dx, dy := b.x - a.x, Abs(b.y - a.y);
    if s == 1 {
      assert (s * m) * dx == m * dx;
    } else {
      assert (s * m) * dx == -(m * dx);
      assert k * (b.y - a.y) == -(k * dy);
    }
  }

  /** The last step ends at the end point. */
  lemma LastStep(dx: nat, dy: nat, m: nat)
    requires Offset(dx, dy, dx, m) <= dx
    ensures dx > 0 ==> m == dy
  {
    assert m * dx - dx * dy == (m - dy) * dx;
    NoHalfStep(m - dy, dx);
  }

  lemma NoHalfStep(j: int, dx: nat)
    requires 2 * Abs(j * dx) <= dx
    ensures dx > 0 ==> j == 0
  {
    if j >= 1 {
      Times(1, j, dx);
    } else if j <= -1 {
      Times(1, -j, dx);
      assert (-j) * dx == -(j * dx);
    }
  }

  function Ystep(a: Point, b: Point): int { if a.y < b.y then 1 else -1 }

  /** Back to the screen's coordinates. */
  function Screened(p0: Point, p1: Point, q: Point): Point {
    if Steep(p0, p1) then Transposed(q) else q
  }

  function StepPoint(p0: Point, p1: Point, k: nat, m: nat): Point {
    var (a, b) := Normal(p0, p1);
    Screened(p0, p1, Point(a.x + k, a.y + Ystep(a, b) * m))
  }

  lemma StepDrawn(p0: Point, p1: Point, k: nat, m: nat)
    requires var (a, b) := Normal(p0, p1); Offset(b.x - a.x, Abs(b.y - a.y), k, m) <= b.x - a.x
    ensures var p := StepPoint(p0, p1, k, m);
            OnStep(p0, p1, k, p) && 2 * Abs(Cross(p0, p1, p)) <= Extent(p0, p1)
  {
    hide Cross;
    var (a, b) := Normal(p0, p1);
    StepCross(a, b, Ystep(a, b), k, m);
    NormalCross(p0, p1, StepPoint(p0, p1, k, m));
  }

  lemma Ends(p0: Point, p1: Point, m: nat)
    requires var (a, b) := Normal(p0, p1); Offset(b.x - a.x, Abs(b.y - a.y), b.x - a.x, m) <= b.x - a.x
    requires Extent(p0, p1) == 0 ==> m == 0
    ensures {StepPoint(p0, p1, 0, 0), StepPoint(p0, p1, Extent(p0, p1), m)} == {p0, p1}
  {
    hide Offset;
    var (a, b) := Normal(p0, p1);
    LastStep(b.x - a.x, Abs(b.y - a.y), m);
    assert Point(a.x + 0, a.y + Ystep(a, b) * 0) == a;
    assert Point(a.x + Extent(p0, p1), a.y + Ystep(a, b) * m) == b;
  }

  lemma Neighbours(p0: Point, p1: Point, k: nat, m: nat, m': nat)
    requires m <= m' <= m + 1
    ensures var p, q := StepPoint(p0, p1, k, m), StepPoint(p0, p1, k + 1, m');
            Abs(q.x - p.x) <= 1 && Abs(q.y - p.y) <= 1
  {
    hide Normal;
  }

  /** The pixels that the loop writes are the line. */
  lemma TraceIsLine(p0: Point, p1: Point, pixels: seq<Point>, ms: seq<nat>)
    requires var (a, b) := Normal(p0, p1);
             |pixels| == |ms| == Extent(p0, p1) + 1 && Steps(ms, Extent(p0, p1), Abs(b.y - a.y)) && ms[0] == 0
    requires forall k | 0 <= k < |pixels| :: pixels[k] == StepPoint(p0, p1, k, ms[k])
    ensures IsLine(p0, p1, pixels)
  {
    hide Cross, Offset, Steep, Abs, StepPoint, OnStep, Extent;
    forall k | 0 <= k < |pixels|
      ensures OnStep(p0, p1, k, pixels[k]) && 2 * Abs(Cross(p0, p1, pixels[k])) <= Extent(p0, p1)
    {
      StepDrawn(p0, p1, k, ms[k]);
    }
    forall k | 0 < k < |pixels|
      ensures Abs(pixels[k].x - pixels[k - 1].x) <= 1 && Abs(pixels[k].y - pixels[k - 1].y) <= 1
    {
      Neighbours(p0, p1, k - 1, ms[k - 1], ms[k]);
    }
    var n := Extent(p0, p1);
    Ends(p0, p1, ms[n]);
    var ends := {StepPoint(p0, p1, 0, ms[0]), StepPoint(p0, p1, n, ms[n])};
    assert pixels[0] in pixels && pixels[n] in pixels;
    assert p0 in ends && p1 in ends;
  }

  /** The larger end along the longer extent. */
  function MajorEnd(p0: Point, p1: Point): int {
    if Steep(p0, p1) then Max(p0.y, p1.y) else Max(p0.x, p1.x)
  }

  /** The loop's counter after `n` rounds. */
  function Counted(x: int, n: nat): int {
    if n == 0 then x else Wrap16(Counted(x, n - 1) + 1)
  }

  lemma {:induction false} CountedUp(x: int, n: nat)
    requires Int16(x)
    ensures Int16(Counted(x, n)) && (x + n <= 32767 ==> Counted(x, n) == x + n)
  {
    if n > 0 {
      CountedUp(x, n - 1);
    }
  }

  /** The counter ever passes the larger end if and only if that is not the largest 16-bit number. */
  lemma LoopEnds(a0: int, a1: int)
    requires Int16(a0) && Int16(a1) && a0 <= a1
    ensures (exists n: nat :: Counted(a0, n) > a1) <==> a1 < 32767
  {
    hide Counted;
    if a1 < 32767 {
      CountedUp(a0, a1 + 1 - a0);
    } else {
      forall n: nat ensures Counted(a0, n) <= a1 {
        CountedUp(a0, n);
      }
    }
  }

  /**
   Bresenham's algorithm: the pixels written, in order. The loop only ends when the larger
   end of the longer extent is not the largest 16-bit number; the extents fit their
   variables up to 32767.
   */
  method WriteLine(x0: int, y0: int, x1: int, y1: int) returns (pixels: seq<Point>)
    requires Int16(x0) && Int16(y0) && Int16(x1) && Int16(y1) && MajorEnd(Point(x0, y0), Point(x1, y1)) < 32767
    ensures var p0, p1 := Point(x0, y0), Point(x1, y1);
            && |pixels| == Extent(p0, p1) + 1
            && (forall k | 0 <= k < |pixels| :: OnStep(p0, p1, k, pixels[k]))
            && (Extent(p0, p1) <= 32767 ==> IsLine(p0, p1, pixels))
  {
    hide IsLine, Steps, Cross, Offset, Wrap16;
    ghost var p0, p1 := Point(x0, y0), Point(x1, y1);
    var steep := Abs(y1 - y0) > Abs(x1 - x0);
    var a0, b0, a1, b1 := x0, y0, x1, y1;
    if steep {
      a0, b0 := b0, a0;
      a1, b1 := b1, a1;
    }
    if a0 > a1 {
      a0, a1 := a1, a0;
      b0, b1 := b1, b0;
    }
    var dx, dy := Wrap16(a1 - a0), Wrap16(Abs(b1 - b0));
    var ystep := if b0 < b1 then 1 else -1;
    ghost var ms;
    pixels, ms := Trace(a0, b0, a1, dx, dy, ystep, steep);
    assert Normal(p0, p1) == (Point(a0, b0), Point(a1, b1));
    if Extent(p0, p1) <= 32767 {
      Unwrapped(a1 - a0);
      Unwrapped(Abs(b1 - b0));
      assert Measured(a0, b0, a1, dx, dy, ystep);
      TraceIsLine(p0, p1, pixels, ms);
    }
  }

  /** A vertical line of a filled circle. */
  datatype VLine = VLine(column: int, top: int, height: int)

  /** The call for a line: its arguments have 16 bits. */
  function Call(l: VLine): VLine { VLine(Wrap16(l.column), Wrap16(l.top), Wrap16(l.height)) }

  function Calls(lines: seq<VLine>): (calls: seq<VLine>)
    ensures |calls| == |lines|
    ensures forall i | 0 <= i < |lines| :: calls[i] == Call(lines[i])
  {
    seq(|lines|, i requires 0 <= i < |lines| => Call(lines[i]))
  }

  /** How often a column is drawn. */
  function Count(lines: seq<VLine>, column: int): nat {
    if lines == [] then 0
    else Count(lines[..|lines| - 1], column) + if lines[|lines| - 1].column == column then 1 else 0
  }

  /** How often the offset `o` is to be drawn on a side. */
  function Once(side: bool, yes: bool): nat { if side && yes then 1 else 0 }

  /** Offsets drawn once the loop has reached `x` from below and `y` from above. */
  predicate Reached(o: int, x: int, y: int, r: int) {
    1 <= o <= Min(x, y) || y < o <= r
  }

  /** Right and left of the centre `x0`, on the sides asked for, each reached offset was drawn exactly once. */
  ghost predicate DrawnOnce(lines: seq<VLine>, x0: int, right: bool, left: bool, x: int, y: int, r: int) {
    forall c: int ::
      Count(lines, c) == Once(right, Reached(c - x0, x, y, r)) + Once(left, Reached(x0 - c, x, y, r))
  }

  /** How far a line reaches up from row `y0`. */
  function Half(l: VLine, y0: int): int { y0 - l.top }

  /** The line at offset `o` and of half-height `k`, `delta` making it longer. */
  predicate IsSide(l: VLine, x0: int, y0: int, o: int, k: int, delta: int) {
    Abs(l.column - x0) == o && l.top == y0 - k && l.height == 2 * k + delta + 1
  }

  /**
   The outline so far: up to offset `x` lines reach up to `y` at least; the others are behind
   `z` and reach up to `w` at most. Every line is as long below row `y0` as above.
   */
  predicate Outline(lines: seq<VLine>, x0: int, y0: int, x: int, y: int, z: int, w: int, r: int, delta: int) {
    && Convex(lines, x0, y0)
    && forall i | 0 <= i < |lines| ::
         var o, k := Abs(lines[i].column - x0), Half(lines[i], y0);
         IsSide(lines[i], x0, y0, o, k, delta) && 0 <= k <= r && if o <= x then k >= y else o > z && k <= w
  }

  /** No line is longer than one nearer the centre. */
  predicate Convex(lines: seq<VLine>, x0: int, y0: int) {
    forall i, j | 0 <= i < |lines| && 0 <= j < |lines| && Abs(lines[i].column - x0) <= Abs(lines[j].column - x0) ::
      Half(lines[i], y0) >= Half(lines[j], y0)
  }

  lemma CountNext(lines: seq<VLine>, l: VLine, c: int)
    ensures Count(lines + [l], c) == Count(lines, c) + if l.column == c then 1 else 0
  {
    assert (lines + [l])[..|lines|] == lines;
  }

  ghost predicate SidesDrawn(was: seq<VLine>, lines: seq<VLine>, x0: int, o: int, right: bool, left: bool) {
    forall c: int :: Count(lines, c) == Count(was, c) + Once(right, c == x0 + o) + Once(left, c == x0 - o)
  }

  /** Nothing but lines at offset `o` of half-height `k` has been added. */
  predicate Added(was: seq<VLine>, lines: seq<VLine>, x0: int, y0: int, o: int, k: int, delta: int) {
    && |was| <= |lines| && lines[..|was|] == was
    && forall i | |was| <= i < |lines| :: IsSide(lines[i], x0, y0, o, k, delta)
  }

  lemma CallsNext(lines: seq<VLine>, l: VLine)
    ensures Calls(lines + [l]) == Calls(lines) + [Call(l)]
  {
  }

  /** Draw a line, where its side was asked for. */
  method Side(before: seq<VLine>, ghost was: seq<VLine>, l: VLine, yes: bool)
    returns (calls: seq<VLine>, ghost lines: seq<VLine>)
    requires before == Calls(was)
    ensures calls == Calls(lines) && lines == was + if yes then [l] else []
    ensures forall c: int :: Count(lines, c) == Count(was, c) + Once(yes, c == l.column)
  {
    hide Call, Count;
    calls, lines := before, was;
    if yes {
      forall c: int ensures Count(was + [l], c) == Count(was, c) + if c == l.column then 1 else 0 {
        CountNext(was, l, c);
      }
      CallsNext(was, l);
      calls, lines := before + [Call(l)], was + [l];
    }
  }

  /** Draw both sides of an offset; `grown` is added to twice the half-height. */
  method Sides(before: seq<VLine>, ghost was: seq<VLine>, x0: int, y0: int, o: nat, k: int, right: bool, left: bool,
               grown: int)
    returns (calls: seq<VLine>, ghost lines: seq<VLine>)
    requires before == Calls(was)
    ensures calls == Calls(lines)
    ensures SidesDrawn(was, lines, x0, o, right, left)
    ensures Added(was, lines, x0, y0, o, k, grown - 1)
  {
    hide Count, Calls;
    calls, lines := Side(before, was, VLine(x0 + o, y0 - k, 2 * k + grown), right);
    calls, lines := Side(calls, lines, VLine(x0 - o, y0 - k, 2 * k + grown), left);
  }

  /** One round: the new `x` if it has not passed `y`, and the old `y` when it is left behind. */
  lemma Round(before: seq<VLine>, mid: seq<VLine>, after: seq<VLine>, x0: int, right: bool, left: bool,
              x: int, y: int, y': int, r: int)
    requires DrawnOnce(before, x0, right, left, x, y, r) && 0 <= x < y <= r && (y' == y || y' == y - 1)
    requires if x + 1 < y' + 1 then SidesDrawn(before, mid, x0, x + 1, right, left) else mid == before
    requires if y' != y then SidesDrawn(mid, after, x0, y, right, left) else after == mid
    ensures DrawnOnce(after, x0, right, left, x + 1, y', r)
  {
    hide Count;
  }

  /** The new offset on the near side. */
  lemma NearAdded(was: seq<VLine>, lines: seq<VLine>, x0: int, y0: int, delta: int, x: int, y: int, y': int, r: int)
    requires Outline(was, x0, y0, x, y, y, x, r, delta) && Added(was, lines, x0, y0, x + 1, y', delta)
    requires 0 <= x < x + 1 <= y' <= y <= r
    ensures Outline(lines, x0, y0, x + 1, y', y, x, r, delta)
  {
    assert forall i | 0 <= i < |was| :: lines[i] == was[i];
  }

  /** The old offset on the far side, with the near side drawn or not. */
  lemma FarAdded(was: seq<VLine>, lines: seq<VLine>, x0: int, y0: int, delta: int, x: int, y: int, r: int)
    requires Added(was, lines, x0, y0, y, x, delta) && 0 <= x < y <= r
    requires if x + 1 < y then Outline(was, x0, y0, x + 1, y - 1, y, x, r, delta)
             else Outline(was, x0, y0, x, y, y, x, r, delta)
    ensures Outline(lines, x0, y0, x + 1, y - 1, y - 1, x + 1, r, delta)
  {
    assert forall i | 0 <= i < |was| :: lines[i] == was[i];
  }

  lemma FarKept(lines: seq<VLine>, x0: int, y0: int, delta: int, x: int, y: int, r: int)
    requires Outline(lines, x0, y0, x + 1, y, y, x, r, delta)
    ensures Outline(lines, x0, y0, x + 1, y, y, x + 1, r, delta)
  {
  }

  lemma NothingReached(x0: int, y0: int, right: bool, left: bool, r: int, delta: int)
    requires 0 <= r
    ensures DrawnOnce([], x0, right, left, 0, r, r) && Outline([], x0, y0, 0, r, r, 0, r, delta)
  {
    forall c: int
      ensures Count([], c) == Once(right, Reached(c - x0, 0, r, r)) + Once(left, Reached(x0 - c, 0, r, r))
    {
      assert !Reached(c - x0, 0, r, r) && !Reached(x0 - c, 0, r, r);
    }
  }

  lemma AllReached(lines: seq<VLine>, x0: int, right: bool, left: bool, x: int, y: int, r: int)
    requires DrawnOnce(lines, x0, right, left, x, y, r) && 0 <= y <= x && y <= r
    ensures forall c: int :: Count(lines, c) == Once(right, 1 <= c - x0 <= r) + Once(left, 1 <= x0 - c <= r)
  {
    hide Count;
    forall c: int ensures Count(lines, c) == Once(right, 1 <= c - x0 <= r) + Once(left, 1 <= x0 - c <= r) {
      assert Reached(c - x0, x, y, r) <==> 1 <= c - x0 <= r;
      assert Reached(x0 - c, x, y, r) <==> 1 <= x0 - c <= r;
    }
  }

  /** Lines that bulge: centred on row `y0` but for `delta`, within the radius, none longer than a nearer one. */
  predicate Bulging(lines: seq<VLine>, x0: int, y0: int, r: int, delta: int) {
    && Convex(lines, x0, y0)
    && forall i | 0 <= i < |lines| ::
         0 <= Half(lines[i], y0) <= r && lines[i].height == 2 * Half(lines[i], y0) + delta + 1
  }

  lemma OutlineBulges(lines: seq<VLine>, x0: int, y0: int, x: int, y: int, r: int, delta: int)
    requires Outline(lines, x0, y0, x, y, y, x, r, delta)
    ensures Bulging(lines, x0, y0, r, delta)
  {
  }

  /** Up to this radius the height of the centre line fits 16 bits, and the decision variable does not overflow. */
  const EXACT_RADIUS := 16383

  /**
   Half-height `k` at offset `o` fits the circle: up to the diagonal `k` is the row nearest the circle in that
   column; beyond it, the last row that the circle reaches half a column before.
   */
  predicate OnCircle(o: int, k: int, r: int) {
    if o <= k then o * o + k * k - k <= r * r <= o * o + k * k + k
    else o * o - o + k * k <= r * r <= o * o - o + (k + 1) * (k + 1)
  }

  /** Every line ends on the circle, unless the radius is too large. */
  predicate Rounded(lines: seq<VLine>, x0: int, y0: int, r: int) {
    0 <= r <= EXACT_RADIUS ==> forall i | 0 <= i < |lines| :: OnCircle(Abs(lines[i].column - x0), Half(lines[i], y0), r)
  }

  /** The point (x + 1, y - 1/2) against the circle. */
  function Decision(x: int, y: int, r: int): int { (x + 1) * (x + 1) + y * y - y - r * r }

  /** Row `y` is the nearest to the circle in column `x`. */
  predicate NearCircle(x: int, y: int, r: int) {
    && x * x + y * y - y <= r * r <= x * x + y * y + y
    && (x < y ==> x * x + y * y - y < r * r)
  }

  /** The variables of the loop: the decision at (x, y) and its two differences. */
  predicate Deciding(x: int, y: int, r: int, f: int, ddFx: int, ddFy: int) {
    0 <= r <= EXACT_RADIUS ==> f == Decision(x, y, r) && ddFx == 2 * x + 1 && ddFy == -2 * y && NearCircle(x, y, r)
  }

  lemma DecisionStart(r: int)
    ensures 0 <= r ==> Decision(0, r, r) == 1 - r && NearCircle(0, r, r)
  {
  }

  /** The next decision, and that (x, y) stays the pixel nearest the circle. */
  lemma DecisionNext(x: int, y: int, r: int)
    requires 0 <= x < y <= r && NearCircle(x, y, r)
    ensures var d := Decision(x, y, r);
            && 2 * x + 1 - 2 * y <= d <= 2 * x + 1
            && (d >= 0 ==> NearCircle(x + 1, y - 1, r) && Decision(x + 1, y - 1, r) == d - 2 * (y - 1) + 2 * x + 3)
            && (d < 0 ==> NearCircle(x + 1, y, r) && Decision(x + 1, y, r) == d + 2 * x + 3)
  {
    assert (x + 1) * (x + 1) == x * x + 2 * x + 1 && (x + 2) * (x + 2) == x * x + 4 * x + 4;
    assert (y - 1) * (y - 1) == y * y - 2 * y + 1;
  }

  /** One round of the loop's arithmetic. */
  lemma DecidingNext(x: int, y: int, r: int, f: int, ddFx: int, ddFy: int)
    requires 0 <= x < y <= r && Deciding(x, y, r, f, ddFx, ddFy)
    ensures var down := f >= 0;
            var d := if down then Wrap16(ddFy + 2) else ddFy;
            var f' := if down then Wrap16(f + d) else f;
            Deciding(x + 1, if down then y - 1 else y, r, Wrap16(f' + Wrap16(ddFx + 2)), Wrap16(ddFx + 2), d)
  {
    hide NearCircle, Decision, Wrap16;
    if r <= EXACT_RADIUS {
      DecisionNext(x, y, r);
      Unwrapped(ddFx + 2);
      if f >= 0 {
        Unwrapped(ddFy + 2);
        Unwrapped(f + ddFy + 2);
        Unwrapped(f + ddFy + 2 + ddFx + 2);
      } else {
        Unwrapped(f + ddFx + 2);
      }
    }
  }

  lemma RoundedAdded(was: seq<VLine>, lines: seq<VLine>, x0: int, y0: int, o: int, k: int, delta: int, r: int)
    requires Rounded(was, x0, y0, r) && Added(was, lines, x0, y0, o, k, delta)
    requires 0 <= r <= EXACT_RADIUS ==> OnCircle(o, k, r)
    ensures Rounded(lines, x0, y0, r)
  {
    hide OnCircle;
    assert forall i | 0 <= i < |was| :: lines[i] == was[i];
  }

  /** The new offset on the near side. */
  lemma NearRounded(was: seq<VLine>, lines: seq<VLine>, x0: int, y0: int, x: int, y: int, delta: int, r: int,
                    f: int, ddFx: int, ddFy: int)
    requires Rounded(was, x0, y0, r) && Added(was, lines, x0, y0, x, y, delta) && x <= y && Deciding(x, y, r, f, ddFx, ddFy)
    ensures Rounded(lines, x0, y0, r)
  {
    hide Rounded, Added;
    RoundedAdded(was, lines, x0, y0, x, y, delta, r);
  }

  /** The old offset on the far side, which is left behind when the decision is not negative. */
  lemma FarRounded(was: seq<VLine>, lines: seq<VLine>, x0: int, y0: int, x: int, y: int, delta: int, r: int,
                   f: int, ddFx: int, ddFy: int)
    requires Rounded(was, x0, y0, r) && Added(was, lines, x0, y0, y, x, delta) && x < y && f >= 0
    requires Deciding(x, y, r, f, ddFx, ddFy)
    ensures Rounded(lines, x0, y0, r)
  {
    hide Rounded, Added;
    RoundedAdded(was, lines, x0, y0, y, x, delta, r);
  }

  /** The column that a call for column `v` draws in. */
  lemma WrappedColumn(v: int, x0: int, c: int)
    requires -32767 <= v - x0 <= 32767 && Int16(c)
    ensures Wrap16(v) == c <==> v == x0 + Wrap16(c - x0)
  {
  }

  /** No two columns of a circle are the same after the conversion to 16 bits. */
  lemma {:induction false} CallCount(lines: seq<VLine>, x0: int, c: int)
    requires Int16(c) && forall i | 0 <= i < |lines| :: -32767 <= lines[i].column - x0 <= 32767
    ensures Count(Calls(lines), c) == Count(lines, x0 + Wrap16(c - x0))
    decreases |lines|
  {
    hide Wrap16;
    if lines != [] {
      var n := |lines| - 1;
      CallCount(lines[..n], x0, c);
      assert Calls(lines)[..n] == Calls(lines[..n]);
      WrappedColumn(lines[n].column, x0, c);
    }
  }

  /** Every line is in one of the columns that are counted. */
  lemma ColumnsNear(lines: seq<VLine>, x0: int, r: int)
    requires forall c: int | !(-r <= c - x0 <= r) :: Count(lines, c) == 0
    ensures forall i | 0 <= i < |lines| :: -r <= lines[i].column - x0 <= r
  {
    hide Count;
    forall i | 0 <= i < |lines| ensures -r <= lines[i].column - x0 <= r {
      var c := lines[i].column;
      if !(-r <= c - x0 <= r) {
        NotAtCentre(lines, c);
      }
    }
  }

  /** The columns of the calls, from those of the lines. */
  lemma SideCalls(lines: seq<VLine>, x0: int, right: bool, left: bool, r: int)
    requires r <= 32767
    requires forall c: int :: Count(lines, c) == Once(right, 1 <= c - x0 <= r) + Once(left, 1 <= x0 - c <= r)
    ensures forall c: int | Int16(c) ::
              Count(Calls(lines), c) == Once(right, 1 <= Wrap16(c - x0) <= r) + Once(left, -r <= Wrap16(c - x0) <= -1)
  {
    hide Count, Wrap16;
    ColumnsNear(lines, x0, r);
    forall c: int | Int16(c)
      ensures Count(Calls(lines), c)
              == Once(right, 1 <= Wrap16(c - x0) <= r) + Once(left, -r <= Wrap16(c - x0) <= -1)
    {
      CallCount(lines, x0, c);
    }
  }

  /** Nothing overflows for a circle that is small and not too near the ends of the coordinates. */
  predicate Fits(x0: int, y0: int, r: int) {
    Int16(x0 - r) && Int16(x0 + r) && Int16(y0 - r) && Int16(y0) && 2 * r + 1 <= 32767
  }

  lemma CallsFit(lines: seq<VLine>, x0: int, y0: int, r: int)
    requires 0 <= r && Fits(x0, y0, r) && Bulging(lines, x0, y0, r, 0)
    requires forall i | 0 <= i < |lines| :: -r <= lines[i].column - x0 <= r
    ensures Calls(lines) == lines
  {
    hide Wrap16;
    forall i | 0 <= i < |lines| ensures Call(lines[i]) == lines[i] {
      Unwrapped(lines[i].column);
      Unwrapped(lines[i].top);
      Unwrapped(lines[i].height);
    }
  }

  /** What the loop keeps. A negative radius draws nothing. */
  ghost predicate Progress(lines: seq<VLine>, x0: int, y0: int, right: bool, left: bool, x: int, y: int, r: int, delta: int) {
    if r < 0 then x == 0 && y == r && lines == []
    else
      && 0 <= y <= r && 0 <= x <= y + 1
      && DrawnOnce(lines, x0, right, left, x, y, r) && Outline(lines, x0, y0, x, y, y, x, r, delta)
  }

  lemma Finished(lines: seq<VLine>, x0: int, y0: int, right: bool, left: bool, x: int, y: int, r: int, delta: int)
    requires Progress(lines, x0, y0, right, left, x, y, r, delta) && x >= y && r <= 32767
    ensures forall c: int :: Count(lines, c) == Once(right, 1 <= c - x0 <= r) + Once(left, 1 <= x0 - c <= r)
    ensures Bulging(lines, x0, y0, r, delta)
  {
    hide Outline, DrawnOnce;
    if r >= 0 {
      AllReached(lines, x0, right, left, x, y, r);
      OutlineBulges(lines, x0, y0, x, y, r, delta);
    }
  }

  /**
   Both halves of a filled circle but for the centre column: the lines, and the calls that
   draw them. The decision variable `f` overflows 16 bits for large radii; only that the lines
   end on the circle depends on its value.
   */
  method FillCircleHelper(x0: int, y0: int, r: int, right: bool, left: bool, delta: int)
    returns (calls: seq<VLine>, ghost lines: seq<VLine>)
    requires Int16(r)
    ensures calls == Calls(lines) && Bulging(lines, x0, y0, r, Wrap16(delta + 1) - 1) && Rounded(lines, x0, y0, r)
    ensures forall c: int :: Count(lines, c) == Once(right, 1 <= c - x0 <= r) + Once(left, 1 <= x0 - c <= r)
    ensures forall c: int | Int16(c) ::
              Count(calls, c) == Once(right, 1 <= Wrap16(c - x0) <= r) + Once(left, -r <= Wrap16(c - x0) <= -1)
  {
    hide Count, Outline, DrawnOnce, SidesDrawn, Added, Bulging, Wrap16, Calls, Rounded, Deciding;
    var f, ddFx, ddFy := Wrap16(1 - r), 1, Wrap16(-2 * r);
    var x, y := 0, r;
    var px, py := x, y;
    var grown := Wrap16(delta + 1);
    calls, lines := [], [];
    assert Calls([]) == [];
    if r >= 0 {
      NothingReached(x0, y0, right, left, r, grown - 1);
    }
    NoneRounded(x0, y0, r, f, ddFx, ddFy);
    while x < y
      invariant px == x && py == y && calls == Calls(lines)
      invariant Progress(lines, x0, y0, right, left, x, y, r, grown - 1)
      invariant Rounded(lines, x0, y0, r) && Deciding(x, y, r, f, ddFx, ddFy)
      decreases y - x
    {
      ghost var before, d, dx, dy := lines, f, ddFx, ddFy;
      DecidingNext(x, y, r, f, ddFx, ddFy);
      if f >= 0 {
        y := y - 1;
        ddFy := Wrap16(ddFy + 2);
        f := Wrap16(f + ddFy);
      }
      x := x + 1;
      ddFx := Wrap16(ddFx + 2);
      f := Wrap16(f + ddFx);
      if x < y + 1 {
        calls, lines := Sides(calls, lines, x0, y0, x, y, right, left, grown);
        NearAdded(before, lines, x0, y0, grown - 1, px, py, y, r);
        NearRounded(before, lines, x0, y0, x, y, grown - 1, r, f, ddFx, ddFy);
      }
      ghost var mid := lines;
      if y != py {
        calls, lines := Sides(calls, lines, x0, y0, py, px, right, left, grown);
        FarAdded(mid, lines, x0, y0, grown - 1, px, py, r);
        FarRounded(mid, lines, x0, y0, px, py, grown - 1, r, d, dx, dy);
      } else {
        FarKept(lines, x0, y0, grown - 1, px, py, r);
      }
      Round(before, mid, lines, x0, right, left, px, py, y, r);
      if y != py {
        py := y;
      }
      px := x;
    }
    Finished(lines, x0, y0, right, left, x, y, r, grown - 1);
    SideCalls(lines, x0, right, left, r);
  }

  lemma NoneRounded(x0: int, y0: int, r: int, f: int, ddFx: int, ddFy: int)
    requires Int16(r) && f == Wrap16(1 - r) && ddFx == 1 && ddFy == Wrap16(-2 * r)
    ensures Rounded([], x0, y0, r) && Deciding(0, r, r, f, ddFx, ddFy)
  {
    hide Wrap16;
    DecisionStart(r);
    if 0 <= r <= EXACT_RADIUS {
      Unwrapped(1 - r);
      Unwrapped(-2 * r);
    }
  }

  /** The centre column in front of the other lines. */
  lemma CentreFirst(x0: int, y0: int, r: int, lines: seq<VLine>)
    requires 0 <= r && Bulging(lines, x0, y0, r, 0)
    requires forall c: int :: Count(lines, c) == Once(true, 1 <= c - x0 <= r) + Once(true, 1 <= x0 - c <= r)
    ensures Bulging([VLine(x0, y0 - r, 2 * r + 1)] + lines, x0, y0, r, 0)
  {
    hide Count;
    var centre := VLine(x0, y0 - r, 2 * r + 1);
    var all := [centre] + lines;
    assert forall i | 0 < i < |all| :: all[i] == lines[i - 1];
    NotAtCentre(lines, x0);
  }

  lemma {:induction false} CountFirst(l: VLine, lines: seq<VLine>, c: int)
    ensures Count([l] + lines, c) == Count(lines, c) + if l.column == c then 1 else 0
    decreases |lines|
  {
    if lines == [] {
      CountNext([], l, c);
      assert [l] + lines == [] + [l];
    } else {
      var n := |lines| - 1;
      CountFirst(l, lines[..n], c);
      assert [l] + lines == ([l] + lines[..n]) + [lines[n]];
      CountNext([l] + lines[..n], lines[n], c);
    }
  }

  lemma {:induction false} NotAtCentre(lines: seq<VLine>, c: int)
    requires Count(lines, c) == 0
    ensures forall i | 0 <= i < |lines| :: lines[i].column != c
    decreases |lines|
  {
    if lines != [] {
      NotAtCentre(lines[..|lines| - 1], c);
      assert forall i | 0 <= i < |lines| - 1 :: lines[i] == lines[..|lines| - 1][i];
    }
  }

  lemma CentreColumn(x0: int, c: int)
    requires Int16(x0) && Int16(c)
    ensures Wrap16(x0) == c <==> Wrap16(c - x0) == 0
    ensures Wrap16(c - x0) == 0 <==> c == x0
  {
  }

  /**
   A filled circle draws each of its columns exactly once, so that inverting toggles no pixel
   twice, columns that wrap round at 16 bits included. Its lines end on the circle, and the
   calls are those lines where nothing overflows.
   */
  method FillCircle(x0: int, y0: int, r: int) returns (calls: seq<VLine>, ghost lines: seq<VLine>)
    requires Int16(x0) && Int16(y0) && Int16(r)
    ensures forall c: int | Int16(c) ::
              Count(calls, c) == if c == x0 || -r <= Wrap16(c - x0) <= r then 1 else 0
    ensures calls == Calls(lines) && (r >= 0 ==> Bulging(lines, x0, y0, r, 0)) && Rounded(lines, x0, y0, r)
    ensures r >= 0 && Fits(x0, y0, r) ==> calls == lines
  {
    hide Bulging, Count, Wrap16, Calls, Rounded;
    var centre := VLine(x0, y0 - r, 2 * r + 1);
    Unwrapped(1);
    calls, lines := FillCircleHelper(x0, y0, r, true, true, 0);
    if r >= 0 {
      CentreFirst(x0, y0, r, lines);
    }
    forall c: int | Int16(c)
      ensures Count([Call(centre)] + calls, c) == if c == x0 || -r <= Wrap16(c - x0) <= r then 1 else 0
    {
      CountFirst(Call(centre), calls, c);
      CentreColumn(x0, c);
    }
    if r >= 0 && Fits(x0, y0, r) {
      AllFit(lines, centre, x0, y0, r);
    }
    CallsFirst(centre, lines);
    CentreRounded(lines, x0, y0, r);
    calls, lines := [Call(centre)] + calls, [centre] + lines;
  }

  lemma CentreRounded(lines: seq<VLine>, x0: int, y0: int, r: int)
    requires Rounded(lines, x0, y0, r)
    ensures Rounded([VLine(x0, y0 - r, 2 * r + 1)] + lines, x0, y0, r)
  {
    var all := [VLine(x0, y0 - r, 2 * r + 1)] + lines;
    assert forall i | 0 < i < |all| :: all[i] == lines[i - 1];
  }

  lemma CallsFirst(l: VLine, lines: seq<VLine>)
    ensures Calls([l] + lines) == [Call(l)] + Calls(lines)
  {
    hide Call;
  }

  lemma AllFit(lines: seq<VLine>, centre: VLine, x0: int, y0: int, r: int)
    requires 0 <= r && Fits(x0, y0, r) && Bulging([centre] + lines, x0, y0, r, 0) && centre.column == x0
    requires forall c: int :: Count(lines, c) == Once(true, 1 <= c - x0 <= r) + Once(true, 1 <= x0 - c <= r)
    ensures Calls([centre] + lines) == [centre] + lines
  {
    hide Bulging, Count, Calls, Call;
    ColumnsNear(lines, x0, r);
    var all := [centre] + lines;
    assert forall i | 0 < i < |all| :: all[i] == lines[i - 1];
    CallsFit(all, x0, y0, r);
  }
}
