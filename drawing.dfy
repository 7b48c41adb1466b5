/** The incremental stroke renderer `Drawing` (app/drawing.py). The raster canvas is modelled
    as the append-only sequence of filled discs stamped onto it; OpenCV's pixel filling and
    compositing are external. */
module Drawing {
  import opened Base

  /** A colour as OpenCV's (blue, green, red) triple. */
  datatype Color = Color(b: int, g: int, r: int)

  const Green := Color(0, 255, 0)
  const Red := Color(0, 0, 255)
  const Blue := Color(255, 0, 0)
  const Black := Color(0, 0, 0)

  /** The three colours the colour trackbar can select. */
  predicate IsPaletteColor(c: Color) {
    c == Green || c == Red || c == Blue
  }

  /** Radius of every eraser disc, in pixels. */
  const EraserRadius: int := 60
  /** Stroke thickness the session starts with, and the thickness trackbar's upper end. */
  const InitialThickness: int := 5
  const MaxTrackbarThickness: int := 20
  /** OpenCV's mouse event codes for the right button going down and coming up. */
  const EventRButtonDown: int := 2
  const EventRButtonUp: int := 5

  /** One filled disc stamped onto the canvas. */
  datatype Stamp = Stamp(cx: int, cy: int, radius: int, color: Color)

  /** Radius and colour of the discs a hand stamps. */
  datatype Brush = Brush(radius: int, color: Color)

  /** Eraser discs are large and black; drawing discs have half the line thickness (Python's
      floor division, which for the divisor 2 agrees with Dafny's) and the line colour. */
  function BrushFor(eraser: bool, thickness: int, color: Color): (b: Brush)
    ensures eraser ==> b.radius == EraserRadius && b.color == Black
    ensures !eraser ==> b.color == color && 2 * b.radius <= thickness <= 2 * b.radius + 1
  {
    if eraser then Brush(EraserRadius, Black) else Brush(thickness / 2, color)
  }

  function Abs(n: int): nat {
    if n < 0 then -n else n
  }

  function Max(a: int, b: int): int {
    if a < b then b else a
  }

  function Min(a: int, b: int): int {
    if a < b then a else b
  }

  /** Largest per-axis displacement between two points. */
  function Chebyshev(p: Point, q: Point): nat {
    if Abs(q.x - p.x) < Abs(q.y - p.y) then Abs(q.y - p.y) else Abs(q.x - p.x)
  }

  /** Number of interpolation steps between two points: half the largest per-axis
      displacement, forced to at least one so that the interpolation never divides by zero.
      With it, consecutive discs lie at most three pixels apart per axis (StrokeIsDense). */
  function StepCount(p: Point, q: Point): (steps: nat)
    ensures steps >= 1
    ensures Chebyshev(p, q) <= 2 * steps + 1
    ensures Chebyshev(p, q) >= 2 ==> 2 * steps <= Chebyshev(p, q)
    ensures Chebyshev(p, q) < 2 ==> steps == 1
  {
    var s := Chebyshev(p, q) / 2;
    if s == 0 then 1 else s
  }

  /** Division truncating toward zero, as Python's `int()` truncates a float. */
  function TruncDiv(m: int, n: int): (r: int)
    requires n > 0
    ensures 0 <= m ==> 0 <= r * n <= m < r * n + n
    ensures m < 0 ==> r * n - n < m <= r * n <= 0
  {
    DivTimesLeq(if m >= 0 then m else -m, n);
    NonNegDiv(if m >= 0 then m else -m, n);
    if m >= 0 then m / n else -((-m) / n)
  }

  /** Coordinate `i` of `n` steps from `a` to `b`: the exact value `a*(1 - i/n) + b*(i/n)`,
      that is `(a*n + (b - a)*i) / n`, truncated toward zero. */
  function Lerp(a: int, b: int, i: int, n: int): (r: int)
    requires n >= 1 && 0 <= i <= n
    ensures var m := a * n + (b - a) * i;
      (0 <= m ==> 0 <= r * n <= m < r * n + n) &&
      (m < 0 ==> r * n - n < m <= r * n <= 0)
  {
    TruncDiv(a * n + (b - a) * i, n)
  }

  lemma MulLeq(x: int, y: int, n: int)
    requires x <= y && n >= 0
    ensures x * n <= y * n
  {
  }

  /** A quotient of a value lying between two multiples of the divisor lies between them. */
  lemma DivBetween(m: int, n: int, lo: int, hi: int)
    requires n > 0 && lo * n <= m <= hi * n
    ensures lo <= m / n <= hi
  {
    var q, r := m / n, m % n;
    assert m == q * n + r && 0 <= r < n;
    if q < lo {
      MulLeq(q + 1, lo, n);
    }
    if q > hi {
      MulLeq(hi + 1, q, n);
    }
  }

  lemma TruncDivBetween(m: int, n: int, lo: int, hi: int)
    requires n > 0 && lo * n <= m <= hi * n
    ensures lo <= TruncDiv(m, n) <= hi
  {
    if m < 0 {
      assert (-hi) * n <= -m <= (-lo) * n;
      DivBetween(-m, n, -hi, -lo);
    } else {
      DivBetween(m, n, lo, hi);
    }
  }

  /** Every interpolated coordinate lies between the two endpoints, the first is the start
      and the last is the end. */
  lemma LerpBetween(a: int, b: int, i: int, n: int)
    requires n >= 1 && 0 <= i <= n
    ensures Min(a, b) <= Lerp(a, b, i, n) <= Max(a, b)
    ensures i == 0 ==> Lerp(a, b, i, n) == a
    ensures i == n ==> Lerp(a, b, i, n) == b
  {
    var m := a * n + (b - a) * i;
    LerpNumeratorBetween(a, b, i, n);
    TruncDivBetween(m, n, Min(a, b), Max(a, b));
    if i == 0 {
      assert m == a * n;
      TruncDivBetween(m, n, a, a);
    }
    if i == n {
      assert m == b * n by {
        assert (b - a) * n == b * n - a * n;
      }
      TruncDivBetween(m, n, b, b);
    }
  }

  /** The exact interpolated value, scaled by `n`, lies between the scaled endpoints. */
  lemma LerpNumeratorBetween(a: int, b: int, i: int, n: int)
    requires n >= 1 && 0 <= i <= n
    ensures Min(a, b) * n <= a * n + (b - a) * i <= Max(a, b) * n
  {
    assert a * n + (b - a) * n == b * n by {
      assert (b - a) * n == b * n - a * n;
    }
    if a <= b {
      MulLeq(i, n, b - a);
      assert 0 <= (b - a) * i;
    } else {
      MulLeq(i, n, a - b);
      assert (b - a) * i == -((a - b) * i) && (b - a) * n == -((a - b) * n);
      assert (b - a) * i <= 0;
    }
  }

  /** The discs one stroke segment stamps from `p` to `q`: `StepCount(p, q) + 1` of them, the
      `i`-th at the `i`-th interpolated position. */
  function Stroke(p: Point, q: Point, brush: Brush): (s: seq<Stamp>)
    ensures |s| == StepCount(p, q) + 1
  {
    var n := StepCount(p, q);
    seq(n + 1, i requires 0 <= i <= n =>
      Stamp(Lerp(p.x, q.x, i, n), Lerp(p.y, q.y, i, n), brush.radius, brush.color))
  }

  /** A segment starts at the previous point, ends at the new one, stays inside the box the
      two points span, and every disc carries the brush's radius and colour. */
  lemma StrokeShape(p: Point, q: Point, brush: Brush)
    ensures var s := Stroke(p, q, brush);
      |s| >= 2 &&
      s[0].cx == p.x && s[0].cy == p.y &&
      s[|s| - 1].cx == q.x && s[|s| - 1].cy == q.y
    ensures forall st <- Stroke(p, q, brush) ::
      Min(p.x, q.x) <= st.cx <= Max(p.x, q.x) &&
      Min(p.y, q.y) <= st.cy <= Max(p.y, q.y) &&
      st.radius == brush.radius && st.color == brush.color
  {
    var n := StepCount(p, q);
    var s := Stroke(p, q, brush);
    forall i | 0 <= i <= n
      ensures Min(p.x, q.x) <= s[i].cx <= Max(p.x, q.x)
      ensures Min(p.y, q.y) <= s[i].cy <= Max(p.y, q.y)
      ensures i == 0 ==> s[i].cx == p.x && s[i].cy == p.y
      ensures i == n ==> s[i].cx == q.x && s[i].cy == q.y
    {
      LerpBetween(p.x, q.x, i, n);
      LerpBetween(p.y, q.y, i, n);
    }
  }

  /** Two truncated quotients whose dividends differ by at most three divisors differ by at
      most three. */
  lemma TruncDivClose(m1: int, m2: int, n: int)
    requires n > 0 && m1 <= m2 && m2 - m1 <= 3 * n
    ensures 0 <= TruncDiv(m2, n) - TruncDiv(m1, n) <= 3
  {
    if m1 >= 0 {
      FloorDivClose(m1, m2, n);
    } else if m2 < 0 {
      FloorDivClose(-m2, -m1, n);
    } else {
      StraddleDivClose(-m1, m2, n);
    }
  }

  /** Both dividends on the same side of zero: truncation is floor (or its mirror image). */
  lemma FloorDivClose(u: int, v: int, n: int)
    requires n > 0 && 0 <= u <= v && v - u <= 3 * n
    ensures 0 <= v / n - u / n <= 3
  {
    var q1, r1 := u / n, u % n;
    var q2, r2 := v / n, v % n;
    assert u == q1 * n + r1 && 0 <= r1 < n;
    assert v == q2 * n + r2 && 0 <= r2 < n;
    assert (q2 - q1) * n == (v - u) - r2 + r1;
    if q2 - q1 > 3 {
      MulLeq(4, q2 - q1, n);
    }
    if q2 < q1 {
      MulLeq(q2 - q1, -1, n);
    }
  }

  /** Dividends on both sides of zero: the two quotients toward zero add up to at most
      three when the two magnitudes add up to at most three divisors. */
  lemma StraddleDivClose(u: int, v: int, n: int)
    requires n > 0 && u > 0 && v >= 0 && u + v <= 3 * n
    ensures 0 <= u / n && 0 <= v / n && u / n + v / n <= 3
  {
    NonNegDiv(u, n);
    NonNegDiv(v, n);
    var q1, q2 := u / n, v / n;
    assert (q1 + q2) * n <= u + v by {
      DivTimesLeq(u, n);
      DivTimesLeq(v, n);
      assert (q1 + q2) * n == q1 * n + q2 * n;
    }
    if q1 + q2 > 3 {
      MulLeq(4, q1 + q2, n);
    }
  }

  lemma NonNegDiv(u: int, n: int)
    requires n > 0 && u >= 0
    ensures u / n >= 0
  {
    var q, r := u / n, u % n;
    assert u == q * n + r && r < n;
    if q < 0 {
      MulLeq(q, -1, n);
    }
  }

  lemma DivTimesLeq(u: int, n: int)
    requires n > 0
    ensures (u / n) * n <= u
  {
  }

  /** Consecutive discs of a segment are at most three pixels apart on each axis, so a fast
      movement still leaves a connected line rather than isolated dots. */
  lemma {:induction false} StrokeIsDense(p: Point, q: Point, brush: Brush)
    ensures var s := Stroke(p, q, brush);
      forall k :: 0 <= k < |s| - 1 ==>
        Abs(s[k + 1].cx - s[k].cx) <= 3 && Abs(s[k + 1].cy - s[k].cy) <= 3
  {
    var n := StepCount(p, q);
    var s := Stroke(p, q, brush);
    assert Abs(q.x - p.x) <= 3 * n && Abs(q.y - p.y) <= 3 * n;
    forall k | 0 <= k < n
      ensures Abs(s[k + 1].cx - s[k].cx) <= 3 && Abs(s[k + 1].cy - s[k].cy) <= 3
    {
      LerpStepClose(p.x, q.x, k, n);
      LerpStepClose(p.y, q.y, k, n);
    }
  }

  lemma LerpStepClose(a: int, b: int, k: int, n: int)
    requires n >= 1 && 0 <= k < n && Abs(b - a) <= 3 * n
    ensures Abs(Lerp(a, b, k + 1, n) - Lerp(a, b, k, n)) <= 3
  {
    var m1 := a * n + (b - a) * k;
    var m2 := a * n + (b - a) * (k + 1);
    assert m2 == m1 + (b - a);
    if a <= b {
      TruncDivClose(m1, m2, n);
    } else {
      TruncDivClose(m2, m1, n);
    }
  }

  /** The discs one call adds for a hand: a segment from its previous point when both the
      previous and the new point exist; nothing after a gap or for the first point. */
  function NewStamps(last: Option<Point>, point: Option<Point>, brush: Brush): (s: seq<Stamp>)
    ensures s != [] <==> last.Some? && point.Some?
    ensures s != [] ==> |s| >= 2
    ensures s != [] ==> s[0].cx == last.value.x && s[0].cy == last.value.y
    ensures s != [] ==> s[|s| - 1].cx == point.value.x && s[|s| - 1].cy == point.value.y
    ensures forall st <- s :: st.radius == brush.radius && st.color == brush.color
  {
    if last.Some? && point.Some? then
      StrokeShape(last.value, point.value, brush);
      Stroke(last.value, point.value, brush)
    else []
  }

  /** The discs a sequence of points (or gaps) for one hand stamps, starting after `last`,
      with the brush unchanged throughout. */
  function Replay(last: Option<Point>, points: seq<Option<Point>>, brush: Brush): (s: seq<Stamp>)
    ensures s == [] || |s| >= 2
    ensures last.None? && |points| <= 1 ==> s == []
    decreases |points|
  {
    if points == [] then []
    else
      NewStamps(last, points[0], brush) + Replay(points[0], points[1..], brush)
  }

  /** Every disc a sequence of points stamps carries the brush's radius and colour. */
  lemma {:induction false} ReplayUsesBrush(last: Option<Point>, points: seq<Option<Point>>, brush: Brush)
    ensures forall st <- Replay(last, points, brush) :: st.radius == brush.radius && st.color == brush.color
    decreases |points|
  {
    if points != [] {
      ReplayUsesBrush(points[0], points[1..], brush);
    }
  }

  lemma ConcatAssoc<T>(a: seq<T>, b: seq<T>, c: seq<T>)
    ensures (a + b) + c == a + (b + c)
  { }

  /** Replay on a list with a given first element: that element's discs, then the rest. */
  lemma ReplayCons(last: Option<Point>, p: Option<Point>, rest: seq<Option<Point>>, brush: Brush)
    ensures Replay(last, [p] + rest, brush) == NewStamps(last, p, brush) + Replay(p, rest, brush)
  {
    var all := [p] + rest;
    assert all[0] == p && all[1..] == rest;
  }

  /** A gap breaks stroke continuity: what is stamped after it does not depend on anything
      before it, exactly as if the hand had started afresh. */
  lemma {:induction false} GapBreaksContinuity(
    last: Option<Point>, before: seq<Option<Point>>, after: seq<Option<Point>>, brush: Brush)
    ensures Replay(last, before + [None] + after, brush)
         == Replay(last, before, brush) + Replay(None, after, brush)
    decreases |before|
  {
    if before == [] {
      assert before + [None] + after == [None] + after;
      ReplayCons(last, None, after, brush);
    } else {
      var p, rest := before[0], before[1..];
      assert before == [p] + rest;
      ConcatAssoc([p], rest, [None]);
      ConcatAssoc([p], rest + [None], after);
      ReplayCons(last, p, rest + [None] + after, brush);
      ReplayCons(last, p, rest, brush);
      GapBreaksContinuity(p, rest, after, brush);
      ConcatAssoc(NewStamps(last, p, brush), Replay(p, rest, brush), Replay(None, after, brush));
    }
  }

  /** The points P1, P2, gap, P3 stamp exactly the one segment P1 to P2; P3 alone stamps
      nothing. */
  lemma TwoPointsThenGap(p1: Point, p2: Point, p3: Point, brush: Brush)
    ensures Replay(None, [Some(p1), Some(p2), None, Some(p3)], brush) == Stroke(p1, p2, brush)
  {
    var before, after := [Some(p1), Some(p2)], [Some(p3)];
    GapBreaksContinuity(None, before, after, brush);
    assert before + [None] + after == [Some(p1), Some(p2), None, Some(p3)];
    assert before[1..] == [Some(p2)] && after[1..] == [];
    assert Replay(Some(p1), [Some(p2)], brush) == Stroke(p1, p2, brush) + Replay(Some(p2), [], brush);
    assert Replay(None, before, brush) == [] + Replay(Some(p1), [Some(p2)], brush);
    assert Replay(None, after, brush) == [];
  }

  /** Up to thickness 119, which includes the whole range the trackbar offers, an eraser
      disc is strictly larger than a drawing disc, so erasing covers earlier ink. */
  lemma EraserCoversInk(thickness: int, color: Color)
    requires 1 <= thickness <= 119
    ensures BrushFor(true, thickness, color).radius > BrushFor(false, thickness, color).radius
    ensures BrushFor(false, thickness, color).radius >= 0
  {
  }

  /** From thickness 120 on, a drawing disc is at least as large as an eraser disc: the
      bound of EraserCoversInk is tight. */
  lemma EraserNoLargerFrom120(thickness: int, color: Color)
    requires thickness >= 120
    ensures BrushFor(true, thickness, color).radius <= BrushFor(false, thickness, color).radius
  {
  }

  /** The drawing state: the canvas of stamped discs (created lazily on the first point),
      one last-point slot and one eraser flag per hand, and the current line settings. */
  class Drawing {
    var canvasReady: bool
    var stamps: seq<Stamp>
    var lastPoints: seq<Option<Point>>
    var lineColor: Color
    var lineThickness: int
    var eraserModes: seq<bool>

    /** Two hand slots, a thickness of at least one, a palette colour, and no ink before
        the canvas exists. */
    ghost predicate Valid()
      reads this
    {
      |lastPoints| == 2 && |eraserModes| == 2 &&
      lineThickness >= 1 && IsPaletteColor(lineColor) &&
      (!canvasReady ==> stamps == [])
    }

    /** The brush hand `handId` stamps with under the current settings. */
    function CurrentBrush(handId: nat): Brush
      reads this
      requires Valid() && handId < 2
    {
      BrushFor(eraserModes[handId], lineThickness, lineColor)
    }

    constructor ()
      ensures Valid()
      ensures !canvasReady && stamps == []
      ensures lastPoints == [None, None] && eraserModes == [false, false]
      ensures lineColor == Green && lineThickness == InitialThickness
    {
      canvasReady := false;
      stamps := [];
      lastPoints := [None, None];
      lineColor := Green;
      lineThickness := InitialThickness;
      eraserModes := [false, false];
    }

    /** Thickness trackbar callback: a positive value is taken as is, anything else becomes
        one, so the thickness never drops below one. */
    method UpdateThickness(val: int)
      requires Valid()
      modifies this`lineThickness
      ensures Valid()
      ensures lineThickness == if val > 0 then val else 1
    {
      lineThickness := if val > 0 then val else 1;
    }

    /** Colour trackbar callback: 0, 1 and 2 select green, red and blue; any other value
        leaves the colour as it was. */
    method UpdateColor(val: int)
      requires Valid()
      modifies this`lineColor
      ensures Valid()
      ensures lineColor == match val
        case 0 => Green
        case 1 => Red
        case 2 => Blue
        case _ => old(lineColor)
    {
      if val == 0 {
        lineColor := Green;
      } else if val == 1 {
        lineColor := Red;
      } else if val == 2 {
        lineColor := Blue;
      }
    }

    /** Mouse callback: the right button going down turns the eraser on for both hands,
        coming up turns it off for both; every other event changes nothing. */
    method MouseCallback(event: int)
      requires Valid()
      modifies this`eraserModes
      ensures Valid()
      ensures eraserModes ==
        if event == EventRButtonDown then [true, true]
        else if event == EventRButtonUp then [false, false]
        else old(eraserModes)
    {
      if event == EventRButtonDown {
        eraserModes := [true, true];
      } else if event == EventRButtonUp {
        eraserModes := [false, false];
      }
    }

    /** Feeds one point (or a gap) of hand `handId`. The canvas exists afterwards; a gap
        clears the hand's last point; otherwise the segment from the hand's previous point
        is stamped, disc by disc, and the point becomes the hand's last point. The other
        hand's slot, the settings and every earlier disc are untouched. */
    method ProcessPoint(point: Option<Point>, handId: nat)
      requires Valid() && handId < 2
      modifies this`canvasReady, this`stamps, this`lastPoints
      ensures Valid() && canvasReady
      ensures lastPoints == old(lastPoints)[handId := point]
      ensures stamps == old(stamps) + NewStamps(old(lastPoints[handId]), point, CurrentBrush(handId))
    {
      if !canvasReady {
        canvasReady, stamps := true, [];
      }
      if point.None? {
        lastPoints := lastPoints[handId := None];
        return;
      }
      if lastPoints[handId].Some? {
        var p, q := lastPoints[handId].value, point.value;
        var steps := StepCount(p, q);
        ghost var segment := Stroke(p, q, CurrentBrush(handId));
        for i := 0 to steps + 1
          invariant Valid() && canvasReady && lastPoints == old(lastPoints)
          invariant stamps == old(stamps) + segment[..i]
        {
          var ix := Lerp(p.x, q.x, i, steps);
          var iy := Lerp(p.y, q.y, i, steps);
          if eraserModes[handId] {
            stamps := stamps + [Stamp(ix, iy, EraserRadius, Black)];
          } else {
            stamps := stamps + [Stamp(ix, iy, lineThickness / 2, lineColor)];
          }
          assert segment[..i + 1] == segment[..i] + [segment[i]];
        }
        assert segment[..steps + 1] == segment;
      }
      lastPoints := lastPoints[handId := point];
    }
  }
}
