/**
  The self-rendering line's rasterizer: Bresenham's algorithm as `CustomLine::drawLine`,
  `drawLineLow` and `drawLineHigh` run it, over integer endpoints.

  Each routine is modelled twice: once as the source's incremental loop (a method that
  appends one pixel per step along the driving axis and keeps an integer decision
  variable), and once as a closed-form reference (`IdealRun`, `Rasterize`) that puts every
  pixel on the row (or column) nearest to the ideal segment, breaking an exact half-pixel
  tie toward the start point. The methods' contracts tie the two together.

  The shallow routine drives along x and the steep one along y. Facts shared by both are
  stated once over a "driving" (major) and a "minor" coordinate; `steep` says which of the
  pixel's two coordinates is the driving one.
*/
module Raster {

  /** A pixel position (column, row) on the painter's integer grid. */
  type Pixel = (int, int)

  function Abs(n: int): nat {
    if n < 0 then -n else n
  }

  function Max(a: int, b: int): int {
    if a < b then b else a
  }

  function Min(a: int, b: int): int {
    if a < b then a else b
  }

  /** Direction of a minor-axis step: the sign of the delta, a zero delta counting as positive. */
  function StepSign(n: int): int {
    if n < 0 then -1 else 1
  }

  /**
    Normalizing a delta by its step sign gives its magnitude, and the sign times the
    magnitude gives the delta back. The drawing routines write `n * sign` as a negation
    under the sign test, which is the same value.
  */
  lemma SignTimesAbs(n: int)
    ensures StepSign(n) * Abs(n) == n
    ensures n * StepSign(n) == Abs(n) == (if StepSign(n) < 0 then -n else n)
  {
  }

  // ---------------------------------------------------------------------------------
  // The ideal line

  /**
    Twice the signed distance, in units of 1/run, between an offset of m minor units and
    the ideal line after k driving steps, on a segment that advances `rise` minor units
    over `run` driving units. Bresenham's decision variable tracks this quantity.
  */
  function Err(k: int, m: int, run: int, rise: int): int {
    2 * rise * k - 2 * run * m
  }

  /**
    After k driving steps, an offset of m minor units is within half a pixel of the ideal
    line; an exact half-pixel tie is allowed only on the side of the start point.
  */
  predicate NearIdeal(k: int, m: int, run: int, rise: int) {
    -run < Err(k, m, run, rise) <= run
  }

  /**
    The minor-axis offset of the ideal segment after k driving steps, rounded to the
    nearest integer with an exact tie rounded toward the start.
  */
  function Ideal(k: nat, run: nat, rise: nat): (m: nat)
    ensures run > 0 ==> NearIdeal(k, m, run, rise)
  {
    if run == 0 then 0 else (2 * rise * k + run - 1) / (2 * run)
  }

  lemma MulAtLeast(a: nat, b: int)
    requires b >= 1
    ensures a * b >= a
  {
    assert a * b == a * (b - 1) + a;
  }

  /** The half-open window of `NearIdeal` holds exactly one offset: the rounded one. */
  lemma IdealUnique(k: nat, m: int, run: nat, rise: nat)
    requires run > 0 && NearIdeal(k, m, run, rise)
    ensures m == Ideal(k, run, rise)
  {
    var q := Ideal(k, run, rise);
    assert Err(k, q, run, rise) - Err(k, m, run, rise) == 2 * (run * (m - q));
    if m > q {
      MulAtLeast(run, m - q);
    } else if m < q {
      assert run * (m - q) == -(run * (q - m));
      MulAtLeast(run, q - m);
    }
  }

  /** The ideal offset before any driving step is zero. */
  lemma IdealAtStart(run: nat, rise: nat)
    ensures Ideal(0, run, rise) == 0
  {
    if run > 0 {
      IdealUnique(0, 0, run, rise);
    }
  }

  /** At the far end of a segment no steeper than its run, the ideal offset is the whole rise. */
  lemma IdealAtEnd(run: nat, rise: nat)
    requires rise <= run
    ensures Ideal(run, run, rise) == rise
  {
    if run > 0 {
      IdealUnique(run, rise, run, rise);
    }
  }

  /**
    One driving step on a segment no steeper than its run: with decision variable
    d = Err + 2*rise - run at the ideal offset m, the ideal offset advances exactly when d
    is positive, and the error term moves by what the source adds to d.
  */
  lemma IdealStep(k: nat, run: nat, rise: nat)
    requires rise <= run
    ensures var m := Ideal(k, run, rise);
      if Err(k, m, run, rise) + 2 * rise - run > 0 then
        Ideal(k + 1, run, rise) == m + 1 && Err(k + 1, m + 1, run, rise) == Err(k, m, run, rise) + 2 * (rise - run)
      else
        Ideal(k + 1, run, rise) == m && Err(k + 1, m, run, rise) == Err(k, m, run, rise) + 2 * rise
  {
    var m := Ideal(k, run, rise);
    assert Err(k + 1, m + 1, run, rise) == Err(k, m, run, rise) + 2 * (rise - run);
    assert Err(k + 1, m, run, rise) == Err(k, m, run, rise) + 2 * rise;
    if run > 0 {
      if Err(k, m, run, rise) + 2 * rise - run > 0 {
        IdealUnique(k + 1, m + 1, run, rise);
      } else {
        IdealUnique(k + 1, m, run, rise);
      }
    }
  }

  // ---------------------------------------------------------------------------------
  // Pixel runs along a driving axis

  /** The pixel whose driving coordinate is `major` and whose other coordinate is `minor`. */
  function Place(steep: bool, major: int, minor: int): Pixel {
    if steep then (minor, major) else (major, minor)
  }

  function MajorOf(steep: bool, p: Pixel): int {
    if steep then p.1 else p.0
  }

  function MinorOf(steep: bool, p: Pixel): int {
    if steep then p.0 else p.1
  }

  /**
    The ideal pixels of a segment from driving coordinate a0 to a1 (minor b0 to b1): one
    per driving coordinate from a0 to a1, each at the minor coordinate nearest the ideal
    line. Empty when a0 > a1.
  */
  function IdealRun(steep: bool, a0: int, b0: int, a1: int, b1: int): seq<Pixel> {
    if a1 < a0 then []
    else
      var run, rise, s := a1 - a0, Abs(b1 - b0), StepSign(b1 - b0);
      seq(run + 1, k requires 0 <= k => Place(steep, a0 + k, b0 + s * Ideal(k, run, rise)))
  }

  lemma IdealRunAt(steep: bool, a0: int, b0: int, a1: int, b1: int, k: nat)
    requires k <= a1 - a0
    ensures IdealRun(steep, a0, b0, a1, b1)[k]
         == Place(steep, a0 + k, b0 + StepSign(b1 - b0) * Ideal(k, a1 - a0, Abs(b1 - b0)))
  {
  }

  /** A reference run no steeper than its run starts exactly on its first endpoint and ends exactly on its second. */
  lemma IdealRunEnds(steep: bool, a0: int, b0: int, a1: int, b1: int)
    requires Abs(b1 - b0) <= a1 - a0
    ensures var r := IdealRun(steep, a0, b0, a1, b1);
      r[0] == Place(steep, a0, b0) && r[|r| - 1] == Place(steep, a1, b1)
  {
    var run, rise := a1 - a0, Abs(b1 - b0);
    IdealAtStart(run, rise);
    IdealAtEnd(run, rise);
    SignTimesAbs(b1 - b0);
    IdealRunAt(steep, a0, b0, a1, b1, 0);
    IdealRunAt(steep, a0, b0, a1, b1, run);
  }

  /**
    Every pixel of a reference run is within half a pixel of the ideal segment: measured
    in the direction of travel, its minor offset m after k driving steps satisfies
    -run < 2*rise*k - 2*run*m <= run.
  */
  lemma IdealRunNearLine(steep: bool, a0: int, b0: int, a1: int, b1: int)
    requires Abs(b1 - b0) <= a1 - a0 && a0 < a1
    ensures var r, s := IdealRun(steep, a0, b0, a1, b1), StepSign(b1 - b0);
      forall k :: 0 <= k < |r| ==> NearIdeal(k, s * (MinorOf(steep, r[k]) - b0), a1 - a0, Abs(b1 - b0))
  {
    var r, s := IdealRun(steep, a0, b0, a1, b1), StepSign(b1 - b0);
    forall k | 0 <= k < |r|
      ensures NearIdeal(k, s * (MinorOf(steep, r[k]) - b0), a1 - a0, Abs(b1 - b0))
    {
      var m := Ideal(k, a1 - a0, Abs(b1 - b0));
      IdealRunAt(steep, a0, b0, a1, b1, k);
      assert MinorOf(steep, r[k]) - b0 == s * m;
      assert s * (s * m) == m;
    }
  }

  /** Pixel i sits at driving coordinate start + i: exactly one pixel per driving step. */
  predicate DrivenFrom(pixels: seq<Pixel>, steep: bool, start: int) {
    forall i :: 0 <= i < |pixels| ==> MajorOf(steep, pixels[i]) == start + i
  }

  /** A minor-axis move of 0 or of exactly one unit in direction s. */
  predicate StepsBy(delta: int, s: int) {
    delta == 0 || delta == s
  }

  /** Between consecutive pixels the minor coordinate changes by 0 or by exactly s. */
  predicate MinorSteps(pixels: seq<Pixel>, steep: bool, s: int) {
    forall i :: 0 < i < |pixels| ==> StepsBy(MinorOf(steep, pixels[i]) - MinorOf(steep, pixels[i - 1]), s)
  }

  /** Consecutive pixels touch: each coordinate changes by at most one. */
  predicate EightConnected(s: seq<Pixel>) {
    forall i :: 0 < i < |s| ==> Abs(s[i].0 - s[i - 1].0) <= 1 && Abs(s[i].1 - s[i - 1].1) <= 1
  }

  /** One pixel per driving step with the minor coordinate moving by at most one unit: the run is 8-connected. */
  lemma DrivenRunConnected(pixels: seq<Pixel>, steep: bool, start: int, s: int)
    requires DrivenFrom(pixels, steep, start) && MinorSteps(pixels, steep, s) && Abs(s) == 1
    ensures EightConnected(pixels)
  {
    forall i | 0 < i < |pixels|
      ensures Abs(pixels[i].0 - pixels[i - 1].0) <= 1 && Abs(pixels[i].1 - pixels[i - 1].1) <= 1
    {
      assert MajorOf(steep, pixels[i]) - MajorOf(steep, pixels[i - 1]) == 1;
      assert StepsBy(MinorOf(steep, pixels[i]) - MinorOf(steep, pixels[i - 1]), s);
    }
  }

  // ---------------------------------------------------------------------------------
  // The stepping loop shared by drawLineLow and drawLineHigh

  /**
    The loop's scalar state after k driving steps of a segment no steeper than its run:
    the minor coordinate `pos` sits at the ideal offset from `base` in direction s, and d
    is the decision variable for the next step.
  */
  predicate OnIdeal(k: nat, pos: int, d: int, base: int, s: int, run: nat, rise: nat) {
    var m := Ideal(k, run, rise);
    pos == base + s * m && d == Err(k, m, run, rise) + 2 * rise - run
  }

  /**
    The loop body keeps the state on the ideal line: a positive d moves the minor
    coordinate one unit and adds 2*(rise - run) to d, otherwise d gains 2*rise.
  */
  lemma OnIdealStep(k: nat, pos: int, d: int, base: int, s: int, run: nat, rise: nat)
    requires rise <= run && OnIdeal(k, pos, d, base, s, run, rise)
    ensures d > 0 ==> OnIdeal(k + 1, pos + s, d + 2 * (rise - run), base, s, run, rise)
    ensures d <= 0 ==> OnIdeal(k + 1, pos, d + 2 * rise, base, s, run, rise)
  {
    IdealStep(k, run, rise);
    var m := Ideal(k, run, rise);
    assert base + s * (m + 1) == base + s * m + s;
  }

  /**
    The shape of what the stepping loop has emitted so far, for a run that starts at
    (driving a0, minor b0) and steps the minor coordinate in direction s: one pixel per
    driving coordinate from a0 on, starting at the start point, with the minor coordinate
    moving by 0 or s between consecutive pixels and from the last pixel to the current
    minor coordinate b.
  */
  predicate Emitted(steep: bool, a0: int, b0: int, s: int, pixels: seq<Pixel>, b: int) {
    && DrivenFrom(pixels, steep, a0)
    && (|pixels| == 0 ==> b == b0)
    && (|pixels| > 0 ==> pixels[0] == Place(steep, a0, b0))
    && MinorSteps(pixels, steep, s)
    && (|pixels| > 0 ==> StepsBy(b - MinorOf(steep, pixels[|pixels| - 1]), s))
  }

  /** Emitting the current pixel and stepping the minor coordinate by 0 or s keeps the shape. */
  lemma EmittedStep(steep: bool, a0: int, b0: int, s: int, pixels: seq<Pixel>, b: int, b': int)
    requires Emitted(steep, a0, b0, s, pixels, b) && StepsBy(b' - b, s)
    ensures Emitted(steep, a0, b0, s, pixels + [Place(steep, a0 + |pixels|, b)], b')
  {
    var pixels' := pixels + [Place(steep, a0 + |pixels|, b)];
    assert forall i :: 0 <= i < |pixels| ==> pixels'[i] == pixels[i];
  }

  /**
    The invariant of the stepping loop, for a segment from (driving a0, minor b0) to
    (driving a1, minor b1) with step direction s, driving length `run` and minor length
    `rise`: k pixels have been emitted, for the driving coordinates a0 .. a-1, in the
    shape `Emitted` describes; and when the segment is no steeper than its run, they are
    the reference run's first k, with `b` and `d` on the ideal line.
  */
  predicate Walk(steep: bool, a0: int, b0: int, a1: int, b1: int, s: int, run: int, rise: int,
                 pixels: seq<Pixel>, a: int, b: int, d: int, k: nat)
  {
    && s == StepSign(b1 - b0) && run == a1 - a0 && rise == Abs(b1 - b0)
    && a0 <= a <= Max(a0, a1 + 1)
    && k == a - a0 == |pixels|
    && Emitted(steep, a0, b0, s, pixels, b)
    && (rise <= run ==> OnIdeal(k, b, d, b0, s, run, rise) && pixels == IdealRun(steep, a0, b0, a1, b1)[..k])
  }

  lemma WalkInit(steep: bool, a0: int, b0: int, a1: int, b1: int, s: int, run: int, rise: int)
    requires s == StepSign(b1 - b0) && run == a1 - a0 && rise == Abs(b1 - b0)
    ensures Walk(steep, a0, b0, a1, b1, s, run, rise, [], a0, b0, 2 * rise - run, 0)
  {
    if rise <= run {
      IdealAtStart(run, rise);
    }
  }

  /** Extending a prefix of r by r's next element gives the next prefix. */
  lemma AppendPrefix(pixels: seq<Pixel>, r: seq<Pixel>, k: nat, p: Pixel)
    requires k < |r| && pixels == r[..k] && r[k] == p
    ensures pixels + [p] == r[..k + 1]
  {
  }

  /** One pass of the loop body: emit the pixel at (a, b), then step as d directs. */
  lemma WalkStep(steep: bool, a0: int, b0: int, a1: int, b1: int, s: int, run: int, rise: int,
                 pixels: seq<Pixel>, a: int, b: int, d: int, k: nat)
    requires Walk(steep, a0, b0, a1, b1, s, run, rise, pixels, a, b, d, k) && a <= a1
    ensures d > 0 ==>
      Walk(steep, a0, b0, a1, b1, s, run, rise, pixels + [Place(steep, a, b)], a + 1, b + s, d + 2 * (rise - run), k + 1)
    ensures d <= 0 ==>
      Walk(steep, a0, b0, a1, b1, s, run, rise, pixels + [Place(steep, a, b)], a + 1, b, d + 2 * rise, k + 1)
  {
    EmittedStep(steep, a0, b0, s, pixels, b, if d > 0 then b + s else b);
    if rise <= run {
      OnIdealStep(k, b, d, b0, s, run, rise);
      IdealRunAt(steep, a0, b0, a1, b1, k);
      AppendPrefix(pixels, IdealRun(steep, a0, b0, a1, b1), k, Place(steep, a, b));
    }
  }

  /** When the loop ends, the invariant gives every postcondition of the stepping routines. */
  lemma WalkExit(steep: bool, a0: int, b0: int, a1: int, b1: int, s: int, run: int, rise: int,
                 pixels: seq<Pixel>, a: int, b: int, d: int, k: nat)
    requires Walk(steep, a0, b0, a1, b1, s, run, rise, pixels, a, b, d, k) && a > a1
    ensures |pixels| == if a0 <= a1 then a1 - a0 + 1 else 0
    ensures Abs(b1 - b0) <= a1 - a0 ==> pixels == IdealRun(steep, a0, b0, a1, b1)
    ensures Abs(b1 - b0) <= a1 - a0 ==> pixels[|pixels| - 1] == Place(steep, a1, b1)
  {
    if rise <= run {
      IdealRunEnds(steep, a0, b0, a1, b1);
    }
  }

  // ---------------------------------------------------------------------------------
  // The three drawing routines

  /**
    `drawLineLow`: steps x from x0 to x1, emitting one pixel per column and moving y by
    `sy` whenever the decision variable is positive.
  */
  method DrawLineLow(x0: int, y0: int, x1: int, y1: int) returns (pixels: seq<Pixel>)
    ensures |pixels| == if x0 <= x1 then x1 - x0 + 1 else 0
    ensures DrivenFrom(pixels, false, x0)
    ensures |pixels| > 0 ==> pixels[0] == (x0, y0)
    ensures MinorSteps(pixels, false, StepSign(y1 - y0))
    ensures Abs(y1 - y0) <= x1 - x0 ==> pixels == IdealRun(false, x0, y0, x1, y1)
    ensures Abs(y1 - y0) <= x1 - x0 ==> pixels[|pixels| - 1] == (x1, y1)
  {
    var dx := x1 - x0;
    var dy := y1 - y0;
    var sy := if dy < 0 then -1 else 1;
    dy := if sy < 0 then -dy else dy;  // dy *= sy
    var d := 2 * dy - dx;
    var y := y0;
    pixels := [];
    var x := x0;
    WalkInit(false, x0, y0, x1, y1, sy, dx, dy);
    while x <= x1
      invariant Walk(false, x0, y0, x1, y1, sy, dx, dy, pixels, x, y, d, x - x0)
      decreases x1 - x
    {
      WalkStep(false, x0, y0, x1, y1, sy, dx, dy, pixels, x, y, d, x - x0);
      pixels := pixels + [(x, y)];
      if d > 0 {
        y := y + sy;
        d := d + 2 * (dy - dx);
      } else {
        d := d + 2 * dy;
      }
      x := x + 1;
    }
    WalkExit(false, x0, y0, x1, y1, sy, dx, dy, pixels, x, y, d, x - x0);
  }

  /**
    `drawLineHigh`: steps y from y1 to y2, emitting one pixel per row and moving x by
    `sx` whenever the decision variable is positive.
  */
  method DrawLineHigh(x1: int, y1: int, x2: int, y2: int) returns (pixels: seq<Pixel>)
    ensures |pixels| == if y1 <= y2 then y2 - y1 + 1 else 0
    ensures DrivenFrom(pixels, true, y1)
    ensures |pixels| > 0 ==> pixels[0] == (x1, y1)
    ensures MinorSteps(pixels, true, StepSign(x2 - x1))
    ensures Abs(x2 - x1) <= y2 - y1 ==> pixels == IdealRun(true, y1, x1, y2, x2)
    ensures Abs(x2 - x1) <= y2 - y1 ==> pixels[|pixels| - 1] == (x2, y2)
  {
    var dx := x2 - x1;
    var dy := y2 - y1;
    var sx := if dx < 0 then -1 else 1;
    dx := if sx < 0 then -dx else dx;  // dx *= sx
    var d := 2 * dx - dy;
    var x := x1;
    pixels := [];
    var y := y1;
    WalkInit(true, y1, x1, y2, x2, sx, dy, dx);
    while y <= y2
      invariant Walk(true, y1, x1, y2, x2, sx, dy, dx, pixels, y, x, d, y - y1)
      decreases y2 - y
    {
      WalkStep(true, y1, x1, y2, x2, sx, dy, dx, pixels, y, x, d, y - y1);
      pixels := pixels + [(x, y)];
      if d > 0 {
        x := x + sx;
        d := d + 2 * (dx - dy);
      } else {
        d := d + 2 * dx;
      }
      y := y + 1;
    }
    WalkExit(true, y1, x1, y2, x2, sx, dy, dx, pixels, y, x, d, y - y1);
  }

  /** `drawLine` drives along x exactly when |dy| < |dx|; equal slopes and single points are steep. */
  predicate IsShallow(x1: int, y1: int, x2: int, y2: int) {
    Abs(y2 - y1) < Abs(x2 - x1)
  }

  /**
    The reference pixel sequence of a segment: along its longer axis (y on a tie), from
    the endpoint with the smaller driving coordinate, each pixel nearest the ideal line.
  */
  function Rasterize(x1: int, y1: int, x2: int, y2: int): seq<Pixel> {
    if IsShallow(x1, y1, x2, y2) then
      if x1 > x2 then IdealRun(false, x2, y2, x1, y1) else IdealRun(false, x1, y1, x2, y2)
    else
      if y1 > y2 then IdealRun(true, y2, x2, y1, x1) else IdealRun(true, y1, x1, y2, x2)
  }

  /** A text annotation drawn at a position. */
  datatype Label = Label(text: string, at: Pixel)

  /** Everything one call of `drawLine` paints: the pixels in order, then the two labels. */
  datatype Stroke = Stroke(pixels: seq<Pixel>, labels: seq<Label>)

  /**
    `drawLine`: picks the routine by slope, swaps the endpoints so that the driving
    coordinate increases, and labels the endpoints as given, five units above each.
  */
  method DrawLine(x1: int, y1: int, x2: int, y2: int) returns (s: Stroke)
    ensures s.pixels == Rasterize(x1, y1, x2, y2)
    ensures |s.pixels| == Max(Abs(x2 - x1), Abs(y2 - y1)) + 1
    ensures DrivenFrom(s.pixels, !IsShallow(x1, y1, x2, y2),
                       if IsShallow(x1, y1, x2, y2) then Min(x1, x2) else Min(y1, y2))
    ensures EightConnected(s.pixels)
    ensures || (s.pixels[0] == (x1, y1) && s.pixels[|s.pixels| - 1] == (x2, y2))
            || (s.pixels[0] == (x2, y2) && s.pixels[|s.pixels| - 1] == (x1, y1))
    ensures s.labels == [Label("A2", (x1, y1 - 5)), Label("B2", (x2, y2 - 5))]
  {
    var pixels;
    if Abs(y2 - y1) < Abs(x2 - x1) {
      if x1 > x2 {
        pixels := DrawLineLow(x2, y2, x1, y1);
        DrivenRunConnected(pixels, false, x2, StepSign(y1 - y2));
      } else {
        pixels := DrawLineLow(x1, y1, x2, y2);
        DrivenRunConnected(pixels, false, x1, StepSign(y2 - y1));
      }
    } else {
      if y1 > y2 {
        pixels := DrawLineHigh(x2, y2, x1, y1);
        DrivenRunConnected(pixels, true, y2, StepSign(x1 - x2));
      } else {
        pixels := DrawLineHigh(x1, y1, x2, y2);
        DrivenRunConnected(pixels, true, y1, StepSign(x2 - x1));
      }
    }
    s := Stroke(pixels, [Label("A2", (x1, y1 - 5)), Label("B2", (x2, y2 - 5))]);
  }
}
