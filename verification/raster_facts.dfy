/**
  Properties of `drawLine`'s output as a whole, stated over the reference sequence
  `Rasterize` that `Raster.DrawLine` is proved to emit: independence from the order of the
  endpoints, the degenerate horizontal, vertical, diagonal and single-point segments, and
  two worked examples.
*/
module RasterFacts {
  import opened Raster

  /**
    `drawLine(p, q)` and `drawLine(q, p)` make the same normalized call and so emit the
    same pixels in the same order.
  */
  lemma RasterizeSwap(x1: int, y1: int, x2: int, y2: int)
    ensures Rasterize(x1, y1, x2, y2) == Rasterize(x2, y2, x1, y1)
  {
    assert IsShallow(x1, y1, x2, y2) == IsShallow(x2, y2, x1, y1);
    if !IsShallow(x1, y1, x2, y2) && y1 == y2 {
      assert x1 == x2;
    }
  }

  /** A segment that does not climb keeps the ideal offset at zero. */
  lemma IdealFlat(k: nat, run: nat)
    ensures Ideal(k, run, 0) == 0
  {
    if run > 0 {
      IdealUnique(k, 0, run, 0);
    }
  }

  /** On a 45-degree segment the ideal offset equals the number of driving steps. */
  lemma IdealDiagonal(k: nat, n: nat)
    requires n > 0
    ensures Ideal(k, n, n) == k
  {
    IdealUnique(k, k, n, n);
  }

  /** A flat reference run keeps its minor coordinate fixed. */
  lemma FlatRun(steep: bool, a0: int, a1: int, b: int)
    requires a0 <= a1
    ensures IdealRun(steep, a0, b, a1, b) == seq(a1 - a0 + 1, k requires 0 <= k => Place(steep, a0 + k, b))
  {
    var r := IdealRun(steep, a0, b, a1, b);
    forall k | 0 <= k < |r|
      ensures r[k] == Place(steep, a0 + k, b)
    {
      IdealRunAt(steep, a0, b, a1, b, k);
      IdealFlat(k, a1 - a0);
    }
  }

  /** A single point is drawn by the steep routine as exactly one pixel. */
  lemma SinglePoint(x: int, y: int)
    ensures !IsShallow(x, y, x, y)
    ensures Rasterize(x, y, x, y) == [(x, y)]
  {
    IdealRunAt(true, y, x, y, x, 0);
    IdealAtStart(0, 0);
  }

  /** A horizontal segment is one pixel per column between the endpoints, on its row. */
  lemma HorizontalRun(x1: int, x2: int, y: int)
    ensures var r := Rasterize(x1, y, x2, y);
      |r| == Abs(x2 - x1) + 1 && forall k :: 0 <= k < |r| ==> r[k] == (Min(x1, x2) + k, y)
  {
    if x1 == x2 {
      SinglePoint(x1, y);
    } else {
      FlatRun(false, Min(x1, x2), Max(x1, x2), y);
    }
  }

  /** A vertical segment is one pixel per row between the endpoints, in its column. */
  lemma VerticalRun(x: int, y1: int, y2: int)
    ensures var r := Rasterize(x, y1, x, y2);
      |r| == Abs(y2 - y1) + 1 && forall k :: 0 <= k < |r| ==> r[k] == (x, Min(y1, y2) + k)
  {
    FlatRun(true, Min(y1, y2), Max(y1, y2), x);
  }

  /** A 45-degree segment with x and y growing together is the exact diagonal, drawn by the steep routine. */
  lemma DiagonalRun(x: int, y: int, n: nat)
    ensures !IsShallow(x, y, x + n, y + n)
    ensures Rasterize(x, y, x + n, y + n) == seq(n + 1, k requires 0 <= k => (x + k, y + k))
  {
    var r := Rasterize(x, y, x + n, y + n);
    forall k | 0 <= k < |r|
      ensures r[k] == (x + k, y + k)
    {
      IdealRunAt(true, y, x, y + n, x + n, k);
      if n > 0 {
        IdealDiagonal(k, n);
      } else {
        IdealAtStart(0, 0);
      }
    }
  }

  /**
    A 45-degree segment with x growing as y shrinks is the exact anti-diagonal, drawn by the
    steep routine from its upper end (x+n, y-n).
  */
  lemma AntiDiagonalRun(x: int, y: int, n: nat)
    ensures !IsShallow(x, y, x + n, y - n)
    ensures Rasterize(x, y, x + n, y - n) == seq(n + 1, k requires 0 <= k => (x + n - k, y - n + k))
  {
    var r := Rasterize(x, y, x + n, y - n);
    forall k | 0 <= k < |r|
      ensures r[k] == (x + n - k, y - n + k)
    {
      if n > 0 {
        IdealRunAt(true, y - n, x + n, y, x, k);
        IdealDiagonal(k, n);
      } else {
        IdealRunAt(true, y, x, y, x, k);
        IdealAtStart(0, 0);
      }
    }
  }

  /** (0,0)-(4,4) and (4,4)-(0,0) both give the five diagonal pixels. */
  lemma DiagonalExample()
    ensures Rasterize(0, 0, 4, 4) == [(0, 0), (1, 1), (2, 2), (3, 3), (4, 4)]
    ensures Rasterize(4, 4, 0, 0) == [(0, 0), (1, 1), (2, 2), (3, 3), (4, 4)]
  {
    DiagonalRun(0, 0, 4);
    RasterizeSwap(0, 0, 4, 4);
  }

  /** Along a segment four columns wide and one row high, the row offset is 0 for the first three columns and 1 after. */
  lemma IdealQuarter(k: nat)
    requires k <= 4
    ensures Ideal(k, 4, 1) == if k < 3 then 0 else 1
  {
    IdealUnique(k, if k < 3 then 0 else 1, 4, 1);
  }

  /** Any segment four right and one down: three pixels on the first row, then two on the next. */
  lemma ShallowShape(x: int, y: int)
    ensures IdealRun(false, x, y, x + 4, y + 1) == [(x, y), (x + 1, y), (x + 2, y), (x + 3, y + 1), (x + 4, y + 1)]
  {
    var r := IdealRun(false, x, y, x + 4, y + 1);
    forall k | 0 <= k < 5
      ensures r[k] == (x + k, y + if k < 3 then 0 else 1)
    {
      IdealRunAt(false, x, y, x + 4, y + 1, k);
      IdealQuarter(k);
    }
  }

  /** (0,0)-(4,1) is shallow: five pixels, the row changing once past the midpoint, in either direction. */
  lemma ShallowExample()
    ensures IsShallow(0, 0, 4, 1)
    ensures Rasterize(0, 0, 4, 1) == [(0, 0), (1, 0), (2, 0), (3, 1), (4, 1)]
    ensures Rasterize(4, 1, 0, 0) == [(0, 0), (1, 0), (2, 0), (3, 1), (4, 1)]
  {
    ShallowShape(0, 0);
    RasterizeSwap(0, 0, 4, 1);
  }

  // ---------------------------------------------------------------- distance to the segment

  /**
    The cross product of p - u with v - u. Divided by the longer side of the segment it is
    the offset of p from the line through u and v, measured along the shorter axis.
  */
  function Cross(p: Pixel, u: Pixel, v: Pixel): int {
    (p.1 - u.1) * (v.0 - u.0) - (v.1 - u.1) * (p.0 - u.0)
  }

  /** Measured from the other endpoint, the cross product only changes sign. */
  lemma CrossSwap(p: Pixel, u: Pixel, v: Pixel)
    ensures Cross(p, v, u) == -Cross(p, u, v)
  {
    var (a, b) := (p.0 - u.0, p.1 - u.1);
    var (c, e) := (v.0 - u.0, v.1 - u.1);
    assert Cross(p, u, v) == b * c - e * a;
    assert Cross(p, v, u) == (b - e) * (-c) - (-e) * (a - c);
  }

  /** In driving/minor coordinates the doubled cross product is the Bresenham error term, up to sign. */
  lemma CrossIsErr(steep: bool, a0: int, b0: int, a1: int, b1: int, k: int, minor: int)
    ensures var s, run, rise := StepSign(b1 - b0), a1 - a0, Abs(b1 - b0);
      Abs(2 * Cross(Place(steep, a0 + k, minor), Place(steep, a0, b0), Place(steep, a1, b1)))
        == Abs(Err(k, s * (minor - b0), run, rise))
  {
    var s, run, rise := StepSign(b1 - b0), a1 - a0, Abs(b1 - b0);
    var m, db := minor - b0, b1 - b0;
    assert rise == s * db;
    var c := m * run - db * k;
    assert Err(k, s * m, run, rise) == 2 * s * (db * k) - 2 * s * (run * m);
    assert Err(k, s * m, run, rise) == -2 * s * c;
    if steep {
      assert Cross(Place(steep, a0 + k, minor), Place(steep, a0, b0), Place(steep, a1, b1)) == -c;
    } else {
      assert Cross(Place(steep, a0 + k, minor), Place(steep, a0, b0), Place(steep, a1, b1)) == c;
    }
  }

  /** Every pixel of a reference run is within half a pixel of the segment between its ends. */
  lemma RunNearSegment(steep: bool, a0: int, b0: int, a1: int, b1: int)
    requires Abs(b1 - b0) <= a1 - a0
    ensures var r := IdealRun(steep, a0, b0, a1, b1);
      forall k :: 0 <= k < |r| ==> Abs(2 * Cross(r[k], Place(steep, a0, b0), Place(steep, a1, b1))) <= a1 - a0
  {
    var r := IdealRun(steep, a0, b0, a1, b1);
    if a0 < a1 {
      IdealRunNearLine(steep, a0, b0, a1, b1);
    }
    forall k | 0 <= k < |r|
      ensures Abs(2 * Cross(r[k], Place(steep, a0, b0), Place(steep, a1, b1))) <= a1 - a0
    {
      IdealRunAt(steep, a0, b0, a1, b1, k);
      var minor := MinorOf(steep, r[k]);
      assert r[k] == Place(steep, a0 + k, minor);
      CrossIsErr(steep, a0, b0, a1, b1, k, minor);
      if a0 == a1 {
        IdealAtStart(0, 0);
        assert minor == b0 && b1 == b0;
      }
    }
  }

  /**
    The half-pixel error bound for `drawLine` as a whole: every pixel it emits, in either
    routine and either endpoint order, lies within half a pixel of the ideal segment,
    measured along the shorter axis.
  */
  lemma RasterizeNearSegment(x1: int, y1: int, x2: int, y2: int)
    ensures var r := Rasterize(x1, y1, x2, y2);
      forall i :: 0 <= i < |r| ==> Abs(2 * Cross(r[i], (x1, y1), (x2, y2))) <= Max(Abs(x2 - x1), Abs(y2 - y1))
  {
    var r := Rasterize(x1, y1, x2, y2);
    var u, v := (x1, y1), (x2, y2);
    var steep := !IsShallow(x1, y1, x2, y2);
    var (a1, b1, a2, b2) := if steep then (y1, x1, y2, x2) else (x1, y1, x2, y2);
    assert Place(steep, a1, b1) == u && Place(steep, a2, b2) == v;
    if a1 > a2 {
      RunNearSegment(steep, a2, b2, a1, b1);
      forall i | 0 <= i < |r|
        ensures Abs(2 * Cross(r[i], u, v)) <= Max(Abs(x2 - x1), Abs(y2 - y1))
      {
        CrossSwap(r[i], u, v);
      }
    } else {
      RunNearSegment(steep, a1, b1, a2, b2);
    }
  }
}
