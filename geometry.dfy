/**
 * Grid and lead-time dimensions derived from the evaluation configuration,
 * and the time stamps attached to the lead times. The source converts with
 * `np.int`, which truncates toward zero; nothing is rounded.
 */
module Geometry {
  import opened Wrappers

  /** Instants are whole hours on a fixed epoch. */
  type Hour = int

  /**
   * The configuration entries the ingestion reads: evaluation period,
   * forecast step, total forecast time and analysis step (hours), the domain
   * corners and resolution (degrees), and the output directory.
   */
  datatype Config = Config(
    start: Hour, end: Hour,
    forecastStep: int, forecastTotal: int, analysisStep: int,
    llLat: real, llLon: real, urLat: real, urLon: real,
    dx: real, dy: real,
    outputDir: string)

  datatype Axis = Lat | Lon

  /** The configurations on which the source raises before opening any file. */
  datatype ConfigError =
    | ZeroAnalysisStep               // ZeroDivisionError in ftime / atime
    | ZeroResolution(axis: Axis)     // int() of an infinite or NaN quotient
    | NegativeCount(axis: Axis, n: int)  // np.linspace with a negative number of points

  /** Number of longitudes, latitudes and lead times of one field file. */
  datatype Dims = Dims(xdef: nat, ydef: nat, tdef: int)

  /** `int(x)`: truncation toward zero. */
  function Trunc(x: real): (n: int)
    ensures 0.0 <= x ==> n as real <= x < n as real + 1.0
    ensures x < 0.0 ==> n as real - 1.0 < x <= n as real
  {
    if x >= 0.0 then x.Floor else -((-x).Floor)
  }

  /** `np.int(((hi - lo) / res) + 1)`. */
  function Points(lo: real, hi: real, res: real): int
    requires res != 0.0
  {
    Trunc((hi - lo) / res + 1.0)
  }

  /** `np.int((ftime / atime) + 1)`, with Python's true division. */
  function LeadCount(ftime: int, atime: int): int
    requires atime != 0
  {
    Trunc(ftime as real / atime as real + 1.0)
  }

  /** The dimensions, or the first error the source raises computing them (in its statement order). */
  function ResolveDims(c: Config): (r: Result<Dims, ConfigError>)
    ensures r.Ok? <==>
      c.analysisStep != 0 && c.dx != 0.0 && c.dy != 0.0 &&
      Points(c.llLat, c.urLat, c.dy) >= 0 && Points(c.llLon, c.urLon, c.dx) >= 0
    ensures r.Ok? ==> r.value.tdef == LeadCount(c.forecastTotal, c.analysisStep)
    ensures r.Ok? ==> r.value.xdef == Points(c.llLon, c.urLon, c.dx)
    ensures r.Ok? ==> r.value.ydef == Points(c.llLat, c.urLat, c.dy)
    ensures c.analysisStep == 0 ==> r == Err(ZeroAnalysisStep)
    ensures c.analysisStep != 0 && c.dx == 0.0 ==> r == Err(ZeroResolution(Lon))
    ensures c.analysisStep != 0 && c.dx != 0.0 && c.dy == 0.0 ==> r == Err(ZeroResolution(Lat))
    ensures c.analysisStep != 0 && c.dx != 0.0 && c.dy != 0.0 && Points(c.llLat, c.urLat, c.dy) < 0 ==>
      r == Err(NegativeCount(Lat, Points(c.llLat, c.urLat, c.dy)))
    ensures c.analysisStep != 0 && c.dx != 0.0 && c.dy != 0.0 && Points(c.llLat, c.urLat, c.dy) >= 0 && Points(c.llLon, c.urLon, c.dx) < 0 ==>
      r == Err(NegativeCount(Lon, Points(c.llLon, c.urLon, c.dx)))
  {
    if c.analysisStep == 0 then Err(ZeroAnalysisStep)
    else
      var tdef := LeadCount(c.forecastTotal, c.analysisStep);
      if c.dx == 0.0 then Err(ZeroResolution(Lon))
      else if c.dy == 0.0 then Err(ZeroResolution(Lat))
      else
        var xdef := Points(c.llLon, c.urLon, c.dx);
        var ydef := Points(c.llLat, c.urLat, c.dy);
        if ydef < 0 then Err(NegativeCount(Lat, ydef))
        else if xdef < 0 then Err(NegativeCount(Lon, xdef))
        else Ok(Dims(xdef, ydef, tdef))
  }

  /**
   * On an increasing axis the point count is the number of grid lines of
   * spacing `res` from `lo` that do not pass `hi`: a domain that is not a whole
   * number of steps wide loses its partial last step.
   */
  lemma PointsFitDomain(lo: real, hi: real, res: real)
    requires res > 0.0 && lo <= hi
    ensures Points(lo, hi, res) >= 1
    ensures lo + (Points(lo, hi, res) - 1) as real * res <= hi
    ensures hi < lo + Points(lo, hi, res) as real * res
  {
    var q := (hi - lo) / res;
    var n := Points(lo, hi, res);
    assert q >= 0.0;
    assert (n - 1) as real <= q < n as real;
    assert q * res == hi - lo;
    MulMonotone((n - 1) as real, q, res);
    MulStrict(q, n as real, res);
    assert hi - lo < n as real * res;
  }

  lemma MulMonotone(a: real, b: real, c: real)
    requires a <= b && c > 0.0
    ensures a * c <= b * c
  {
  }

  lemma MulStrict(a: real, b: real, c: real)
    requires a < b && c > 0.0
    ensures a * c < b * c
  {
  }

  /** A domain exactly `k` steps wide has `k + 1` points. */
  lemma PointsAligned(lo: real, res: real, k: nat)
    requires res != 0.0
    ensures Points(lo, lo + k as real * res, res) == k + 1
  {
    assert (lo + k as real * res - lo) / res == k as real;
  }

  /** A global 2.5-degree grid and a 48-hour forecast verified every 24 hours. */
  lemma GlobalGridExample()
    ensures ResolveDims(Config(0, 0, 6, 48, 24, -90.0, 0.0, 90.0, 357.5, 2.5, 2.5, "")) == Ok(Dims(144, 73, 3))
  {
    PointsAligned(-90.0, 2.5, 72);
    PointsAligned(0.0, 2.5, 143);
  }

  /** A domain narrower than one step still yields one point; a reversed one narrower than one step yields none. */
  lemma TruncationExamples()
    ensures Points(0.0, 2.0, 2.5) == 1
    ensures Points(0.0, -2.0, 2.5) == 0
    ensures LeadCount(-30, 24) == 0
  {
  }

  /**
   * `pd.date_range(start, end, freq=step)`: every `step` hours from `start`
   * while not past `end`.
   */
  function DateRange(start: Hour, end: Hour, step: int): seq<Hour>
    requires step > 0
    decreases end - start
  {
    if start > end then [] else [start] + DateRange(start + step, end, step)
  }

  lemma {:induction false} DateRangeAt(start: Hour, end: Hour, step: int)
    requires step > 0
    ensures var r := DateRange(start, end, step);
      (|r| == 0 <==> start > end) &&
      (forall k :: 0 <= k < |r| ==> r[k] == start + k * step) &&
      (|r| > 0 ==> r[|r| - 1] <= end < r[|r| - 1] + step)
    decreases end - start
  {
    if start <= end {
      DateRangeAt(start + step, end, step);
      var r := DateRange(start, end, step);
      forall k | 0 < k < |r| ensures r[k] == start + k * step {
        assert r[k] == start + step + (k - 1) * step;
      }
    }
  }

  lemma DivStep(a: int, step: int)
    requires step > 0 && a >= step
    ensures a / step == (a - step) / step + 1
  {
    var q, m := (a - step) / step, (a - step) % step;
    assert a == (q + 1) * step + m && 0 <= m < step;
    DivUnique(a, step, q + 1, m);
  }

  lemma DivUnique(a: int, step: int, q: int, m: int)
    requires step > 0 && a == q * step + m && 0 <= m < step
    ensures a / step == q
  {
    var q', m' := a / step, a % step;
    assert a == q' * step + m' && 0 <= m' < step;
    if q' < q {
      MulLe(q' + 1, q, step);
      assert false;
    } else if q' > q {
      MulLe(q + 1, q', step);
      assert false;
    }
  }

  lemma MulLe(x: int, y: int, s: int)
    requires x <= y && s >= 0
    ensures x * s <= y * s
  {
    assert y * s == x * s + (y - x) * s;
  }

  lemma MulSucc(n: int, m: int)
    ensures (n - 1) * m + m == n * m
  {
  }

  /** `i * m + j` addresses a cell of an `n` by `m` block. */
  lemma IndexBelow(i: int, j: int, n: int, m: int)
    requires 0 <= i < n && 0 <= j < m
    ensures 0 <= i * m + j < n * m
  {
    MulLe(i + 1, n, m);
    MulSucc(i + 1, m);
    MulLe(0, i, m);
  }

  /** A position below `rows * n` splits into a row below `rows` and a column below `n`. */
  lemma DivSplit(k: int, n: int, rows: int)
    requires 0 <= k < rows * n && n >= 0
    ensures n > 0 && 0 <= k / n < rows && k == (k / n) * n + k % n
  {
    if n == 0 {
      assert false;
    }
    var q := k / n;
    if q >= rows {
      MulLe(rows, q, n);
      assert false;
    }
  }

  /** `floor((end - start) / step) + 1` stamps when `start <= end`, none otherwise. */
  lemma {:induction false} DateRangeCount(start: Hour, end: Hour, step: int)
    requires step > 0
    ensures |DateRange(start, end, step)| == if start > end then 0 else (end - start) / step + 1
    decreases end - start
  {
    if start <= end {
      DateRangeCount(start + step, end, step);
      if start + step <= end {
        DivStep(end - start, step);
      } else {
        DivUnique(end - start, step, 0, end - start);
      }
    }
  }

  /**
   * Lead time `t` can be stamped only if the evaluation period is at least
   * `t` forecast steps long: the stamps come from the period, not the horizon.
   */
  lemma StampAvailable(c: Config, t: nat)
    requires c.forecastStep > 0
    ensures t < |DateRange(c.start, c.end, c.forecastStep)| <==> c.start + t * c.forecastStep <= c.end
  {
    DateRangeReach(c.start, c.end, c.forecastStep, t);
  }

  /** The stamp `t` steps after `start` is in the range exactly when it is not past `end`. */
  lemma {:induction false} DateRangeReach(start: Hour, end: Hour, step: int, t: nat)
    requires step > 0
    ensures t < |DateRange(start, end, step)| <==> start + t * step <= end
    decreases t
  {
    if t > 0 && start <= end {
      DateRangeReach(start + step, end, step, t - 1);
      MulSucc(t, step);
      assert start + step + (t - 1) * step == start + t * step;
    } else if t > 0 {
      MulLe(0, t, step);
    }
  }
}
