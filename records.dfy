/**
 * One record of a SCANTEC binary field file: `xdef * ydef` single-precision
 * values, longitude varying fastest. It is reshaped column-major to
 * `(lon, lat)`, its missing-value code is replaced by NaN in place, and it is
 * transposed to `(lat, lon)`.
 */
module Records {
  import opened Geometry

  /** A value of a record; `NaN` is the missing-value marker of the dataset. */
  datatype Value = Num(x: real) | NaN

  /** The missing-value code in SCANTEC's binary output. */
  const Sentinel: real := -999.9

  function Masked(v: Value): Value {
    if v == Num(Sentinel) then NaN else v
  }

  /** The record with every sentinel replaced by NaN. */
  function MaskSentinel(r: seq<Value>): (m: seq<Value>)
    ensures |m| == |r|
  {
    seq(|r|, k requires 0 <= k < |r| => Masked(r[k]))
  }

  /** Masking removes every sentinel, changes nothing else, and is idempotent. */
  lemma MaskSentinelEffect(r: seq<Value>)
    ensures Num(Sentinel) !in MaskSentinel(r)
    ensures forall k :: 0 <= k < |r| ==> (MaskSentinel(r)[k] != r[k] <==> r[k] == Num(Sentinel))
    ensures forall k :: 0 <= k < |r| && r[k] == Num(Sentinel) ==> MaskSentinel(r)[k] == NaN
    ensures MaskSentinel(MaskSentinel(r)) == MaskSentinel(r)
  {
  }

  /** A field: rows are latitudes, columns longitudes. */
  type Grid = seq<seq<Value>>

  predicate HasShape(g: Grid, xdef: nat, ydef: nat) {
    |g| == ydef && forall lat :: 0 <= lat < ydef ==> |g[lat]| == xdef
  }

  /** The record read column-major as `(lon, lat)` and transposed to `(lat, lon)`. */
  function LatLon(r: seq<Value>, xdef: nat, ydef: nat): (g: Grid)
    requires |r| == xdef * ydef
    ensures HasShape(g, xdef, ydef)
  {
    seq(ydef, lat requires 0 <= lat < ydef =>
      seq(xdef, lon requires 0 <= lon < xdef =>
        IndexBelow(lat, lon, ydef, xdef); r[lat * xdef + lon]))
  }

  /** The rows laid end to end. */
  function Flatten(g: Grid): seq<Value>
    decreases |g|
  {
    if g == [] then [] else Flatten(g[..|g| - 1]) + g[|g| - 1]
  }

  lemma {:induction false} FlattenRows(r: seq<Value>, xdef: nat, ydef: nat, n: nat)
    requires |r| == xdef * ydef && n <= ydef
    ensures n * xdef <= |r|
    ensures Flatten(LatLon(r, xdef, ydef)[..n]) == r[..n * xdef]
    decreases n
  {
    var g := LatLon(r, xdef, ydef);
    MulLe(n, ydef, xdef);
    if n > 0 {
      FlattenRows(r, xdef, ydef, n - 1);
      MulSucc(n, xdef);
      assert g[..n][..n - 1] == g[..n - 1];
      assert g[n - 1] == r[(n - 1) * xdef..n * xdef];
      assert r[..(n - 1) * xdef] + r[(n - 1) * xdef..n * xdef] == r[..n * xdef];
    }
  }

  /** Reading the grid back row by row gives the record: the layout loses and reorders nothing. */
  lemma FlattenLatLon(r: seq<Value>, xdef: nat, ydef: nat)
    requires |r| == xdef * ydef
    ensures Flatten(LatLon(r, xdef, ydef)) == r
  {
    FlattenRows(r, xdef, ydef, ydef);
    assert LatLon(r, xdef, ydef)[..ydef] == LatLon(r, xdef, ydef);
  }

  /** Element `k` of a record lands at latitude `k div xdef`, longitude `k mod xdef`. */
  lemma Placement(r: seq<Value>, xdef: nat, ydef: nat, k: nat)
    requires |r| == xdef * ydef && k < |r|
    ensures xdef > 0 && k / xdef < ydef
    ensures LatLon(r, xdef, ydef)[k / xdef][k % xdef] == r[k]
  {
    DivSplit(k, xdef, ydef);
  }

  /**
   * `read_record('f4').reshape(xdef, ydef, order='F')`: the first index varies
   * fastest, so `field[lon, lat]` is element `lat * xdef + lon`.
   */
  method Reshape(rec: seq<Value>, xdef: nat, ydef: nat) returns (field: array2<Value>)
    requires |rec| == xdef * ydef
    ensures fresh(field) && field.Length0 == xdef && field.Length1 == ydef
    ensures forall lon, lat :: 0 <= lon < xdef && 0 <= lat < ydef ==>
      field[lon, lat] == LatLon(rec, xdef, ydef)[lat][lon]
  {
    ghost var g := LatLon(rec, xdef, ydef);
    field := new Value[xdef, ydef];
    var k := 0;
    for lat := 0 to ydef
      invariant k == lat * xdef
      invariant forall lon, lat' :: 0 <= lon < xdef && 0 <= lat' < lat ==> field[lon, lat'] == g[lat'][lon]
    {
      for lon := 0 to xdef
        invariant k == lat * xdef + lon
        invariant forall lon', lat' :: 0 <= lon' < xdef && 0 <= lat' < lat ==> field[lon', lat'] == g[lat'][lon']
        invariant forall lon' :: 0 <= lon' < lon ==> field[lon', lat] == g[lat][lon']
      {
        IndexBelow(lat, lon, ydef, xdef);
        field[lon, lat] := rec[k];
        k := k + 1;
      }
      MulSucc(lat + 1, xdef);
    }
  }

  /** `field[field == -999.9] = np.nan`, in place. */
  method MaskInPlace(field: array2<Value>)
    modifies field
    ensures forall i, j :: 0 <= i < field.Length0 && 0 <= j < field.Length1 ==> field[i, j] == Masked(old(field[i, j]))
  {
    for i := 0 to field.Length0
      invariant forall i', j :: 0 <= i' < field.Length0 && 0 <= j < field.Length1 ==>
        field[i', j] == if i' < i then Masked(old(field[i', j])) else old(field[i', j])
    {
      for j := 0 to field.Length1
        invariant forall i', j' :: 0 <= i' < field.Length0 && 0 <= j' < field.Length1 ==>
          field[i', j'] == if i' < i || (i' == i && j' < j) then Masked(old(field[i', j'])) else old(field[i', j'])
      {
        if field[i, j] == Num(Sentinel) {
          field[i, j] := NaN;
        }
      }
    }
  }

  /** `ds.transpose(..., 'lat', 'lon')` of a `(lon, lat)` field. */
  function Transposed(field: array2<Value>): (g: Grid)
    reads field
    ensures HasShape(g, field.Length0, field.Length1)
    ensures forall lat, lon :: 0 <= lat < field.Length1 && 0 <= lon < field.Length0 ==> g[lat][lon] == field[lon, lat]
  {
    seq(field.Length1, lat requires 0 <= lat < field.Length1 reads field =>
      seq(field.Length0, lon requires 0 <= lon < field.Length0 reads field => field[lon, lat]))
  }

  /** One record decoded as the dataset stores it: masked, on a latitude-by-longitude grid. */
  method DecodeRecord(rec: seq<Value>, xdef: nat, ydef: nat) returns (grid: Grid)
    requires |rec| == xdef * ydef
    ensures grid == LatLon(MaskSentinel(rec), xdef, ydef)
  {
    var field := Reshape(rec, xdef, ydef);
    MaskInPlace(field);
    grid := Transposed(field);
    var want := LatLon(MaskSentinel(rec), xdef, ydef);
    forall lat | 0 <= lat < ydef ensures grid[lat] == want[lat] {
      forall lon | 0 <= lon < xdef ensures grid[lat][lon] == want[lat][lon] {
        IndexBelow(lat, lon, ydef, xdef);
        assert LatLon(rec, xdef, ydef)[lat][lon] == rec[lat * xdef + lon];
      }
    }
  }
}
