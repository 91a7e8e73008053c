/**
 * The deterministic file names the ingestion looks for, and the order in
 * which it visits them: statistics outer, experiments inner, and in series
 * mode one such fan-out per day, stepping 24 hours from the start while not
 * past the end.
 */
module Naming {
  import opened Geometry
  import opened Paths

  datatype Artifact = Table | Field

  /** The letter that follows the dates: `T` for text tables, `F` for binary fields. */
  function Letter(kind: Artifact): char {
    if kind == Table then 'T' else 'F'
  }

  /**
   * How one run names its files: the artifact kind, the extension (`tExt`)
   * and the date formatter (`strftime("%Y%m%d%H")`, left abstract).
   */
  datatype Scheme = Scheme(kind: Artifact, ext: string, fmt: Hour -> string)

  predicate IsDigit(c: char) { '0' <= c <= '9' }

  /** What the model needs of the formatter: ten decimal digits for every instant. */
  ghost predicate IsStampFormat(fmt: Hour -> string) {
    forall h :: |fmt(h)| == 10 && forall k :: 0 <= k < 10 ==> IsDigit(fmt(h)[k])
  }

  /** `stat + exp + '_' + fmt(d1) + fmt(d2) + 'T.' + tExt` (or `'F.'` for fields). */
  function FileName(sc: Scheme, stat: string, exp: string, d1: Hour, d2: Hour): string {
    stat + exp + "_" + sc.fmt(d1) + sc.fmt(d2) + [Letter(sc.kind), '.'] + sc.ext
  }

  /** The names one statistic contributes: one per experiment, in order. */
  function StatNames(sc: Scheme, stat: string, exps: seq<string>, d1: Hour, d2: Hour): (r: seq<string>)
    ensures |r| == |exps|
    ensures forall j :: 0 <= j < |exps| ==> r[j] == FileName(sc, stat, exps[j], d1, d2)
  {
    seq(|exps|, j requires 0 <= j < |exps| => FileName(sc, stat, exps[j], d1, d2))
  }

  /** The names of one period run: statistics outer, experiments inner. */
  function RunNames(sc: Scheme, stats: seq<string>, exps: seq<string>, d1: Hour, d2: Hour): seq<string>
    decreases |stats|
  {
    if stats == [] then []
    else RunNames(sc, stats[..|stats| - 1], exps, d1, d2) + StatNames(sc, stats[|stats| - 1], exps, d1, d2)
  }

  /** The names of a series run: one period run per day, that day standing for both dates. */
  function SeriesNames(sc: Scheme, stats: seq<string>, exps: seq<string>, days: seq<Hour>): seq<string>
    decreases |days|
  {
    if days == [] then []
    else
      var d := days[|days| - 1];
      SeriesNames(sc, stats, exps, days[..|days| - 1]) + RunNames(sc, stats, exps, d, d)
  }

  /** The days a series run visits: every 24 hours from `start` while not past `end`. */
  function SeriesDays(start: Hour, end: Hour): seq<Hour> {
    DateRange(start, end, 24)
  }

  /** Every name a run looks up, in lookup order. */
  function PlannedNames(series: bool, sc: Scheme, stats: seq<string>, exps: seq<string>, start: Hour, end: Hour): seq<string> {
    if series then SeriesNames(sc, stats, exps, SeriesDays(start, end))
    else RunNames(sc, stats, exps, start, end)
  }

  /** The nested statistic/experiment loops of one period. */
  method FanOut(sc: Scheme, stats: seq<string>, exps: seq<string>, d1: Hour, d2: Hour) returns (names: seq<string>)
    ensures names == RunNames(sc, stats, exps, d1, d2)
  {
    names := [];
    for i := 0 to |stats|
      invariant names == RunNames(sc, stats[..i], exps, d1, d2)
    {
      assert stats[..i + 1][..i] == stats[..i];
      for j := 0 to |exps|
        invariant names == RunNames(sc, stats[..i], exps, d1, d2) + StatNames(sc, stats[i], exps[..j], d1, d2)
      {
        assert StatNames(sc, stats[i], exps[..j + 1], d1, d2)
          == StatNames(sc, stats[i], exps[..j], d1, d2) + [FileName(sc, stats[i], exps[j], d1, d2)];
        names := names + [FileName(sc, stats[i], exps[j], d1, d2)];
      }
      assert exps[..|exps|] == exps;
    }
    assert stats[..|stats|] == stats;
  }

  /** The names of a run in lookup order; in series mode the day advances by 24 hours while it is not past `end`. */
  method FileNames(series: bool, sc: Scheme, stats: seq<string>, exps: seq<string>, start: Hour, end: Hour)
    returns (names: seq<string>)
    ensures names == PlannedNames(series, sc, stats, exps, start, end)
  {
    if series {
      names := [];
      var day := start;
      ghost var done: seq<Hour> := [];
      while day <= end
        invariant done + DateRange(day, end, 24) == SeriesDays(start, end)
        invariant names == SeriesNames(sc, stats, exps, done)
        decreases end - day
      {
        var more := FanOut(sc, stats, exps, day, day);
        DaysStep(done, day, end);
        SeriesNamesSnoc(sc, stats, exps, done, day);
        names := names + more;
        done := done + [day];
        day := day + 24;
      }
      assert DateRange(day, end, 24) == [];
      assert done + [] == done;
    } else {
      names := FanOut(sc, stats, exps, start, end);
    }
  }

  /** Moving the next day from the days still to visit to the days done keeps their concatenation. */
  lemma DaysStep(done: seq<Hour>, day: Hour, end: Hour)
    requires day <= end
    ensures (done + [day]) + DateRange(day + 24, end, 24) == done + DateRange(day, end, 24)
  {
    assert DateRange(day, end, 24) == [day] + DateRange(day + 24, end, 24);
  }

  /** One more day appends that day's period run. */
  lemma SeriesNamesSnoc(sc: Scheme, stats: seq<string>, exps: seq<string>, done: seq<Hour>, day: Hour)
    ensures SeriesNames(sc, stats, exps, done + [day]) == SeriesNames(sc, stats, exps, done) + RunNames(sc, stats, exps, day, day)
  {
    assert (done + [day])[..|done|] == done;
  }

  lemma {:induction false} RunNamesLength(sc: Scheme, stats: seq<string>, exps: seq<string>, d1: Hour, d2: Hour)
    ensures |RunNames(sc, stats, exps, d1, d2)| == |stats| * |exps|
    decreases |stats|
  {
    if stats != [] {
      RunNamesLength(sc, stats[..|stats| - 1], exps, d1, d2);
      MulSucc(|stats|, |exps|);
    }
  }

  /** The statistic at position `i` and the experiment at position `j` give name `i * |exps| + j` of a period run. */
  lemma {:induction false} RunNameAt(sc: Scheme, stats: seq<string>, exps: seq<string>, d1: Hour, d2: Hour, i: nat, j: nat)
    requires i < |stats| && j < |exps|
    ensures |RunNames(sc, stats, exps, d1, d2)| == |stats| * |exps|
    ensures 0 <= i * |exps| + j < |stats| * |exps|
    ensures RunNames(sc, stats, exps, d1, d2)[i * |exps| + j] == FileName(sc, stats[i], exps[j], d1, d2)
    decreases |stats|
  {
    var n, m := |stats|, |exps|;
    var init := stats[..n - 1];
    RunNamesLength(sc, stats, exps, d1, d2);
    RunNamesLength(sc, init, exps, d1, d2);
    IndexBelow(i, j, n, m);
    if i < n - 1 {
      RunNameAt(sc, init, exps, d1, d2, i, j);
    } else {
      assert i * m + j - (n - 1) * m == j;
    }
  }

  lemma {:induction false} SeriesNamesLength(sc: Scheme, stats: seq<string>, exps: seq<string>, days: seq<Hour>)
    ensures |SeriesNames(sc, stats, exps, days)| == |days| * (|stats| * |exps|)
    decreases |days|
  {
    if days != [] {
      var d := days[|days| - 1];
      SeriesNamesLength(sc, stats, exps, days[..|days| - 1]);
      RunNamesLength(sc, stats, exps, d, d);
      MulSucc(|days|, |stats| * |exps|);
    }
  }

  /** With `m` names per day, name `k * m + r` of a series run is name `r` of day `k`'s period run. */
  lemma {:induction false} SeriesNameAt(sc: Scheme, stats: seq<string>, exps: seq<string>, days: seq<Hour>, k: nat, r: nat)
    requires k < |days| && r < |stats| * |exps|
    ensures |SeriesNames(sc, stats, exps, days)| == |days| * (|stats| * |exps|)
    ensures 0 <= k * (|stats| * |exps|) + r < |days| * (|stats| * |exps|)
    ensures |RunNames(sc, stats, exps, days[k], days[k])| == |stats| * |exps|
    ensures SeriesNames(sc, stats, exps, days)[k * (|stats| * |exps|) + r] == RunNames(sc, stats, exps, days[k], days[k])[r]
    decreases |days|
  {
    var n, m := |days|, |stats| * |exps|;
    var init := days[..n - 1];
    SeriesNamesLength(sc, stats, exps, days);
    SeriesNamesLength(sc, stats, exps, init);
    RunNamesLength(sc, stats, exps, days[k], days[k]);
    IndexBelow(k, r, n, m);
    if k < n - 1 {
      SeriesNameAt(sc, stats, exps, init, k, r);
    } else {
      assert k * m + r - (n - 1) * m == r;
    }
  }

  /**
   * In series mode, day `k` is `start + 24k`, there are `floor((end - start) / 24) + 1`
   * days (none when `start > end`), and the name for day `k`, statistic `i` and
   * experiment `j` carries that day's date in both date slots.
   */
  lemma SeriesVisits(sc: Scheme, stats: seq<string>, exps: seq<string>, start: Hour, end: Hour,
                     k: nat, i: nat, j: nat)
    requires k < |SeriesDays(start, end)| && i < |stats| && j < |exps|
    ensures |SeriesDays(start, end)| == if start > end then 0 else (end - start) / 24 + 1
    ensures var idx := k * (|stats| * |exps|) + i * |exps| + j;
      0 <= idx < |PlannedNames(true, sc, stats, exps, start, end)| &&
      PlannedNames(true, sc, stats, exps, start, end)[idx]
        == FileName(sc, stats[i], exps[j], start + 24 * k, start + 24 * k)
  {
    var days := SeriesDays(start, end);
    DateRangeCount(start, end, 24);
    assert days[k] == start + 24 * k by {
      DateRangeAt(start, end, 24);
    }
    SeriesNameOfDay(sc, stats, exps, days, k, i, j);
  }

  /** Day `k`, statistic `i` and experiment `j` give name `k * |stats| * |exps| + i * |exps| + j` of a series run. */
  lemma SeriesNameOfDay(sc: Scheme, stats: seq<string>, exps: seq<string>, days: seq<Hour>, k: nat, i: nat, j: nat)
    requires k < |days| && i < |stats| && j < |exps|
    ensures var idx := k * (|stats| * |exps|) + i * |exps| + j;
      0 <= idx < |SeriesNames(sc, stats, exps, days)| &&
      SeriesNames(sc, stats, exps, days)[idx] == FileName(sc, stats[i], exps[j], days[k], days[k])
  {
    var d, r, m := days[k], i * |exps| + j, |stats| * |exps|;
    assert 0 <= r < |RunNames(sc, stats, exps, d, d)| && RunNames(sc, stats, exps, d, d)[r] == FileName(sc, stats[i], exps[j], d, d) by {
      RunNameAt(sc, stats, exps, d, d, i, j);
    }
    assert 0 <= k * m + r < |SeriesNames(sc, stats, exps, days)| &&
      SeriesNames(sc, stats, exps, days)[k * m + r] == RunNames(sc, stats, exps, d, d)[r] by {
      RunNamesLength(sc, stats, exps, d, d);
      SeriesNameAt(sc, stats, exps, days, k, r);
    }
    IndexThrough(SeriesNames(sc, stats, exps, days), RunNames(sc, stats, exps, d, d), k * m, r, FileName(sc, stats[i], exps[j], d, d));
  }

  /** Looking up `r` in a part found at offset `base` of a whole is looking up `base + r` in the whole. */
  lemma IndexThrough(whole: seq<string>, part: seq<string>, base: int, r: int, n: string)
    requires 0 <= r < |part| && part[r] == n
    requires 0 <= base + r < |whole| && whole[base + r] == part[r]
    ensures whole[base + r] == n
  {
  }

  /** A name is looked up in a period run exactly when some statistic and some experiment build it. */
  lemma {:induction false} RunNamesMembers(sc: Scheme, stats: seq<string>, exps: seq<string>, d1: Hour, d2: Hour, n: string)
    ensures n in RunNames(sc, stats, exps, d1, d2) <==>
      exists i, j :: 0 <= i < |stats| && 0 <= j < |exps| && n == FileName(sc, stats[i], exps[j], d1, d2)
    decreases |stats|
  {
    if stats != [] {
      var init, last := stats[..|stats| - 1], stats[|stats| - 1];
      RunNamesMembers(sc, init, exps, d1, d2, n);
      if exists i, j :: 0 <= i < |stats| && 0 <= j < |exps| && n == FileName(sc, stats[i], exps[j], d1, d2) {
        var i, j :| 0 <= i < |stats| && 0 <= j < |exps| && n == FileName(sc, stats[i], exps[j], d1, d2);
        if i < |stats| - 1 {
          assert init[i] == stats[i];
        } else {
          assert StatNames(sc, last, exps, d1, d2)[j] == n;
        }
      }
      if n in StatNames(sc, last, exps, d1, d2) {
        var j :| 0 <= j < |exps| && StatNames(sc, last, exps, d1, d2)[j] == n;
        assert n == FileName(sc, stats[|stats| - 1], exps[j], d1, d2);
      }
    }
  }

  /** A name is looked up in a series run exactly when it is some day's period name for that day. */
  lemma {:induction false} SeriesNamesMembers(sc: Scheme, stats: seq<string>, exps: seq<string>, days: seq<Hour>, n: string)
    ensures n in SeriesNames(sc, stats, exps, days) <==> exists d :: d in days && n in RunNames(sc, stats, exps, d, d)
    decreases |days|
  {
    if days != [] {
      var init, last := days[..|days| - 1], days[|days| - 1];
      SeriesNamesMembers(sc, stats, exps, init, n);
      assert days == init + [last];
      if exists d :: d in days && n in RunNames(sc, stats, exps, d, d) {
        var d :| d in days && n in RunNames(sc, stats, exps, d, d);
        assert d in init || d == last;
      }
    }
  }

  /** Names built from plain statistics, experiments and extension are plain file names. */
  lemma FileNamePlain(sc: Scheme, stat: string, exp: string, d1: Hour, d2: Hour)
    requires IsPlainName(stat) && IsPlainName(exp) && IsPlainName(sc.ext) && IsStampFormat(sc.fmt)
    ensures IsPlainName(FileName(sc, stat, exp, d1, d2))
  {
    var a, b := sc.fmt(d1), sc.fmt(d2);
    assert |a| == 10 && forall k :: 0 <= k < 10 ==> IsDigit(a[k]);
    assert |b| == 10 && forall k :: 0 <= k < 10 ==> IsDigit(b[k]);
  }

  /** A series over a single day looks up exactly the names of the period run over that day. */
  lemma SeriesOfOneDay(sc: Scheme, stats: seq<string>, exps: seq<string>, day: Hour)
    ensures PlannedNames(true, sc, stats, exps, day, day) == PlannedNames(false, sc, stats, exps, day, day)
  {
    var days := SeriesDays(day, day);
    assert DateRange(day + 24, day, 24) == [];
    assert days == [day];
    assert days[..0] == [];
    assert SeriesNames(sc, stats, exps, days) == SeriesNames(sc, stats, exps, []) + RunNames(sc, stats, exps, day, day);
  }

  /** The cache file written when `save` is set: one per artifact kind and mode. */
  function CacheName(kind: Artifact, series: bool): string {
    "scantec_ds_" + (if kind == Table then "table" else "field") + (if series then "-series" else "") + ".pkl"
  }

  /** The four cache files are distinct, so no run overwrites another kind's or mode's cache. */
  lemma CacheNamesDistinct(k1: Artifact, s1: bool, k2: Artifact, s2: bool)
    ensures CacheName(k1, s1) == CacheName(k2, s2) <==> k1 == k2 && s1 == s2
  {
    var a, b := CacheName(k1, s1), CacheName(k2, s2);
    assert a[11] == (if k1 == Table then 't' else 'f');
    assert b[11] == (if k2 == Table then 't' else 'f');
    assert |a| == if s1 then 27 else 20;
    assert |b| == if s2 then 27 else 20;
  }
}
