/**
 * `get_dataframe`: the registry of SCANTEC text tables. Every planned table
 * name is looked up in the output directory; each table found is stored
 * under its file name as an already parsed table (the parsing itself is the
 * table library's business and is left abstract as `V`).
 */
module Tables {
  import opened Wrappers
  import opened Geometry
  import opened Paths
  import opened Options
  import opened Naming
  import opened Registry

  /** Visits `names` in order and stores every table that exists in `dir`, in place. */
  method IngestTables<V>(fs: map<string, V>, dir: string, names: seq<string>) returns (store: Store<V>)
    ensures fresh(store)
    ensures store.Contents() == Collected(fs, dir, names)
  {
    store := new Store<V>();
    for n := 0 to |names|
      invariant store.Contents() == Collected(fs, dir, names[..n])
    {
      assert names[..n + 1][..n] == names[..n];
      var path := Join(dir, names[n]);
      if path in fs {
        store.Put(Basename(path), fs[path]);
      }
    }
    assert names[..|names|] == names;
  }

  /**
   * `get_dataframe(start, end, stats, exps, outDir, series=, tExt=, save=)`:
   * the registry of the tables found, and the cache file written when `save`
   * is in effect. The file system is `fs`, a map from path to table; the
   * date formatter is `fmt`.
   */
  method GetDataframe<V>(g: Globals, start: Hour, end: Hour, stats: seq<string>, exps: seq<string>,
                         outDir: string, fs: map<string, V>, fmt: Hour -> string,
                         seriesArg: Option<bool>, extArg: Option<string>, saveArg: Option<bool>)
    returns (store: Store<V>, dump: Option<string>)
    modifies g
    ensures fresh(store)
    ensures var series, ext := Choose(seriesArg, old(g.series)), Choose(extArg, old(g.tExt));
      store.Contents() == Collected(fs, outDir, PlannedNames(series, Scheme(Table, ext, fmt), stats, exps, start, end))
    ensures dump == if Choose(saveArg, old(g.save))
      then Some(Join(outDir, CacheName(Table, Choose(seriesArg, old(g.series))))) else None
    ensures g.tExt == Choose(extArg, old(g.tExt))
    ensures g.series == old(g.series) && g.save == old(g.save)
  {
    var opts := g.Resolve(seriesArg, extArg, saveArg);
    var names := FileNames(opts.series, Scheme(Table, opts.ext, fmt), stats, exps, start, end);
    store := IngestTables(fs, outDir, names);
    dump := if opts.save then Some(Join(outDir, CacheName(Table, opts.series))) else None;
  }

  /** Statistics, experiments and extension with no directory separator. */
  predicate PlainParts(stats: seq<string>, exps: seq<string>, ext: string) {
    (forall i :: 0 <= i < |stats| ==> IsPlainName(stats[i])) &&
    (forall j :: 0 <= j < |exps| ==> IsPlainName(exps[j])) &&
    IsPlainName(ext)
  }

  lemma PlannedPlain(series: bool, sc: Scheme, stats: seq<string>, exps: seq<string>, start: Hour, end: Hour)
    requires PlainParts(stats, exps, sc.ext) && IsStampFormat(sc.fmt)
    ensures AllPlain(PlannedNames(series, sc, stats, exps, start, end))
  {
    var names := PlannedNames(series, sc, stats, exps, start, end);
    forall k | 0 <= k < |names| ensures IsPlainName(names[k]) {
      var n := names[k];
      var d1, d2 := start, end;
      if series {
        SeriesNamesMembers(sc, stats, exps, SeriesDays(start, end), n);
        var d :| d in SeriesDays(start, end) && n in RunNames(sc, stats, exps, d, d);
        d1, d2 := d, d;
      }
      RunNamesMembers(sc, stats, exps, d1, d2, n);
      var i, j :| 0 <= i < |stats| && 0 <= j < |exps| && n == FileName(sc, stats[i], exps[j], d1, d2);
      FileNamePlain(sc, stats[i], exps[j], d1, d2);
    }
  }

  /**
   * Period mode: the registry holds a key exactly for each statistic and
   * experiment whose table `stat + exp + '_' + fmt(start) + fmt(end) + 'T.' + tExt`
   * exists in `outDir`, and that key holds that table.
   */
  lemma PeriodTables<V>(fs: map<string, V>, outDir: string, ext: string, fmt: Hour -> string,
                        stats: seq<string>, exps: seq<string>, start: Hour, end: Hour)
    requires PlainParts(stats, exps, ext) && IsStampFormat(fmt)
    ensures var sc := Scheme(Table, ext, fmt);
      var d := Collected(fs, outDir, PlannedNames(false, sc, stats, exps, start, end));
      (forall k :: k in d.entries <==>
        Join(outDir, k) in fs &&
        exists i, j :: 0 <= i < |stats| && 0 <= j < |exps| && k == FileName(sc, stats[i], exps[j], start, end)) &&
      (forall k :: k in d.entries ==> d.entries[k] == fs[Join(outDir, k)])
  {
    var sc := Scheme(Table, ext, fmt);
    var names := PlannedNames(false, sc, stats, exps, start, end);
    PlannedPlain(false, sc, stats, exps, start, end);
    CollectedEntries(fs, outDir, names);
    forall k ensures k in names <==>
        exists i, j :: 0 <= i < |stats| && 0 <= j < |exps| && k == FileName(sc, stats[i], exps[j], start, end) {
      RunNamesMembers(sc, stats, exps, start, end, k);
    }
  }

  /**
   * Series mode: the registry holds a key exactly for each day of the period,
   * statistic and experiment whose table, named with that day's date twice,
   * exists in `outDir`; the end date never appears in a key.
   */
  lemma SeriesTables<V>(fs: map<string, V>, outDir: string, ext: string, fmt: Hour -> string,
                        stats: seq<string>, exps: seq<string>, start: Hour, end: Hour)
    requires PlainParts(stats, exps, ext) && IsStampFormat(fmt)
    ensures var sc := Scheme(Table, ext, fmt);
      var d := Collected(fs, outDir, PlannedNames(true, sc, stats, exps, start, end));
      (forall k :: k in d.entries <==>
        Join(outDir, k) in fs &&
        exists day, i, j :: day in SeriesDays(start, end) && 0 <= i < |stats| && 0 <= j < |exps| &&
          k == FileName(sc, stats[i], exps[j], day, day)) &&
      (forall k :: k in d.entries ==> d.entries[k] == fs[Join(outDir, k)])
  {
    var sc := Scheme(Table, ext, fmt);
    var days := SeriesDays(start, end);
    var names := PlannedNames(true, sc, stats, exps, start, end);
    PlannedPlain(true, sc, stats, exps, start, end);
    CollectedEntries(fs, outDir, names);
    forall k ensures k in names <==>
        exists day, i, j :: day in days && 0 <= i < |stats| && 0 <= j < |exps| &&
          k == FileName(sc, stats[i], exps[j], day, day) {
      SeriesNamesMembers(sc, stats, exps, days, k);
      if k in names {
        var day :| day in days && k in RunNames(sc, stats, exps, day, day);
        RunNamesMembers(sc, stats, exps, day, day, k);
      }
      if exists day, i, j :: day in days && 0 <= i < |stats| && 0 <= j < |exps| &&
          k == FileName(sc, stats[i], exps[j], day, day) {
        var day, i, j :| day in days && 0 <= i < |stats| && 0 <= j < |exps| &&
          k == FileName(sc, stats[i], exps[j], day, day);
        RunNamesMembers(sc, stats, exps, day, day, k);
      }
    }
  }
}
