/**
 * The module-level defaults every entry point falls back on (`series`, `tExt`,
 * `save`). An explicit `tExt` argument also overwrites the shared default, so
 * it carries over to every later call that omits it.
 */
module Options {
  import opened Wrappers

  /** The options one call runs with, once its keyword arguments are resolved. */
  datatype Resolved = Resolved(series: bool, ext: string, save: bool)

  /** A keyword argument if it was passed, the shared default otherwise. */
  function Choose<T>(arg: Option<T>, default: T): T {
    if arg.Some? then arg.value else default
  }

  class Globals {
    var series: bool
    var tExt: string
    var save: bool

    /** The documented defaults: period mode, the current `scan` naming, no cache file. */
    constructor ()
      ensures !series && tExt == "scan" && !save
    {
      series, tExt, save := false, "scan", false;
    }

    /** Picks the extension for one call; an explicit one becomes the new shared default. */
    method UseExt(ext: Option<string>) returns (chosen: string)
      modifies this`tExt
      ensures chosen == Choose(ext, old(tExt))
      ensures tExt == chosen
    {
      if ext.Some? {
        tExt := ext.value;
      }
      chosen := tExt;
    }

    /** Resolves the three options of an ingestion call; only `tExt` is written back. */
    method Resolve(seriesArg: Option<bool>, ext: Option<string>, saveArg: Option<bool>) returns (opts: Resolved)
      modifies this`tExt
      ensures opts == Resolved(Choose(seriesArg, series), Choose(ext, old(tExt)), Choose(saveArg, save))
      ensures tExt == opts.ext
    {
      var s := Choose(seriesArg, series);
      var e := UseExt(ext);
      var v := Choose(saveArg, save);
      opts := Resolved(s, e, v);
    }
  }
}
