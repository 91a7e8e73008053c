/**
 * `get_dataset`: the registry of SCANTEC binary field files. Each planned
 * file is opened in the output directory of the configuration; a missing
 * one is reported and skipped. An existing file is read record by record,
 * lead times outer and variables inner, and stored as one snapshot per lead
 * time. A file that ends early is reported and skipped like a missing one
 * when the reader's end-of-file error is an `IOError` (the `eofCaught` flag
 * of the layout); any other failure while reading a file ends the whole call.
 */
module Fields {
  import opened Wrappers
  import opened Geometry
  import opened Paths
  import opened Options
  import opened Naming
  import opened Registry
  import opened Records

  /** A field file: its records, already framed. */
  type FieldFile = seq<seq<Value>>

  /** One lead time of a stored collection: its time stamp and a grid per variable code. */
  datatype Snapshot = Snapshot(time: Hour, vars: map<string, Grid>)

  /** What stops the reading of an existing field file, and with it the whole call. */
  datatype ReadError =
    | ShortFile(record: nat)    // the file ends before this record
    | RecordSize(record: nat)   // a record that does not hold `xdef * ydef` values: the reshape raises
    | NoStamp(t: nat)           // `times[t]` past the stamps of the evaluation period: IndexError
    | NoVariables               // no variable configured: no snapshot is ever built
    | NoLeadTimes               // `tdef <= 0`: concatenation of no snapshots

  datatype FieldError =
    | BadConfig(cause: ConfigError)
    | EmptyVariable(index: nat)             // a `data_vars` entry with no code
    | InFile(path: string, reason: ReadError)

  /**
   * How every file of one call is read: grid size, lead times, variable codes,
   * stamps, and whether the error the record reader raises at the end of the
   * file is an `IOError`, so that the handler of the missing file catches it.
   * That depends on the reader's library, which is not part of this model, so
   * it is left open.
   */
  datatype Layout = Layout(xdef: nat, ydef: nat, tdef: int, codes: seq<string>, times: seq<Hour>, eofCaught: bool)

  /** What goes wrong at lead time `t`, variable `i`, in the order the source meets it: read, reshape, stamp. */
  function FailureAt(f: FieldFile, lay: Layout, t: nat, i: nat): Option<ReadError> {
    var k := t * |lay.codes| + i;
    if k >= |f| then Some(ShortFile(k))
    else if |f[k]| != lay.xdef * lay.ydef then Some(RecordSize(k))
    else if t >= |lay.times| then Some(NoStamp(t))
    else None
  }

  /** The first failure at or after position `(t, i)`, lead times outer and variables inner. */
  function FirstFailure(f: FieldFile, lay: Layout, t: nat, i: nat): Option<ReadError>
    decreases lay.tdef - t, |lay.codes| - i
  {
    if t >= lay.tdef then None
    else if i >= |lay.codes| then FirstFailure(f, lay, t + 1, 0)
    else if FailureAt(f, lay, t, i).Some? then FailureAt(f, lay, t, i)
    else FirstFailure(f, lay, t, i + 1)
  }

  /** No failure is found from `(t, i)` on exactly when no position from there on fails. */
  lemma {:induction false} FirstFailureNone(f: FieldFile, lay: Layout, t: nat, i: nat)
    ensures FirstFailure(f, lay, t, i).None? <==>
      forall t', i' :: t <= t' < lay.tdef && 0 <= i' < |lay.codes| && (t < t' || i <= i') ==>
        FailureAt(f, lay, t', i').None?
    decreases lay.tdef - t, |lay.codes| - i
  {
    if t < lay.tdef {
      if i >= |lay.codes| {
        FirstFailureNone(f, lay, t + 1, 0);
      } else {
        FirstFailureNone(f, lay, t, i + 1);
      }
    }
  }

  lemma NoFailure(f: FieldFile, lay: Layout)
    requires lay.tdef > 0 && |lay.codes| > 0 && FirstFailure(f, lay, 0, 0).None?
    ensures lay.tdef <= |lay.times|
  {
    FirstFailureNone(f, lay, 0, 0);
    assert FailureAt(f, lay, lay.tdef - 1, 0).None?;
  }

  /** The decoded grid of the record for lead time `t`, variable `i` (empty where there is none). */
  function GridAt(f: FieldFile, lay: Layout, t: nat, i: nat): Grid {
    var k := t * |lay.codes| + i;
    if k < |f| && |f[k]| == lay.xdef * lay.ydef then LatLon(MaskSentinel(f[k]), lay.xdef, lay.ydef) else []
  }

  /** The variables of the dataset after the first `n` codes of lead time `t` are assigned over `base`. */
  function VarsAt(base: map<string, Grid>, f: FieldFile, lay: Layout, t: nat, n: nat): map<string, Grid>
    requires n <= |lay.codes|
  {
    if n == 0 then base
    else VarsAt(base, f, lay, t, n - 1)[lay.codes[n - 1] := GridAt(f, lay, t, n - 1)]
  }

  lemma {:induction false} VarsAtKeys(base: map<string, Grid>, f: FieldFile, lay: Layout, t: nat, n: nat)
    requires n <= |lay.codes|
    ensures forall c :: c in VarsAt(base, f, lay, t, n) <==> c in base || c in lay.codes[..n]
    ensures forall c :: c in VarsAt(map[], f, lay, t, n) <==> c in lay.codes[..n]
    ensures forall c :: c in lay.codes[..n] ==>
      c in VarsAt(base, f, lay, t, n) && c in VarsAt(map[], f, lay, t, n) &&
      VarsAt(base, f, lay, t, n)[c] == VarsAt(map[], f, lay, t, n)[c]
  {
    if n > 0 {
      VarsAtKeys(base, f, lay, t, n - 1);
      assert lay.codes[..n] == lay.codes[..n - 1] + [lay.codes[n - 1]];
    }
  }

  /**
   * Every lead time assigns every code, so what the dataset held before does
   * not survive: a step holds exactly the configured codes.
   */
  lemma VarsAtBase(base: map<string, Grid>, f: FieldFile, lay: Layout, t: nat)
    requires forall c :: c in base ==> c in lay.codes
    ensures VarsAt(base, f, lay, t, |lay.codes|) == VarsAt(map[], f, lay, t, |lay.codes|)
    ensures forall c :: c in VarsAt(map[], f, lay, t, |lay.codes|) <==> c in lay.codes
  {
    VarsAtKeys(base, f, lay, t, |lay.codes|);
    VarsAtKeys(map[], f, lay, t, |lay.codes|);
    assert lay.codes[..|lay.codes|] == lay.codes;
  }

  /** The snapshots of one existing file, or why reading it stops the call. */
  function ReadFile(f: FieldFile, lay: Layout): Result<seq<Snapshot>, ReadError> {
    if lay.tdef <= 0 then Err(NoLeadTimes)
    else if |lay.codes| == 0 then Err(NoVariables)
    else match FirstFailure(f, lay, 0, 0)
      case Some(e) => Err(e)
      case None =>
        NoFailure(f, lay);
        Ok(seq(lay.tdef, t requires 0 <= t < lay.tdef =>
          Snapshot(lay.times[t], VarsAt(map[], f, lay, t, |lay.codes|))))
  }

  /**
   * One lead time of an open file: for each variable in turn, the next record
   * is read, decoded and stored under the variable's code, and the dataset is
   * stamped with `times[t]`.
   */
  method ReadLeadTime(f: FieldFile, lay: Layout, t: nat, ds: map<string, Grid>, k: nat)
    returns (r: Result<map<string, Grid>, ReadError>, next: nat)
    requires t < lay.tdef && k == t * |lay.codes|
    ensures r.Ok? ==> r.value == VarsAt(ds, f, lay, t, |lay.codes|)
    ensures r.Ok? ==> FirstFailure(f, lay, t, 0) == FirstFailure(f, lay, t + 1, 0)
    ensures r.Ok? ==> next == k + |lay.codes| && (|lay.codes| > 0 ==> t < |lay.times|)
    ensures r.Err? ==> |lay.codes| > 0 && FirstFailure(f, lay, t, 0) == Some(r.error)
  {
    var nvars := |lay.codes|;
    var vars := ds;
    next := k;
    for i := 0 to nvars
      invariant next == t * nvars + i
      invariant FirstFailure(f, lay, t, 0) == FirstFailure(f, lay, t, i)
      invariant vars == VarsAt(ds, f, lay, t, i)
      invariant i > 0 ==> t < |lay.times|
    {
      if next >= |f| {
        return Err(ShortFile(next)), next;
      }
      if |f[next]| != lay.xdef * lay.ydef {
        return Err(RecordSize(next)), next;
      }
      var grid := DecodeRecord(f[next], lay.xdef, lay.ydef);
      vars := vars[lay.codes[i] := grid];
      if t >= |lay.times| {
        return Err(NoStamp(t)), next;
      }
      next := next + 1;
    }
    r := Ok(vars);
  }

  /**
   * Reads one open field file: one record per lead time and variable, in that
   * order, one snapshot appended per lead time.
   */
  method ReadFieldFile(f: FieldFile, lay: Layout) returns (r: Result<seq<Snapshot>, ReadError>)
    ensures r == ReadFile(f, lay)
  {
    var nvars := |lay.codes|;
    var tdef: nat := if lay.tdef < 0 then 0 else lay.tdef;
    var dsl: seq<Snapshot> := [];
    var ds: map<string, Grid> := map[];
    var k := 0;
    for t := 0 to tdef
      invariant k == t * nvars
      invariant FirstFailure(f, lay, 0, 0) == FirstFailure(f, lay, t, 0)
      invariant forall c :: c in ds ==> c in lay.codes
      invariant t == 0 || nvars > 0
      invariant SnapshotsUpTo(dsl, f, lay, t)
    {
      var step;
      step, k := ReadLeadTime(f, lay, t, ds, k);
      if step.Err? {
        return Err(step.error);
      }
      if nvars == 0 {
        return Err(NoVariables);
      }
      VarsAtBase(ds, f, lay, t);
      ds := step.value;
      SnapshotsSnoc(dsl, f, lay, t);
      dsl := dsl + [Snapshot(lay.times[t], ds)];
      MulSucc(t + 1, nvars);
    }
    if tdef == 0 {
      return Err(NoLeadTimes);
    }
    SnapshotsRead(dsl, f, lay);
    r := Ok(dsl);
  }

  /** `dsl` holds the snapshots of the first `n` lead times, each stamped from the period. */
  predicate SnapshotsUpTo(dsl: seq<Snapshot>, f: FieldFile, lay: Layout, n: nat) {
    |dsl| == n && n <= |lay.times| &&
    forall t :: 0 <= t < n ==> dsl[t] == Snapshot(lay.times[t], VarsAt(map[], f, lay, t, |lay.codes|))
  }

  lemma SnapshotsSnoc(dsl: seq<Snapshot>, f: FieldFile, lay: Layout, n: nat)
    requires SnapshotsUpTo(dsl, f, lay, n) && n < |lay.times|
    ensures SnapshotsUpTo(dsl + [Snapshot(lay.times[n], VarsAt(map[], f, lay, n, |lay.codes|))], f, lay, n + 1)
  {
  }

  /** Snapshots of every lead time of a file without failure are what reading it yields. */
  lemma SnapshotsRead(dsl: seq<Snapshot>, f: FieldFile, lay: Layout)
    requires lay.tdef > 0 && |lay.codes| > 0 && FirstFailure(f, lay, 0, 0).None?
    requires SnapshotsUpTo(dsl, f, lay, lay.tdef)
    ensures ReadFile(f, lay) == Ok(dsl)
  {
    assert dsl == seq(lay.tdef, t requires 0 <= t < lay.tdef =>
      Snapshot(lay.times[t], VarsAt(map[], f, lay, t, |lay.codes|)));
  }

  /**
   * A file reads without error exactly when there is at least one lead time
   * and one variable, the period has a stamp for every lead time, and the
   * file holds at least `tdef * nvars` records, each of `xdef * ydef` values.
   */
  lemma ReadFileOk(f: FieldFile, lay: Layout)
    ensures ReadFile(f, lay).Ok? <==>
      lay.tdef > 0 && |lay.codes| > 0 && lay.tdef <= |lay.times| &&
      lay.tdef * |lay.codes| <= |f| &&
      forall k :: 0 <= k < lay.tdef * |lay.codes| ==> |f[k]| == lay.xdef * lay.ydef
  {
    var n := |lay.codes|;
    FirstFailureNone(f, lay, 0, 0);
    if ReadFile(f, lay).Ok? {
      assert FailureAt(f, lay, lay.tdef - 1, n - 1).None?;
      MulSucc(lay.tdef, n);
      forall k | 0 <= k < lay.tdef * n ensures |f[k]| == lay.xdef * lay.ydef {
        DivSplit(k, n, lay.tdef);
        assert FailureAt(f, lay, k / n, k % n).None?;
      }
    }
    if lay.tdef > 0 && n > 0 && lay.tdef <= |lay.times| && lay.tdef * n <= |f| &&
       forall k :: 0 <= k < lay.tdef * n ==> |f[k]| == lay.xdef * lay.ydef {
      forall t, i | 0 <= t < lay.tdef && 0 <= i < n ensures FailureAt(f, lay, t, i).None? {
        IndexBelow(t, i, lay.tdef, n);
      }
    }
  }

  /**
   * A file that reads without error gives `tdef` snapshots in lead-time
   * order; snapshot `t` is stamped `times[t]` and holds exactly the
   * configured variable codes.
   */
  lemma ReadFileSteps(f: FieldFile, lay: Layout)
    requires ReadFile(f, lay).Ok?
    ensures var steps := ReadFile(f, lay).value;
      |steps| == lay.tdef && lay.tdef <= |lay.times| &&
      forall t :: 0 <= t < |steps| ==>
        steps[t].time == lay.times[t] && forall c :: c in steps[t].vars <==> c in lay.codes
  {
    var steps := ReadFile(f, lay).value;
    NoFailure(f, lay);
    forall t | 0 <= t < |steps| ensures forall c :: c in steps[t].vars <==> c in lay.codes {
      VarsAtBase(map[], f, lay, t);
    }
  }

  lemma {:induction false} VarsAtLast(base: map<string, Grid>, f: FieldFile, lay: Layout, t: nat, n: nat, i: nat)
    requires i < n <= |lay.codes|
    requires forall j :: i < j < n ==> lay.codes[j] != lay.codes[i]
    ensures lay.codes[i] in VarsAt(base, f, lay, t, n)
    ensures VarsAt(base, f, lay, t, n)[lay.codes[i]] == GridAt(f, lay, t, i)
  {
    if i < n - 1 {
      VarsAtLast(base, f, lay, t, n - 1, i);
    }
  }

  /**
   * In a file that reads without error, the grid stored for variable `i` at
   * lead time `t` is record `t * nvars + i`, masked and laid out by latitude
   * and longitude (a code listed twice keeps its later record).
   */
  lemma ReadFileRecord(f: FieldFile, lay: Layout, t: nat, i: nat)
    requires ReadFile(f, lay).Ok?
    requires t < lay.tdef && i < |lay.codes|
    requires forall j :: i < j < |lay.codes| ==> lay.codes[j] != lay.codes[i]
    ensures t * |lay.codes| + i < |f| && |f[t * |lay.codes| + i]| == lay.xdef * lay.ydef
    ensures var steps := ReadFile(f, lay).value;
      lay.codes[i] in steps[t].vars &&
      steps[t].vars[lay.codes[i]] == LatLon(MaskSentinel(f[t * |lay.codes| + i]), lay.xdef, lay.ydef)
  {
    ReadFileOk(f, lay);
    IndexBelow(t, i, lay.tdef, |lay.codes|);
    VarsAtLast(map[], f, lay, t, |lay.codes|, i);
  }

  lemma {:induction false} FirstFailureSame(f: FieldFile, g: FieldFile, lay: Layout, t: nat, i: nat)
    requires forall t', i' :: 0 <= t' < lay.tdef && 0 <= i' < |lay.codes| ==> FailureAt(f, lay, t', i') == FailureAt(g, lay, t', i')
    ensures FirstFailure(f, lay, t, i) == FirstFailure(g, lay, t, i)
    decreases lay.tdef - t, |lay.codes| - i
  {
    if t < lay.tdef {
      if i >= |lay.codes| {
        FirstFailureSame(f, g, lay, t + 1, 0);
      } else {
        FirstFailureSame(f, g, lay, t, i + 1);
      }
    }
  }

  lemma {:induction false} VarsAtSame(f: FieldFile, g: FieldFile, lay: Layout, t: nat, n: nat)
    requires n <= |lay.codes|
    requires forall i :: 0 <= i < n ==> GridAt(f, lay, t, i) == GridAt(g, lay, t, i)
    ensures VarsAt(map[], f, lay, t, n) == VarsAt(map[], g, lay, t, n)
  {
    if n > 0 {
      VarsAtSame(f, g, lay, t, n - 1);
    }
  }

  /** The number of records a complete read takes: `tdef * nvars`, none when there is no lead time. */
  function Consumed(lay: Layout): nat {
    if lay.tdef <= 0 then 0 else lay.tdef * |lay.codes|
  }

  /**
   * Only the first `tdef * nvars` records are read: two files that agree on
   * them read the same, whatever follows.
   */
  lemma ReadFileConsumes(f: FieldFile, g: FieldFile, lay: Layout)
    requires Consumed(lay) <= |f| && Consumed(lay) <= |g|
    requires f[..Consumed(lay)] == g[..Consumed(lay)]
    ensures ReadFile(f, lay) == ReadFile(g, lay)
  {
    var n := |lay.codes|;
    forall t, i | 0 <= t < lay.tdef && 0 <= i < n
      ensures FailureAt(f, lay, t, i) == FailureAt(g, lay, t, i) && GridAt(f, lay, t, i) == GridAt(g, lay, t, i)
    {
      IndexBelow(t, i, lay.tdef, n);
      assert f[t * n + i] == f[..Consumed(lay)][t * n + i];
      assert g[t * n + i] == g[..Consumed(lay)][t * n + i];
    }
    FirstFailureSame(f, g, lay, 0, 0);
    forall t | 0 <= t < lay.tdef ensures VarsAt(map[], f, lay, t, n) == VarsAt(map[], g, lay, t, n) {
      VarsAtSame(f, g, lay, t, n);
    }
    if ReadFile(f, lay).Ok? {
      assert ReadFile(f, lay).value == ReadFile(g, lay).value;
    }
  }

  /** The message printed for a field file that cannot be opened. */
  function MissingMessage(path: string): string {
    "Arquivo " + path + " n\U{e3}o existe!"
  }

  /** The messages for the names, in order, whose file is missing. */
  function MissingLog(dir: string, names: seq<string>): seq<string> {
    seq(|names|, k requires 0 <= k < |names| => MissingMessage(Join(dir, names[k])))
  }

  lemma MissingLogSnoc(dir: string, names: seq<string>, n: string)
    ensures MissingLog(dir, names + [n]) == MissingLog(dir, names) + [MissingMessage(Join(dir, n))]
  {
    assert forall k :: 0 <= k < |names| ==> (names + [n])[k] == names[k];
  }

  /** Reading `f` ends early and the handler of the missing file catches that, so `f` is reported and skipped. */
  predicate Skipped(f: FieldFile, lay: Layout) {
    lay.eofCaught && ReadFile(f, lay).Err? && ReadFile(f, lay).error.ShortFile?
  }

  /** The files of the directory a visit does not report and skip: those found and not skipped. */
  function Retained(fs: map<string, FieldFile>, lay: Layout): map<string, FieldFile> {
    map p | p in fs && !Skipped(fs[p], lay) :: fs[p]
  }

  /** What a call makes of the field files once the configuration is accepted: the registry or the error, and the messages printed. */
  datatype Outcome = Outcome(result: Result<Dict<seq<Snapshot>>, FieldError>, log: seq<string>)

  /**
   * Visiting `names` in order: missing files, and files skipped as ending
   * early, are reported and skipped; the first other file that fails to read
   * ends the visit.
   */
  function CollectFields(fs: map<string, FieldFile>, dir: string, names: seq<string>, lay: Layout): (out: Outcome)
    ensures out.result.Ok? ==> WellFormed(out.result.value)
    decreases |names|
  {
    if names == [] then Outcome(Ok(EmptyDict()), [])
    else
      var prev := CollectFields(fs, dir, names[..|names| - 1], lay);
      var path := Join(dir, names[|names| - 1]);
      if prev.result.Err? then prev
      else if path !in fs || Skipped(fs[path], lay) then Outcome(prev.result, prev.log + [MissingMessage(path)])
      else match ReadFile(fs[path], lay)
        case Err(e) => Outcome(Err(InFile(path, e)), prev.log)
        case Ok(steps) => Outcome(Ok(Insert(prev.result.value, Basename(path), steps)), prev.log)
  }

  /** A skipped file is handled exactly as if it were missing from the directory. */
  lemma {:induction false} SkippedAsMissing(fs: map<string, FieldFile>, dir: string, names: seq<string>, lay: Layout, p: string)
    requires p in fs && Skipped(fs[p], lay)
    ensures CollectFields(fs, dir, names, lay) == CollectFields(fs - {p}, dir, names, lay)
    decreases |names|
  {
    if names != [] {
      SkippedAsMissing(fs, dir, names[..|names| - 1], lay, p);
    }
  }

  /**
   * A file that ends early is reported and skipped when the reader's
   * end-of-file error is caught, and ends the visit with that error otherwise.
   */
  lemma ShortFileOutcome(fs: map<string, FieldFile>, dir: string, name: string, lay: Layout)
    requires Join(dir, name) in fs
    requires ReadFile(fs[Join(dir, name)], lay).Err? && ReadFile(fs[Join(dir, name)], lay).error.ShortFile?
    ensures lay.eofCaught ==>
      CollectFields(fs, dir, [name], lay) == Outcome(Ok(EmptyDict()), [MissingMessage(Join(dir, name))])
    ensures !lay.eofCaught ==>
      CollectFields(fs, dir, [name], lay) == Outcome(Err(InFile(Join(dir, name), ReadFile(fs[Join(dir, name)], lay).error)), [])
  {
    assert [name][..0] == [];
  }

  /** Once a file has failed, later names change nothing. */
  lemma {:induction false} CollectFieldsStops(fs: map<string, FieldFile>, dir: string, names: seq<string>, lay: Layout, n: nat)
    requires n <= |names| && CollectFields(fs, dir, names[..n], lay).result.Err?
    ensures CollectFields(fs, dir, names, lay) == CollectFields(fs, dir, names[..n], lay)
    decreases |names|
  {
    if n < |names| {
      var init := names[..|names| - 1];
      assert init[..n] == names[..n];
      CollectFieldsStops(fs, dir, init, lay, n);
    } else {
      assert names[..n] == names;
    }
  }

  /** The files of the directory that read without error, as their snapshots. */
  function Readable(fs: map<string, FieldFile>, lay: Layout): map<string, seq<Snapshot>> {
    map p | p in fs && ReadFile(fs[p], lay).Ok? :: ReadFile(fs[p], lay).value
  }

  /** Every file found among `names` reads without error or is skipped. */
  predicate ReadsAll(fs: map<string, FieldFile>, dir: string, names: seq<string>, lay: Layout) {
    forall k :: 0 <= k < |names| && Join(dir, names[k]) in fs ==>
      ReadFile(fs[Join(dir, names[k])], lay).Ok? || Skipped(fs[Join(dir, names[k])], lay)
  }

  /** Name `k` is the first, in visiting order, whose file is found, does not read and is not skipped. */
  predicate FirstBadFile(fs: map<string, FieldFile>, dir: string, names: seq<string>, lay: Layout, k: int) {
    0 <= k < |names| && Join(dir, names[k]) in fs && ReadFile(fs[Join(dir, names[k])], lay).Err? &&
    !Skipped(fs[Join(dir, names[k])], lay) && ReadsAll(fs, dir, names[..k], lay)
  }

  /** The visit succeeds exactly when every file found reads without error or is skipped. */
  lemma {:induction false} CollectFieldsOk(fs: map<string, FieldFile>, dir: string, names: seq<string>, lay: Layout)
    ensures CollectFields(fs, dir, names, lay).result.Ok? <==> ReadsAll(fs, dir, names, lay)
    decreases |names|
  {
    if names != [] {
      var init := names[..|names| - 1];
      CollectFieldsOk(fs, dir, init, lay);
      assert forall j :: 0 <= j < |init| ==> names[j] == init[j];
    }
  }

  /**
   * A successful visit builds the same registry as the table ingestion would
   * over the decoded files, and reports each missing or skipped file in
   * visiting order.
   */
  lemma {:induction false} CollectFieldsRegistry(fs: map<string, FieldFile>, dir: string, names: seq<string>, lay: Layout)
    requires CollectFields(fs, dir, names, lay).result.Ok?
    ensures CollectFields(fs, dir, names, lay).result.value == Collected(Readable(fs, lay), dir, names)
    ensures CollectFields(fs, dir, names, lay).log == MissingLog(dir, Absent(Retained(fs, lay), dir, names))
    decreases |names|
  {
    if names != [] {
      var init, n := names[..|names| - 1], names[|names| - 1];
      var path, prev := Join(dir, n), CollectFields(fs, dir, init, lay);
      assert prev.result.Ok?;
      CollectFieldsRegistry(fs, dir, init, lay);
      var kept := Retained(fs, lay);
      if path in kept {
        assert ReadFile(fs[path], lay).Ok?;
        assert path in Readable(fs, lay) && Readable(fs, lay)[path] == ReadFile(fs[path], lay).value;
        assert Absent(kept, dir, names) == Absent(kept, dir, init);
      } else {
        assert path !in Readable(fs, lay);
        assert Absent(kept, dir, names) == Absent(kept, dir, init) + [n];
        MissingLogSnoc(dir, Absent(kept, dir, init), n);
      }
    }
  }

  /** A failed visit fails with the first file, in visiting order, that does not read and is not skipped. */
  lemma {:induction false} CollectFieldsFailure(fs: map<string, FieldFile>, dir: string, names: seq<string>, lay: Layout)
    requires CollectFields(fs, dir, names, lay).result.Err?
    ensures exists k ::
      FirstBadFile(fs, dir, names, lay, k) &&
      CollectFields(fs, dir, names, lay).result.error
        == InFile(Join(dir, names[k]), ReadFile(fs[Join(dir, names[k])], lay).error)
    decreases |names|
  {
    var init := names[..|names| - 1];
    var prev := CollectFields(fs, dir, init, lay);
    if prev.result.Err? {
      CollectFieldsFailure(fs, dir, init, lay);
      var k :| FirstBadFile(fs, dir, init, lay, k) &&
        prev.result.error == InFile(Join(dir, init[k]), ReadFile(fs[Join(dir, init[k])], lay).error);
      assert init[..k] == names[..k];
      assert FirstBadFile(fs, dir, names, lay, k);
    } else {
      CollectFieldsOk(fs, dir, init, lay);
      assert init == names[..|names| - 1];
      assert FirstBadFile(fs, dir, names, lay, |names| - 1);
    }
  }

  /** Visits `names` in order, filling the registry in place and printing a message for each missing or skipped file. */
  method IngestFields(fs: map<string, FieldFile>, dir: string, names: seq<string>, lay: Layout)
    returns (result: Result<Store<seq<Snapshot>>, FieldError>, log: seq<string>)
    ensures var out := CollectFields(fs, dir, names, lay);
      log == out.log && result.Ok? == out.result.Ok? &&
      (result.Ok? ==> fresh(result.value) && result.value.Contents() == out.result.value) &&
      (result.Err? ==> result.error == out.result.error)
  {
    var store := new Store<seq<Snapshot>>();
    log := [];
    for n := 0 to |names|
      invariant CollectFields(fs, dir, names[..n], lay) == Outcome(Ok(store.Contents()), log)
      invariant fresh(store)
    {
      assert names[..n + 1][..n] == names[..n];
      var path := Join(dir, names[n]);
      if path !in fs {
        log := log + [MissingMessage(path)];
      } else {
        var steps := ReadFieldFile(fs[path], lay);
        if steps.Err? && steps.error.ShortFile? && lay.eofCaught {
          log := log + [MissingMessage(path)];
        } else if steps.Err? {
          result := Err(InFile(path, steps.error));
          CollectFieldsStops(fs, dir, names, lay, n + 1);
          return;
        } else {
          store.Put(Basename(path), steps.value);
        }
      }
    }
    assert names[..|names|] == names;
    result := Ok(store);
  }

  /** `[i[0] for i in data_vars.values()]`: the code of every variable, or the first entry without one. */
  function CodesOf(vars: seq<seq<string>>): (r: Result<seq<string>, FieldError>)
    ensures r.Ok? <==> forall k :: 0 <= k < |vars| ==> |vars[k]| > 0
    ensures r.Ok? ==> |r.value| == |vars| && forall k :: 0 <= k < |vars| ==> r.value[k] == vars[k][0]
    ensures r.Err? ==>
      r.error.EmptyVariable? && r.error.index < |vars| && |vars[r.error.index]| == 0 &&
      forall j :: 0 <= j < r.error.index ==> |vars[j]| > 0
    decreases |vars|
  {
    if vars == [] then Ok([])
    else
      var prev := CodesOf(vars[..|vars| - 1]);
      if prev.Err? then prev
      else if |vars[|vars| - 1]| == 0 then Err(EmptyVariable(|vars| - 1))
      else Ok(prev.value + [vars[|vars| - 1][0]])
  }

  /** The loop that collects the variable codes. */
  method VariableCodes(vars: seq<seq<string>>) returns (r: Result<seq<string>, FieldError>)
    ensures r == CodesOf(vars)
  {
    var codes := [];
    for k := 0 to |vars|
      invariant CodesOf(vars[..k]) == Ok(codes)
    {
      assert vars[..k + 1][..k] == vars[..k];
      if |vars[k]| == 0 {
        CodesStop(vars, k + 1);
        return Err(EmptyVariable(k));
      }
      codes := codes + [vars[k][0]];
    }
    assert vars[..|vars|] == vars;
    r := Ok(codes);
  }

  lemma {:induction false} CodesStop(vars: seq<seq<string>>, n: nat)
    requires n <= |vars| && CodesOf(vars[..n]).Err?
    ensures CodesOf(vars) == CodesOf(vars[..n])
    decreases |vars|
  {
    if n < |vars| {
      var init := vars[..|vars| - 1];
      assert init[..n] == vars[..n];
      CodesStop(init, n);
    } else {
      assert vars[..n] == vars;
    }
  }

  /** The layout every file of a call is read with, once the configuration and the variables are accepted. */
  function LayoutOf(c: Config, dims: Dims, codes: seq<string>, eofCaught: bool): Layout
    requires c.forecastStep > 0
  {
    Layout(dims.xdef, dims.ydef, dims.tdef, codes, DateRange(c.start, c.end, c.forecastStep), eofCaught)
  }

  /**
   * `get_dataset(data_conf, data_vars, stats, exps, outDir, series=, tExt=, save=)`.
   * The directory searched is the configuration's output directory: the
   * `outDir` argument is overwritten before use. The stamps are those of the
   * evaluation period at the forecast step. `eofCaught` says whether a file
   * that ends early is caught as a missing one.
   */
  method GetDataset(g: Globals, c: Config, dataVars: seq<seq<string>>, stats: seq<string>, exps: seq<string>,
                    outDir: string, fs: map<string, FieldFile>, fmt: Hour -> string,
                    seriesArg: Option<bool>, extArg: Option<string>, saveArg: Option<bool>, eofCaught: bool)
    returns (result: Result<Store<seq<Snapshot>>, FieldError>, log: seq<string>, dump: Option<string>)
    requires c.forecastStep > 0
    modifies g
    ensures g.tExt == Choose(extArg, old(g.tExt)) && g.series == old(g.series) && g.save == old(g.save)
    ensures ResolveDims(c).Err? ==> result == Err(BadConfig(ResolveDims(c).error)) && log == [] && dump == None
    ensures ResolveDims(c).Ok? && CodesOf(dataVars).Err? ==> result == Err(CodesOf(dataVars).error) && log == [] && dump == None
    ensures ResolveDims(c).Ok? && CodesOf(dataVars).Ok? ==>
      var series, save := Choose(seriesArg, old(g.series)), Choose(saveArg, old(g.save));
      var names := PlannedNames(series, Scheme(Field, Choose(extArg, old(g.tExt)), fmt), stats, exps, c.start, c.end);
      var out := CollectFields(fs, c.outputDir, names, LayoutOf(c, ResolveDims(c).value, CodesOf(dataVars).value, eofCaught));
      log == out.log && result.Ok? == out.result.Ok? &&
      (result.Ok? ==>
        fresh(result.value) && result.value.Contents() == out.result.value &&
        dump == if save then Some(Join(c.outputDir, CacheName(Field, series))) else None) &&
      (result.Err? ==> result.error == out.result.error && dump == None)
  {
    var opts := g.Resolve(seriesArg, extArg, saveArg);
    log, dump := [], None;
    var dims := ResolveDims(c);
    if dims.Err? {
      return Err(BadConfig(dims.error)), log, dump;
    }
    var dir := c.outputDir;
    var codes := VariableCodes(dataVars);
    if codes.Err? {
      return Err(codes.error), log, dump;
    }
    var names := FileNames(opts.series, Scheme(Field, opts.ext, fmt), stats, exps, c.start, c.end);
    result, log := IngestFields(fs, dir, names, LayoutOf(c, dims.value, codes.value, eofCaught));
    if result.Ok? && opts.save {
      dump := Some(Join(dir, CacheName(Field, opts.series)));
    }
  }

  /**
   * With plain names, a successful call stores each field file found and not
   * skipped under the name it was looked up under, as the snapshots it reads to.
   */
  lemma FieldEntries(fs: map<string, FieldFile>, dir: string, names: seq<string>, lay: Layout)
    requires AllPlain(names)
    requires CollectFields(fs, dir, names, lay).result.Ok?
    ensures forall n :: n in names && Join(dir, n) in fs ==>
      ReadFile(fs[Join(dir, n)], lay).Ok? || Skipped(fs[Join(dir, n)], lay)
    ensures CollectFields(fs, dir, names, lay).result.value.entries
      == map n | n in names && Join(dir, n) in fs && ReadFile(fs[Join(dir, n)], lay).Ok? :: ReadFile(fs[Join(dir, n)], lay).value
  {
    CollectFieldsOk(fs, dir, names, lay);
    CollectFieldsRegistry(fs, dir, names, lay);
    CollectedEntries(Readable(fs, lay), dir, names);
  }
}
