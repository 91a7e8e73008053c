/**
 * How the plotting functions take registry keys apart again and name their
 * figures: fixed-position slices of the key, the column looked up for a
 * variable, the tables selected for a statistic, and the figure file names
 * built by string replacement.
 */
module Keys {
  import opened Wrappers
  import opened Geometry
  import opened PyStr
  import opened Options
  import opened Naming

  /** `table[0:4]`: the statistic a key starts with. */
  function StatisticOf(key: string): string {
    Slice(key, 0, 4)
  }

  /** `table.split('_')[0][4:]`: the experiment label of a table in a legend. */
  function ExperimentLabel(key: string): string {
    var head := Head(key, "_");
    Slice(head, 4, |head|)
  }

  /** The dates and everything after the first `_` of a name built by the ingestion. */
  function Tail(sc: Scheme, d1: Hour, d2: Hour): string {
    sc.fmt(d1) + sc.fmt(d2) + [Letter(sc.kind), '.'] + sc.ext
  }

  lemma FileNameShape(sc: Scheme, stat: string, exp: string, d1: Hour, d2: Hour)
    ensures FileName(sc, stat, exp, d1, d2) == (stat + exp) + ['_'] + Tail(sc, d1, d2)
  {
  }

  /** A table key built from a four-character statistic gives back its statistic and its experiment. */
  lemma TableKeyParts(sc: Scheme, stat: string, exp: string, d1: Hour, d2: Hour)
    requires |stat| == 4 && '_' !in stat && '_' !in exp
    ensures StatisticOf(FileName(sc, stat, exp, d1, d2)) == stat
    ensures ExperimentLabel(FileName(sc, stat, exp, d1, d2)) == exp
  {
    FileNameShape(sc, stat, exp, d1, d2);
    SplitAtChar(stat + exp, '_', Tail(sc, d1, d2));
    assert (stat + exp)[4..] == exp;
  }

  /** The legend loop: one label per selected table, in order. */
  method LegendNames(tables: seq<string>) returns (enames: seq<string>)
    ensures |enames| == |tables|
    ensures forall k :: 0 <= k < |tables| ==> enames[k] == ExperimentLabel(tables[k])
  {
    enames := [];
    for k := 0 to |tables|
      invariant |enames| == k
      invariant forall j :: 0 <= j < k ==> enames[j] == ExperimentLabel(tables[j])
    {
      enames := enames + [ExperimentLabel(tables[k])];
    }
  }

  /** For the tables of one statistic, one per experiment, the legend lists the experiments. */
  lemma LegendOfStatistic(sc: Scheme, stat: string, exps: seq<string>, d1: Hour, d2: Hour)
    requires |stat| == 4 && '_' !in stat && forall j :: 0 <= j < |exps| ==> '_' !in exps[j]
    ensures forall j :: 0 <= j < |exps| ==> ExperimentLabel(StatNames(sc, stat, exps, d1, d2)[j]) == exps[j]
  {
    forall j | 0 <= j < |exps| ensures ExperimentLabel(StatNames(sc, stat, exps, d1, d2)[j]) == exps[j] {
      TableKeyParts(sc, stat, exps[j], d1, d2);
    }
  }

  /** The four parts `plot_fields` reads off a field key. */
  datatype FieldKeyParts = FieldKeyParts(stat: string, exp: string, start: string, end: string)

  /**
   * `file.split('_')`, then `[0][0:4]`, `[0][4:8]`, and `[1].split('F.scan')[0]`
   * sliced `[0:10]` and `[10:20]`; None where a key without `_` makes `[1]` raise.
   */
  function SplitFieldKey(key: string): Option<FieldKeyParts> {
    match Second(key, "_")
    case None => None
    case Some(seg) =>
      var p1 := Head(key, "_");
      var p2 := Head(seg, "F.scan");
      Some(FieldKeyParts(Slice(p1, 0, 4), Slice(p1, 4, 8), Slice(p2, 0, 10), Slice(p2, 10, 20)))
  }

  lemma StampDigits(fmt: Hour -> string, d1: Hour, d2: Hour)
    requires IsStampFormat(fmt)
    ensures |fmt(d1) + fmt(d2)| == 20
    ensures forall k :: 0 <= k < 20 ==> IsDigit((fmt(d1) + fmt(d2))[k])
  {
    assert |fmt(d1)| == 10 && forall k :: 0 <= k < 10 ==> IsDigit(fmt(d1)[k]);
    assert |fmt(d2)| == 10 && forall k :: 0 <= k < 10 ==> IsDigit(fmt(d2)[k]);
  }

  /**
   * A field key built from a four-character statistic and experiment splits
   * back into them and the two dates, whatever the extension: the split on
   * `F.scan` cannot cut into the digits of the dates.
   */
  lemma FieldKeyRoundTrip(ext: string, fmt: Hour -> string, stat: string, exp: string, d1: Hour, d2: Hour)
    requires |stat| == 4 && |exp| == 4 && '_' !in stat && '_' !in exp && IsStampFormat(fmt)
    ensures SplitFieldKey(FileName(Scheme(Field, ext, fmt), stat, exp, d1, d2))
      == Some(FieldKeyParts(stat, exp, fmt(d1), fmt(d2)))
  {
    var sc := Scheme(Field, ext, fmt);
    var key := FileName(sc, stat, exp, d1, d2);
    var rest := Tail(sc, d1, d2);
    assert Second(key, "_") == Some(Head(rest, "_")) && Head(key, "_") == stat + exp by {
      FileNameShape(sc, stat, exp, d1, d2);
      SplitAtChar(stat + exp, '_', rest);
    }
    var p2 := Head(Head(rest, "_"), "F.scan");
    assert 20 <= |p2| && p2[..20] == fmt(d1) + fmt(d2) by {
      StampDigits(fmt, d1, d2);
      DigitsSurviveSplits(rest, fmt(d1) + fmt(d2));
    }
    SplitFieldKeyOf(key, stat + exp, Head(rest, "_"));
    assert p2[0..10] == fmt(d1) && p2[10..20] == fmt(d2);
    assert (stat + exp)[0..4] == stat && (stat + exp)[4..8] == exp;
  }

  /** The parts of a key that has a `_`, in terms of the text before it and the segment after it. */
  lemma SplitFieldKeyOf(key: string, head: string, seg: string)
    requires Second(key, "_") == Some(seg) && Head(key, "_") == head
    ensures SplitFieldKey(key) == Some(FieldKeyParts(Slice(head, 0, 4), Slice(head, 4, 8),
      Slice(Head(seg, "F.scan"), 0, 10), Slice(Head(seg, "F.scan"), 10, 20)))
  {
  }

  /** A string starting with digits keeps them through the split at `_` and then at `F.scan`. */
  lemma DigitsSurviveSplits(rest: string, digits: string)
    requires |digits| <= |rest| && rest[..|digits|] == digits
    requires forall k :: 0 <= k < |digits| ==> IsDigit(digits[k])
    ensures var p2 := Head(Head(rest, "_"), "F.scan");
      |digits| <= |p2| && p2[..|digits|] == digits
  {
    var n := |digits|;
    forall p | 0 <= p < n ensures !OccursAt(rest, "_", p) {
      assert rest[p..p + 1] == [rest[p]];
    }
    HeadKeepsPrefix(rest, "_", n);
    var seg := Head(rest, "_");
    forall p | 0 <= p < n ensures !OccursAt(seg, "F.scan", p) {
      if p + 6 <= |seg| {
        assert seg[p..p + 6][0] == seg[p] == rest[p];
      }
    }
    HeadKeepsPrefix(seg, "F.scan", n);
  }

  /** Figure name of a field map: `stat + '_' + exp + '_' + var + '-' + ftime + '.png'`. */
  function FieldFigureName(key: string, code: string, ftime: string): Option<string> {
    match SplitFieldKey(key)
    case None => None
    case Some(parts) => Some(parts.stat + "_" + parts.exp + "_" + code + "-" + ftime + ".png")
  }

  /** The figure of a field map names the statistic and experiment of its key, then the variable and time. */
  lemma FieldFigureOfKey(ext: string, fmt: Hour -> string, stat: string, exp: string, d1: Hour, d2: Hour,
                         code: string, ftime: string)
    requires |stat| == 4 && |exp| == 4 && '_' !in stat && '_' !in exp && IsStampFormat(fmt)
    ensures FieldFigureName(FileName(Scheme(Field, ext, fmt), stat, exp, d1, d2), code, ftime)
      == Some(stat + "_" + exp + "_" + code + "-" + ftime + ".png")
  {
    FieldKeyRoundTrip(ext, fmt, stat, exp, d1, d2);
  }

  /** `range(len(time) - 1)`: the lead times `plot_fields` draws. */
  function PlottedSteps(n: nat): seq<nat> {
    if n == 0 then [] else seq(n - 1, t requires 0 <= t < n - 1 => t)
  }

  /** Every lead time but the last is drawn; a single lead time draws nothing. */
  lemma PlottedStepsMissLast(n: nat)
    ensures forall t: nat :: t in PlottedSteps(n) <==> t + 1 < n
    ensures n > 0 ==> n - 1 !in PlottedSteps(n)
  {
    var r := PlottedSteps(n);
    forall t: nat ensures t in r <==> t + 1 < n {
      if t + 1 < n {
        assert r[t] == t;
      }
    }
  }

  /**
   * Lines 1123-1170 for one dataset: for each drawn lead time and each
   * variable, the name of the saved figure; `stamps` are the formatted times
   * of the lead times. None where the first split raises IndexError.
   */
  method FieldFigures(key: string, stamps: seq<string>, codes: seq<string>) returns (names: Option<seq<seq<string>>>)
    ensures names.None? <==> |stamps| > 1 && |codes| > 0 && SplitFieldKey(key).None?
    ensures names.Some? ==> |names.value| == |PlottedSteps(|stamps|)|
    ensures names.Some? ==> FigureRows(key, codes, stamps, names.value)
  {
    var rows: seq<seq<string>> := [];
    var ntime := |stamps| - 1;
    var t := 0;
    while t < ntime
      invariant 0 <= t <= if ntime < 0 then 0 else ntime
      invariant |rows| == t
      invariant t > 0 && |codes| > 0 ==> SplitFieldKey(key).Some?
      invariant FigureRows(key, codes, stamps, rows)
    {
      var row := FigureRowAt(key, codes, stamps[t]);
      if row.None? {
        return None;
      }
      FigureRowsSnoc(key, codes, stamps, rows, row.value);
      rows := rows + [row.value];
      t := t + 1;
    }
    assert |PlottedSteps(|stamps|)| == t;
    return Some(rows);
  }

  /** The inner loop of one lead time: every variable's figure name, or None where the key's split raises. */
  method FigureRowAt(key: string, codes: seq<string>, stamp: string) returns (row: Option<seq<string>>)
    ensures row.None? <==> |codes| > 0 && SplitFieldKey(key).None?
    ensures row.Some? ==> FigureRow(key, codes, stamp, row.value)
  {
    var names: seq<string> := [];
    for v := 0 to |codes|
      invariant |names| == v
      invariant v > 0 ==> SplitFieldKey(key).Some?
      invariant forall w :: 0 <= w < v ==> FieldFigureName(key, codes[w], stamp) == Some(names[w])
    {
      var name := FieldFigureName(key, codes[v], stamp);
      if name.None? {
        return None;
      }
      names := names + [name.value];
    }
    return Some(names);
  }

  /** Row `t` of `rows` holds the figure names of lead time `t`, for the first `|rows|` lead times. */
  predicate FigureRows(key: string, codes: seq<string>, stamps: seq<string>, rows: seq<seq<string>>) {
    |rows| <= |stamps| && forall t :: 0 <= t < |rows| ==> FigureRow(key, codes, stamps[t], rows[t])
  }

  lemma FigureRowsSnoc(key: string, codes: seq<string>, stamps: seq<string>, rows: seq<seq<string>>, row: seq<string>)
    requires FigureRows(key, codes, stamps, rows) && |rows| < |stamps| && FigureRow(key, codes, stamps[|rows|], row)
    ensures FigureRows(key, codes, stamps, rows + [row])
  {
    forall t | 0 <= t < |rows| + 1 ensures FigureRow(key, codes, stamps[t], (rows + [row])[t]) {
      if t < |rows| {
        assert (rows + [row])[t] == rows[t];
      }
    }
  }

  /** `row` holds the figure names of every variable at one lead time, in variable order. */
  predicate FigureRow(key: string, codes: seq<string>, stamp: string, row: seq<string>) {
    |row| == |codes| &&
    forall v :: 0 <= v < |codes| ==> FieldFigureName(key, codes[v], stamp) == Some(row[v])
  }

  /** Lines 179-182, 264-275, 613-616: `code.lower()` for current tables, the code as given otherwise. */
  function ColumnKey(code: string, ext: string): string {
    if ext == "scan" then Lower(code) else code
  }

  /**
   * With current tables the column has no upper-case letter, keeps every
   * character of the code that is not a capital, and differs from the code
   * only in case; it is the code whenever the code has no capital. With old
   * tables it is the code itself.
   */
  lemma ColumnKeyCases(code: string, ext: string)
    ensures |ColumnKey(code, ext)| == |code|
    ensures ext == "scan" ==> forall k :: 0 <= k < |code| ==> !IsUpper(ColumnKey(code, ext)[k])
    ensures ext == "scan" ==> forall k :: 0 <= k < |code| && !IsUpper(code[k]) ==> ColumnKey(code, ext)[k] == code[k]
    ensures ext == "scan" ==> Upper(ColumnKey(code, ext)) == Upper(code)
    ensures ext == "scan" ==> ColumnKey(ColumnKey(code, ext), ext) == ColumnKey(code, ext)
    ensures (ext != "scan" || forall k :: 0 <= k < |code| ==> !IsUpper(code[k])) ==> ColumnKey(code, ext) == code
  {
    LowerIdempotent(code);
    CaseRoundTrip(code);
  }

  /** `list(filter(lambda x: stat in x, keys))`: the keys that contain `stat`, in registry order. */
  function TablesFor(stat: string, keys: seq<string>): (r: seq<string>)
    ensures |r| <= |keys|
    decreases |keys|
  {
    if keys == [] then []
    else
      var r := TablesFor(stat, keys[..|keys| - 1]);
      var key := keys[|keys| - 1];
      if Contains(key, stat) then r + [key] else r
  }

  /** The selection holds exactly the keys that contain `stat`. */
  lemma {:induction false} TablesForMembers(stat: string, keys: seq<string>)
    ensures forall k :: k in TablesFor(stat, keys) <==> k in keys && Contains(k, stat)
    decreases |keys|
  {
    if keys != [] {
      var init, key := keys[..|keys| - 1], keys[|keys| - 1];
      TablesForMembers(stat, init);
      assert keys == init + [key];
    }
  }

  /** Selection keeps registry order: it distributes over concatenation. */
  lemma {:induction false} TablesForAppend(stat: string, a: seq<string>, b: seq<string>)
    ensures TablesFor(stat, a + b) == TablesFor(stat, a) + TablesFor(stat, b)
    decreases |b|
  {
    if b == [] {
      assert a + b == a;
    } else {
      var init, last := b[..|b| - 1], b[|b| - 1];
      var ta, ti := TablesFor(stat, a), TablesFor(stat, init);
      var tail := if Contains(last, stat) then [last] else [];
      assert TablesFor(stat, a + init) == ta + ti by {
        TablesForAppend(stat, a, init);
      }
      assert TablesFor(stat, a + b) == TablesFor(stat, a + init) + tail by {
        assert a + b == (a + init) + [last];
        TablesForSnoc(stat, a + init, last);
      }
      assert TablesFor(stat, b) == ti + tail by {
        assert b == init + [last];
        TablesForSnoc(stat, init, last);
      }
      assert (ta + ti) + tail == ta + (ti + tail);
    }
  }

  /** One more key adds itself to the selection when it contains `stat`. */
  lemma TablesForSnoc(stat: string, keys: seq<string>, key: string)
    ensures TablesFor(stat, keys + [key]) == TablesFor(stat, keys) + (if Contains(key, stat) then [key] else [])
  {
    assert (keys + [key])[..|keys|] == keys;
  }

  /** The first selected table is the first key, in registry order, that contains `stat`. */
  lemma {:induction false} TablesForFirst(stat: string, keys: seq<string>)
    requires TablesFor(stat, keys) != []
    ensures exists j ::
        0 <= j < |keys| && keys[j] == TablesFor(stat, keys)[0] && Contains(keys[j], stat) &&
        forall i :: 0 <= i < j ==> !Contains(keys[i], stat)
    decreases |keys|
  {
    var head, rest := [keys[0]], keys[1..];
    assert keys == head + rest;
    TablesForAppend(stat, head, rest);
    assert head[..0] == [];
    if Contains(keys[0], stat) {
      assert TablesFor(stat, keys)[0] == keys[0];
    } else {
      assert TablesFor(stat, keys) == TablesFor(stat, rest);
      TablesForFirst(stat, rest);
      var j :| 0 <= j < |rest| && rest[j] == TablesFor(stat, rest)[0] && Contains(rest[j], stat) &&
        forall i :: 0 <= i < j ==> !Contains(rest[i], stat);
      assert keys[j + 1] == rest[j];
      forall i | 0 <= i < j + 1 ensures !Contains(keys[i], stat) {
        if i > 0 {
          assert keys[i] == rest[i - 1];
        }
      }
    }
  }

  /** The variable code as it appears in a figure name: `:` dropped for current tables, `-` for old ones. */
  function CodeInName(code: string, ext: string): string {
    ReplaceAll(code, [if ext == "scan" then ':' else '-'], "")
  }

  /** Lines 297-300: the key with `'T.' + tExt` removed, `_`, the code, `.png`. */
  function LineFigureName(key: string, code: string, ext: string): string {
    ReplaceAll(key, "T." + ext, "") + "_" + CodeInName(code, ext) + ".png"
  }

  /** Neither `_` nor `.` occurs in a name part. */
  predicate Part(s: string) {
    '_' !in s && '.' !in s
  }

  /** What precedes `T.` in a table key carries no `.` and ends in a digit, so `T.` + tExt occurs only at the end. */
  lemma SuffixOnlyAtEnd(base: string, ext: string)
    requires |base| > 0 && '.' !in base && IsDigit(base[|base| - 1])
    ensures forall p :: 0 <= p < |base| ==> !OccursAt(base + ("T." + ext), "T." + ext, p)
  {
    var pat := "T." + ext;
    var s := base + pat;
    assert pat[0] == 'T' && pat[1] == '.';
    forall p | 0 <= p < |base| ensures !OccursAt(s, pat, p) {
      var w := s[p..p + |pat|];
      if p + 1 < |base| {
        assert w[1] == base[p + 1];
      } else {
        assert w[0] == base[p];
      }
    }
  }

  lemma StampBase(fmt: Hour -> string, prefix: string, d1: Hour, d2: Hour)
    requires IsStampFormat(fmt) && '.' !in prefix
    ensures var base := prefix + fmt(d1) + fmt(d2);
      |base| > 0 && '.' !in base && IsDigit(base[|base| - 1])
  {
    StampDigits(fmt, d1, d2);
    var dates := fmt(d1) + fmt(d2);
    assert prefix + fmt(d1) + fmt(d2) == prefix + dates;
    forall k | 0 <= k < 20 ensures dates[k] != '.' {
      assert IsDigit(dates[k]);
    }
  }

  /**
   * The figure of one table and variable is named after the table without its
   * extension, then the variable code without `:` (current tables) or `-`
   * (old tables).
   */
  lemma LineFigureOfTable(ext: string, fmt: Hour -> string, stat: string, exp: string, d1: Hour, d2: Hour, code: string)
    requires '.' !in stat && '.' !in exp && IsStampFormat(fmt)
    ensures LineFigureName(FileName(Scheme(Table, ext, fmt), stat, exp, d1, d2), code, ext)
      == stat + exp + "_" + fmt(d1) + fmt(d2) + "_" + CodeInName(code, ext) + ".png"
    ensures (if ext == "scan" then ':' else '-') !in CodeInName(code, ext)
  {
    var base := stat + exp + "_" + fmt(d1) + fmt(d2);
    StampBase(fmt, stat + exp + "_", d1, d2);
    SuffixOnlyAtEnd(base, ext);
    ReplaceSuffix(base, "T." + ext, "");
    assert FileName(Scheme(Table, ext, fmt), stat, exp, d1, d2) == base + ("T." + ext);
    assert base + "" == base;
    RemoveChar(code, if ext == "scan" then ':' else '-');
  }

  /** Lines 230-232 as written: every occurrence of the key's experiment segment becomes `EXPS`. */
  function CombinedFigureName(key: string, code: string, ext: string): string {
    ReplaceAll(ReplaceAll(key, Slice(key, 4, Find(key, "_")), "EXPS"), "T." + ext, "") + CodeInName(code, ext) + "-combined.png"
  }

  /** The name the combined figure is meant to have: the segment between the statistic and the first `_` becomes `EXPS`. */
  function CombinedFigureNameFixed(key: string, code: string, ext: string): string {
    var cut := Find(key, "_");
    var rest := if cut == -1 then "" else key[cut..];
    ReplaceAll(Slice(key, 0, 4) + "EXPS" + rest, "T." + ext, "") + CodeInName(code, ext) + "-combined.png"
  }

  /** The combined figure of a table key is named after its statistic, `EXPS` and its dates, whatever the experiment is called. */
  lemma CombinedFigureFixedOfTable(ext: string, fmt: Hour -> string, stat: string, exp: string, d1: Hour, d2: Hour, code: string)
    requires |stat| == 4 && Part(stat) && Part(exp) && IsStampFormat(fmt)
    ensures CombinedFigureNameFixed(FileName(Scheme(Table, ext, fmt), stat, exp, d1, d2), code, ext)
      == stat + "EXPS_" + fmt(d1) + fmt(d2) + CodeInName(code, ext) + "-combined.png"
  {
    var sc := Scheme(Table, ext, fmt);
    var key := FileName(sc, stat, exp, d1, d2);
    FileNameShape(sc, stat, exp, d1, d2);
    SplitAtChar(stat + exp, '_', Tail(sc, d1, d2));
    var base := stat + "EXPS_" + fmt(d1) + fmt(d2);
    assert key[0..4] == stat;
    assert key[|stat + exp|..] == "_" + fmt(d1) + fmt(d2) + "T." + ext;
    assert stat + "EXPS" + key[|stat + exp|..] == base + ("T." + ext);
    StampBase(fmt, stat + "EXPS_", d1, d2);
    SuffixOnlyAtEnd(base, ext);
    ReplaceSuffix(base, "T." + ext, "");
    assert base + "" == base;
  }

  /** As written, the same name results when the experiment occurs nowhere else in the key. */
  lemma CombinedFigureOfTable(ext: string, fmt: Hour -> string, stat: string, exp: string, d1: Hour, d2: Hour, code: string)
    requires |stat| == 4 && |exp| > 0 && Part(stat) && Part(exp) && IsStampFormat(fmt)
    requires forall p :: OccursAt(FileName(Scheme(Table, ext, fmt), stat, exp, d1, d2), exp, p) ==> p == 4
    ensures CombinedFigureName(FileName(Scheme(Table, ext, fmt), stat, exp, d1, d2), code, ext)
      == CombinedFigureNameFixed(FileName(Scheme(Table, ext, fmt), stat, exp, d1, d2), code, ext)
  {
    var sc := Scheme(Table, ext, fmt);
    var key := FileName(sc, stat, exp, d1, d2);
    FileNameShape(sc, stat, exp, d1, d2);
    SplitAtChar(stat + exp, '_', Tail(sc, d1, d2));
    assert Slice(key, 4, Find(key, "_")) == exp;
    assert key[4..4 + |exp|] == exp;
    ReplaceOnce(key, exp, "EXPS", 4);
    assert key[..4] == Slice(key, 0, 4);
    assert key[4 + |exp|..] == key[Find(key, "_")..];
  }

  /** As written, the year is replaced in the experiment and again where the dates start. */
  lemma YearReplacedTwice(stat: string, y: string, rest: string, ext: string)
    requires |y| == 4 && IsDigit(y[0]) && y[0] !in stat && 'T' !in stat
    ensures ReplaceAll(ReplaceAll(stat + (y + ("_" + (y + rest))), y, "EXPS"), "T." + ext, "")
      == stat + ("EXPS" + ("_" + ("EXPS" + ReplaceAll(ReplaceAll(rest, y, "EXPS"), "T." + ext, ""))))
  {
    var e, pat := "EXPS", "T." + ext;
    ReplaceFront(y, rest, e);
    ReplaceFreePrefix("_", y + rest, y, e);
    ReplaceFront(y, "_" + (y + rest), e);
    ReplaceFreePrefix(stat, y + ("_" + (y + rest)), y, e);
    var r := ReplaceAll(rest, y, e);
    ReplaceFreePrefix(e, r, pat, "");
    ReplaceFreePrefix("_", e + r, pat, "");
    ReplaceFreePrefix(e, "_" + (e + r), pat, "");
    ReplaceFreePrefix(stat, e + ("_" + (e + r)), pat, "");
  }

  /** The intended name keeps the year where the dates start. */
  lemma YearKept(stat: string, y: string, rest: string, ext: string)
    requires |y| > 0 && IsDigit(y[0]) && 'T' !in stat + y
    ensures ReplaceAll((stat + "EXPS") + ("_" + (y + rest)), "T." + ext, "")
      == (stat + "EXPS") + ("_" + (y + ReplaceAll(rest, "T." + ext, "")))
  {
    var pat := "T." + ext;
    assert 'T' !in stat + "EXPS";
    ReplaceFreePrefix(y, rest, pat, "");
    ReplaceFreePrefix("_", y + rest, pat, "");
    ReplaceFreePrefix(stat + "EXPS", "_" + (y + rest), pat, "");
  }

  /**
   * An experiment named like the year the dates start with: as written, the
   * year at the start of the dates becomes `EXPS` too, so the figure name
   * differs from the intended one.
   */
  lemma CombinedFigureYearClash(stat: string, y: string, rest: string, ext: string, code: string)
    requires |stat| == 4 && |y| == 4 && IsDigit(y[0]) && y[0] !in stat && '_' !in stat + y && 'T' !in stat + y
    ensures CombinedFigureName(stat + (y + ("_" + (y + rest))), code, ext)[9] == 'E'
    ensures CombinedFigureNameFixed(stat + (y + ("_" + (y + rest))), code, ext)[9] == y[0]
    ensures CombinedFigureName(stat + (y + ("_" + (y + rest))), code, ext)
      != CombinedFigureNameFixed(stat + (y + ("_" + (y + rest))), code, ext)
  {
    var key := stat + (y + ("_" + (y + rest)));
    var tail := CodeInName(code, ext) + "-combined.png";
    var r1 := ReplaceAll(ReplaceAll(rest, y, "EXPS"), "T." + ext, "");
    var r2 := ReplaceAll(rest, "T." + ext, "");
    YearClashAsWritten(stat, y, rest, ext, code);
    YearClashIntended(stat, y, rest, ext, code);
    NinthCharacters(stat, y, r1, r2, tail);
  }

  /** Character 9 of the two names: the `E` of the second `EXPS`, and the year's first digit. */
  lemma NinthCharacters(stat: string, y: string, r1: string, r2: string, tail: string)
    requires |stat| == 4 && |y| > 0
    ensures (stat + ("EXPS" + ("_" + ("EXPS" + r1))) + tail)[9] == 'E'
    ensures ((stat + "EXPS") + ("_" + (y + r2)) + tail)[9] == y[0]
  {
  }

  /** The key of the clash splits after the experiment. */
  lemma YearClashKey(stat: string, y: string, rest: string)
    requires |stat| == 4 && |y| == 4 && '_' !in stat + y
    ensures var key := stat + (y + ("_" + (y + rest)));
      Find(key, "_") == 8 && key[..4] == stat && key[4..8] == y && key[8..] == "_" + (y + rest)
  {
    var key := stat + (y + ("_" + (y + rest)));
    assert key == (stat + y) + ['_'] + (y + rest);
    assert Find(key, "_") == 8 by {
      SplitAtChar(stat + y, '_', y + rest);
    }
    assert key[..4] == stat && key[4..8] == y && key[8..] == "_" + (y + rest);
  }

  /** As written, both occurrences of the year become `EXPS`. */
  lemma YearClashAsWritten(stat: string, y: string, rest: string, ext: string, code: string)
    requires |stat| == 4 && |y| == 4 && IsDigit(y[0]) && y[0] !in stat && '_' !in stat + y && 'T' !in stat + y
    ensures CombinedFigureName(stat + (y + ("_" + (y + rest))), code, ext)
      == stat + ("EXPS" + ("_" + ("EXPS" + ReplaceAll(ReplaceAll(rest, y, "EXPS"), "T." + ext, ""))))
        + (CodeInName(code, ext) + "-combined.png")
  {
    var key := stat + (y + ("_" + (y + rest)));
    assert Slice(key, 4, Find(key, "_")) == y by {
      YearClashKey(stat, y, rest);
    }
    CombinedFigureNameOf(key, y, code, ext);
    YearReplacedTwice(stat, y, rest, ext);
  }

  /** As written, the name replaces the experiment segment's text wherever it occurs in the key. */
  lemma CombinedFigureNameOf(key: string, exp: string, code: string, ext: string)
    requires Slice(key, 4, Find(key, "_")) == exp
    ensures CombinedFigureName(key, code, ext)
      == ReplaceAll(ReplaceAll(key, exp, "EXPS"), "T." + ext, "") + (CodeInName(code, ext) + "-combined.png")
  {
    var r := ReplaceAll(ReplaceAll(key, exp, "EXPS"), "T." + ext, "");
    assert r + CodeInName(code, ext) + "-combined.png" == r + (CodeInName(code, ext) + "-combined.png");
  }

  /** As intended, only the experiment segment becomes `EXPS`. */
  lemma YearClashIntended(stat: string, y: string, rest: string, ext: string, code: string)
    requires |stat| == 4 && |y| == 4 && IsDigit(y[0]) && '_' !in stat + y && 'T' !in stat + y
    ensures CombinedFigureNameFixed(stat + (y + ("_" + (y + rest))), code, ext)
      == (stat + "EXPS") + ("_" + (y + ReplaceAll(rest, "T." + ext, ""))) + (CodeInName(code, ext) + "-combined.png")
  {
    var key := stat + (y + ("_" + (y + rest)));
    YearClashKey(stat, y, rest);
    assert Slice(key, 0, 4) + "EXPS" + key[8..] == (stat + "EXPS") + ("_" + (y + rest));
    YearKept(stat, y, rest, ext);
  }

  /**
   * Lines 171-232: the combined figure of a statistic is named after the last
   * of its tables (the loop variable outlives the loop); the intended segment
   * replacement is used. None where the statistic has no table.
   */
  function CombinedFigureFor(stat: string, keys: seq<string>, code: string, ext: string): Option<string> {
    var tables := TablesFor(stat, keys);
    if tables == [] then None else Some(CombinedFigureNameFixed(tables[|tables| - 1], code, ext))
  }

  /**
   * When every key of the statistic is a table of one period, the combined
   * figure is named after the statistic and the period, whichever experiment
   * comes last.
   */
  lemma CombinedFigureOfPeriod(stat: string, keys: seq<string>, code: string, ext: string, fmt: Hour -> string, d1: Hour, d2: Hour)
    requires |stat| == 4 && Part(stat) && IsStampFormat(fmt)
    requires forall k :: k in keys && Contains(k, stat) ==>
      exists e :: Part(e) && k == FileName(Scheme(Table, ext, fmt), stat, e, d1, d2)
    requires exists k :: k in keys && Contains(k, stat)
    ensures CombinedFigureFor(stat, keys, code, ext)
      == Some(stat + "EXPS_" + fmt(d1) + fmt(d2) + CodeInName(code, ext) + "-combined.png")
  {
    var tables := TablesFor(stat, keys);
    assert tables != [] by {
      var k0 :| k0 in keys && Contains(k0, stat);
      TablesForMembers(stat, keys);
      assert k0 in tables;
    }
    var last := tables[|tables| - 1];
    CombinedFigureForLast(stat, keys, code, ext);
    var e :| Part(e) && last == FileName(Scheme(Table, ext, fmt), stat, e, d1, d2);
    CombinedFigureFixedOfTable(ext, fmt, stat, e, d1, d2, code);
  }

  /** A statistic with tables is named after the last of them, which is one of its keys. */
  lemma CombinedFigureForLast(stat: string, keys: seq<string>, code: string, ext: string)
    requires TablesFor(stat, keys) != []
    ensures var tables := TablesFor(stat, keys);
      var last := tables[|tables| - 1];
      last in keys && Contains(last, stat) &&
      CombinedFigureFor(stat, keys, code, ext) == Some(CombinedFigureNameFixed(last, code, ext))
  {
    var tables := TablesFor(stat, keys);
    TablesForMembers(stat, keys);
    assert tables[|tables| - 1] in tables;
  }

  /** Why `plot_scorecard` draws nothing for a statistic. */
  datatype ScorecardError = NotTwoExperiments | NoTableFor(exp: string)

  /** The two tables compared for one statistic and the figure file name. */
  datatype ScorecardFiles = ScorecardFiles(first: string, second: string, figure: string)

  /** Line 693: the dates are read from characters 9-19 and 19-29 of the statistic's first table. */
  function ScorecardFigureName(tstat: string, stat: string, exp1: string, exp2: string, key: string): string {
    "SCORECARD_" + Upper(tstat) + "_" + stat + "_" + exp1 + "_" + exp2 + "_" + Slice(key, 9, 19) + Slice(key, 19, 29) + ".png"
  }

  /** Lines 619-622: the tables of `stat` that also contain the name of experiment `exp`. */
  function Candidates(stat: string, keys: seq<string>, exp: string): seq<string> {
    TablesFor(exp, TablesFor(stat, keys))
  }

  /**
   * Lines 573-574, 619-622 and 693: exactly two experiments; for each the
   * first table of `stat` that contains its name.
   */
  function Scorecard(tstat: string, stat: string, keys: seq<string>, exps: seq<string>): Result<ScorecardFiles, ScorecardError> {
    if |exps| != 2 then Err(NotTwoExperiments)
    else
      var c1 := Candidates(stat, keys, exps[0]);
      var c2 := Candidates(stat, keys, exps[1]);
      if c1 == [] then Err(NoTableFor(exps[0]))
      else if c2 == [] then Err(NoTableFor(exps[1]))
      else Ok(ScorecardFiles(c1[0], c2[0], ScorecardFigureName(tstat, stat, exps[0], exps[1], TablesFor(stat, keys)[0])))
  }

  /** A key is a candidate for `exp` exactly when it contains both the statistic and the experiment. */
  lemma CandidatesMembers(stat: string, keys: seq<string>, exp: string)
    ensures forall k :: k in Candidates(stat, keys, exp) <==> k in keys && Contains(k, stat) && Contains(k, exp)
  {
    TablesForMembers(stat, keys);
    TablesForMembers(exp, TablesFor(stat, keys));
  }

  /** A scorecard is drawn exactly when there are two experiments and each has a table of the statistic. */
  lemma ScorecardDrawn(tstat: string, stat: string, keys: seq<string>, exps: seq<string>)
    ensures Scorecard(tstat, stat, keys, exps).Ok? <==>
      |exps| == 2 &&
      (exists k :: k in keys && Contains(k, stat) && Contains(k, exps[0])) &&
      (exists k :: k in keys && Contains(k, stat) && Contains(k, exps[1]))
  {
    if |exps| == 2 {
      CandidatesMembers(stat, keys, exps[0]);
      CandidatesMembers(stat, keys, exps[1]);
      var c1 := Candidates(stat, keys, exps[0]);
      var c2 := Candidates(stat, keys, exps[1]);
      if c1 != [] {
        assert c1[0] in c1;
      }
      if c2 != [] {
        assert c2[0] in c2;
      }
    }
  }

  /**
   * The first candidate for `exp` contains the statistic and the experiment,
   * and no earlier table of the statistic contains the experiment.
   */
  lemma FirstCandidate(stat: string, keys: seq<string>, exp: string)
    requires Candidates(stat, keys, exp) != []
    ensures Candidates(stat, keys, exp)[0] in keys
    ensures Contains(Candidates(stat, keys, exp)[0], stat) && Contains(Candidates(stat, keys, exp)[0], exp)
    ensures exists j ::
        0 <= j < |TablesFor(stat, keys)| && TablesFor(stat, keys)[j] == Candidates(stat, keys, exp)[0] &&
        forall i :: 0 <= i < j ==> !Contains(TablesFor(stat, keys)[i], exp)
  {
    var tables := TablesFor(stat, keys);
    var c := Candidates(stat, keys, exp);
    assert c == TablesFor(exp, tables);
    TablesForFirst(exp, tables);
    var j :| 0 <= j < |tables| && tables[j] == c[0] && Contains(tables[j], exp) &&
      forall i :: 0 <= i < j ==> !Contains(tables[i], exp);
    CandidatesMembers(stat, keys, exp);
    assert c[0] in c;
  }

  /** The two compared tables are the first candidates of the two experiments. */
  lemma ScorecardPicks(tstat: string, stat: string, keys: seq<string>, exps: seq<string>)
    requires Scorecard(tstat, stat, keys, exps).Ok?
    ensures var r := Scorecard(tstat, stat, keys, exps).value;
      var tables := TablesFor(stat, keys);
      r.first in keys && Contains(r.first, stat) && Contains(r.first, exps[0]) &&
      r.second in keys && Contains(r.second, stat) && Contains(r.second, exps[1]) &&
      (exists j :: 0 <= j < |tables| && tables[j] == r.first && forall i :: 0 <= i < j ==> !Contains(tables[i], exps[0])) &&
      (exists j :: 0 <= j < |tables| && tables[j] == r.second && forall i :: 0 <= i < j ==> !Contains(tables[i], exps[1]))
  {
    FirstCandidate(stat, keys, exps[0]);
    FirstCandidate(stat, keys, exps[1]);
  }

  /** In a key built from a statistic and experiment of eight characters together, characters 9-19 and 19-29 are the two dates. */
  lemma ScorecardDates(sc: Scheme, stat: string, exp: string, d1: Hour, d2: Hour)
    requires |stat + exp| == 8 && IsStampFormat(sc.fmt)
    ensures Slice(FileName(sc, stat, exp, d1, d2), 9, 19) == sc.fmt(d1)
    ensures Slice(FileName(sc, stat, exp, d1, d2), 19, 29) == sc.fmt(d2)
  {
    StampDigits(sc.fmt, d1, d2);
    FileNameShape(sc, stat, exp, d1, d2);
    var key := FileName(sc, stat, exp, d1, d2);
    assert key[9..19] == sc.fmt(d1);
    assert key[19..29] == sc.fmt(d2);
  }

  /**
   * The start of `plot_scorecard`: the experiment count is checked before the
   * shared `tExt` default is touched; the columns follow the casing rule.
   */
  method ScorecardColumns(g: Globals, exps: seq<string>, codes: seq<string>, extArg: Option<string>)
    returns (r: Result<seq<string>, ScorecardError>)
    modifies g
    ensures |exps| != 2 ==> r == Err(NotTwoExperiments) && g.tExt == old(g.tExt)
    ensures |exps| == 2 ==> g.tExt == Choose(extArg, old(g.tExt)) && r.Ok? && |r.value| == |codes|
    ensures |exps| == 2 ==> forall k :: 0 <= k < |codes| ==> r.Ok? && r.value[k] == ColumnKey(codes[k], g.tExt)
    ensures g.series == old(g.series) && g.save == old(g.save)
  {
    if |exps| != 2 {
      return Err(NotTwoExperiments);
    }
    var ext := g.UseExt(extArg);
    r := Ok(seq(|codes|, k requires 0 <= k < |codes| => ColumnKey(codes[k], ext)));
  }
}
