/**
 * The dictionaries `ds_table` and `ds_field`: string keys in insertion order,
 * filled in place, one entry per file found. A file is stored under the base
 * name of its path; storing a key again replaces the value and keeps the
 * key's original position.
 */
module Registry {
  import opened Paths

  /** A Python `dict` with string keys, as a value: its keys in insertion order and its entries. */
  datatype Dict<V> = Dict(order: seq<string>, entries: map<string, V>)

  predicate Distinct(s: seq<string>) {
    forall i, j :: 0 <= i < j < |s| ==> s[i] != s[j]
  }

  /** Every key is listed once in `order`, and `order` lists exactly the keys. */
  predicate WellFormed<V>(d: Dict<V>) {
    Distinct(d.order) &&
    (forall k :: k in d.order ==> k in d.entries) &&
    (forall k :: k in d.entries ==> k in d.order)
  }

  function EmptyDict<V>(): (d: Dict<V>)
    ensures WellFormed(d) && d.entries == map[]
  {
    Dict([], map[])
  }

  /** `d[k] = v`. */
  function Insert<V>(d: Dict<V>, k: string, v: V): (r: Dict<V>)
    requires WellFormed(d)
    ensures WellFormed(r)
    ensures r.entries == d.entries[k := v]
    ensures k in d.entries ==> r.order == d.order
    ensures k !in d.entries ==> r.order == d.order + [k]
  {
    if k in d.entries then Dict(d.order, d.entries[k := v])
    else Dict(d.order + [k], d.entries[k := v])
  }

  /** The dictionary object the ingestion fills. */
  class Store<V> {
    var order: seq<string>
    var entries: map<string, V>

    function Contents(): Dict<V>
      reads this
    {
      Dict(order, entries)
    }

    /** `{}` */
    constructor ()
      ensures Contents() == EmptyDict()
    {
      order, entries := [], map[];
    }

    /** `store[k] = v`, in place. */
    method Put(k: string, v: V)
      requires WellFormed(Contents())
      modifies this
      ensures Contents() == Insert(old(Contents()), k, v)
    {
      if k !in entries {
        order := order + [k];
      }
      entries := entries[k := v];
    }
  }

  /**
   * The dictionary that results from looking up `names` in directory `dir`
   * in order: each file that exists is stored under the base name of its path.
   */
  function Collected<V>(fs: map<string, V>, dir: string, names: seq<string>): (d: Dict<V>)
    ensures WellFormed(d)
    decreases |names|
  {
    if names == [] then EmptyDict()
    else
      var d := Collected(fs, dir, names[..|names| - 1]);
      var path := Join(dir, names[|names| - 1]);
      if path in fs then Insert(d, Basename(path), fs[path]) else d
  }

  /** The names, in order, whose file exists in `dir`. */
  function Existing<V>(fs: map<string, V>, dir: string, names: seq<string>): (r: seq<string>)
    ensures forall n :: n in r <==> n in names && Join(dir, n) in fs
    decreases |names|
  {
    if names == [] then []
    else
      var r := Existing(fs, dir, names[..|names| - 1]);
      var n := names[|names| - 1];
      assert names == names[..|names| - 1] + [n];
      if Join(dir, n) in fs then r + [n] else r
  }

  /** The names, in order, whose file does not exist in `dir`. */
  function Absent<V>(fs: map<string, V>, dir: string, names: seq<string>): (r: seq<string>)
    ensures forall n :: n in r <==> n in names && Join(dir, n) !in fs
    decreases |names|
  {
    if names == [] then []
    else
      var r := Absent(fs, dir, names[..|names| - 1]);
      var n := names[|names| - 1];
      assert names == names[..|names| - 1] + [n];
      if Join(dir, n) !in fs then r + [n] else r
  }

  predicate AllPlain(names: seq<string>) {
    forall k :: 0 <= k < |names| ==> IsPlainName(names[k])
  }

  /**
   * With plain names, the key of each file found is the name it was looked up
   * under and its value is that file: missing files leave no key, and a name
   * visited twice keeps the file it names.
   */
  lemma {:induction false} CollectedEntries<V>(fs: map<string, V>, dir: string, names: seq<string>)
    requires AllPlain(names)
    ensures Collected(fs, dir, names).entries
      == map n | n in names && Join(dir, n) in fs :: fs[Join(dir, n)]
    decreases |names|
  {
    if names != [] {
      var init, n := names[..|names| - 1], names[|names| - 1];
      assert AllPlain(init);
      CollectedEntries(fs, dir, init);
      assert names == init + [n];
      if Join(dir, n) in fs {
        BasenameOfJoin(dir, n);
      }
    }
  }

  /** With distinct plain names, the keys are the names found, in lookup order. */
  lemma {:induction false} CollectedOrder<V>(fs: map<string, V>, dir: string, names: seq<string>)
    requires AllPlain(names) && Distinct(names)
    ensures Collected(fs, dir, names).order == Existing(fs, dir, names)
    decreases |names|
  {
    if names != [] {
      var init, n := names[..|names| - 1], names[|names| - 1];
      assert AllPlain(init) && Distinct(init);
      CollectedOrder(fs, dir, init);
      CollectedEntries(fs, dir, init);
      if Join(dir, n) in fs {
        BasenameOfJoin(dir, n);
        assert n !in init;
      }
    }
  }
}
