/**
 * The two path operations the ingestion uses: `os.path.join(dir, name)` as on
 * POSIX, and `ntpath.basename`, which cuts at the last `/` or `\`.
 */
module Paths {

  predicate IsSep(c: char) { c == '/' || c == '\\' }

  /** A plain file name: no directory separator of either kind. */
  predicate IsPlainName(name: string) {
    forall k :: 0 <= k < |name| ==> !IsSep(name[k])
  }

  /** `os.path.join(dir, name)`: an absolute name wins; otherwise a `/` is added unless `dir` is empty or ends in one. */
  function Join(dir: string, name: string): (p: string)
    ensures |name| > 0 && name[0] == '/' ==> p == name
    ensures !(|name| > 0 && name[0] == '/') ==> exists pre :: p == pre + name && (pre == [] || pre[|pre| - 1] == '/')
  {
    if |name| > 0 && name[0] == '/' then name
    else if dir == [] || dir[|dir| - 1] == '/' then
      (if dir == [] then (assert name == [] + name; name) else dir + name)
    else dir + "/" + name
  }

  /** `ntpath.basename(p)`: what follows the last separator (drive letters and UNC prefixes aside). */
  function Basename(p: string): string {
    if p == [] || IsSep(p[|p| - 1]) then []
    else Basename(p[..|p| - 1]) + [p[|p| - 1]]
  }

  /** The base name is a suffix of the path holding no separator, and the path's last separator (if any) sits just before it. */
  lemma {:induction false} BasenameSuffix(p: string)
    ensures PlainTail(p, Basename(p))
    decreases |p|
  {
    if p != [] && !IsSep(p[|p| - 1]) {
      var init, c := p[..|p| - 1], p[|p| - 1];
      assert Basename(p) == Basename(init) + [c];
      BasenameSuffix(init);
      PlainTailSnoc(init, c, Basename(init));
      assert init + [c] == p;
    }
  }

  /** `r` ends `p`, holds no separator, and is preceded by a separator whenever it is not all of `p`. */
  predicate PlainTail(p: string, r: string) {
    IsPlainName(r) && |r| <= |p| && r == p[|p| - |r|..] &&
    (|r| < |p| ==> IsSep(p[|p| - |r| - 1]))
  }

  lemma PlainTailSnoc(p: string, c: char, r: string)
    requires PlainTail(p, r) && !IsSep(c)
    ensures PlainTail(p + [c], r + [c])
  {
    var q := p + [c];
    assert forall k :: 0 <= k < |r| ==> (r + [c])[k] == r[k] == p[|p| - |r| + k] == q[|q| - |r| - 1 + k];
    if |r| < |p| {
      assert q[|q| - |r| - 2] == p[|p| - |r| - 1];
    }
  }

  lemma {:induction false} BasenameAfterSep(pre: string, name: string)
    requires pre == [] || IsSep(pre[|pre| - 1])
    requires IsPlainName(name)
    ensures Basename(pre + name) == name
    decreases |name|
  {
    if name == [] {
      assert pre + name == pre;
    } else {
      var init, last := name[..|name| - 1], name[|name| - 1];
      assert Basename(pre + init) == init by {
        assert forall k :: 0 <= k < |init| ==> init[k] == name[k];
        BasenameAfterSep(pre, init);
      }
      assert Basename((pre + init) + [last]) == init + [last] by {
        BasenameSnoc(pre + init, last);
      }
      assert pre + name == (pre + init) + [last] && init + [last] == name;
    }
  }

  /** A character that is not a separator extends the base name. */
  lemma BasenameSnoc(p: string, c: char)
    requires !IsSep(c)
    ensures Basename(p + [c]) == Basename(p) + [c]
  {
    assert (p + [c])[..|p|] == p;
  }

  /** The registry key of a file found in `dir` is the name it was looked up under. */
  lemma BasenameOfJoin(dir: string, name: string)
    requires IsPlainName(name)
    ensures Basename(Join(dir, name)) == name
  {
    if |name| > 0 && name[0] == '/' {
      assert false;
    } else {
      var pre :| Join(dir, name) == pre + name && (pre == [] || pre[|pre| - 1] == '/');
      BasenameAfterSep(pre, name);
    }
  }
}
