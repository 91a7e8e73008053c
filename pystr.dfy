/**
 * The Python `str` operations the plotting code applies to registry keys:
 * slicing with clamped bounds, `find`, `split(sep)[0]` and `split(sep)[1]`,
 * `in`, `replace` (every non-overlapping occurrence, left to right) and
 * ASCII case mapping.
 */
module PyStr {
  import opened Wrappers

  /** A Python slice bound: negative values count from the end, then the bound is clamped to [0, n]. */
  function Bound(i: int, n: nat): (b: nat)
    ensures b <= n
    ensures 0 <= i <= n ==> b == i
    ensures i < 0 && 0 <= i + n ==> b == i + n
  {
    if i < 0 then (if i + n < 0 then 0 else i + n) else if i > n then n else i
  }

  /** `s[i:j]`. */
  function Slice(s: string, i: int, j: int): (r: string)
    ensures |r| <= |s|
    ensures 0 <= i <= j <= |s| ==> r == s[i..j]
    ensures 0 <= i <= |s| <= j ==> r == s[i..]
  {
    var a, b := Bound(i, |s|), Bound(j, |s|);
    if a < b then s[a..b] else ""
  }

  /** `sub` occurs in `s` starting at position `p`. */
  predicate OccursAt(s: string, sub: string, p: int) {
    0 <= p && p + |sub| <= |s| && s[p..p + |sub|] == sub
  }

  function FindFrom(s: string, sub: string, from: nat): (r: int)
    requires from <= |s|
    ensures r == -1 || from <= r <= |s|
    ensures r == -1 ==> forall p :: from <= p ==> !OccursAt(s, sub, p)
    ensures r != -1 ==> OccursAt(s, sub, r) && forall p :: from <= p < r ==> !OccursAt(s, sub, p)
    decreases |s| - from
  {
    if from + |sub| > |s| then -1
    else if s[from..from + |sub|] == sub then from
    else if from == |s| then -1
    else FindFrom(s, sub, from + 1)
  }

  /** `s.find(sub)`: the lowest position where `sub` occurs, or -1. */
  function Find(s: string, sub: string): (r: int)
    ensures r == -1 <==> forall p :: !OccursAt(s, sub, p)
    ensures r != -1 ==> OccursAt(s, sub, r) && forall p :: 0 <= p < r ==> !OccursAt(s, sub, p)
  {
    FindFrom(s, sub, 0)
  }

  /** `sub in s`. */
  predicate Contains(s: string, sub: string) {
    exists p :: 0 <= p <= |s| - |sub| && OccursAt(s, sub, p)
  }

  /** `sub in s` holds exactly when `s.find(sub)` finds it. */
  lemma ContainsFind(s: string, sub: string)
    ensures Contains(s, sub) <==> Find(s, sub) != -1
  {
    if Find(s, sub) != -1 {
      assert OccursAt(s, sub, Find(s, sub));
    }
  }

  /** `s.split(sep)[0]`: the text before the first `sep`, or all of `s` (an empty `sep` raises ValueError). */
  function Head(s: string, sep: string): (r: string)
    requires |sep| > 0
    ensures Find(s, sep) == -1 ==> r == s
    ensures Find(s, sep) != -1 ==> r == s[..Find(s, sep)]
  {
    var q := Find(s, sep);
    if q == -1 then s else s[..q]
  }

  /**
   * `s.split(sep)[1]`: the text between the first and the second `sep`;
   * None where Python raises IndexError because `sep` does not occur.
   */
  function Second(s: string, sep: string): Option<string>
    requires |sep| > 0
  {
    var q := Find(s, sep);
    if q == -1 then None else Some(Head(s[q + |sep|..], sep))
  }

  /** Splitting at a one-character separator that `a` does not contain cuts right after `a`. */
  lemma SplitAtChar(a: string, c: char, rest: string)
    requires c !in a
    ensures Find(a + [c] + rest, [c]) == |a|
    ensures Head(a + [c] + rest, [c]) == a
    ensures Second(a + [c] + rest, [c]) == Some(Head(rest, [c]))
  {
    var s := a + [c] + rest;
    assert OccursAt(s, [c], |a|) by {
      assert s[|a|..|a| + 1] == [c];
    }
    forall p | 0 <= p < |a| ensures !OccursAt(s, [c], p) {
      assert s[p..p + 1] == [a[p]];
    }
    assert s[..|a|] == a;
    assert s[|a| + 1..] == rest;
  }

  /** A separator that does not start within the first `n` characters leaves them in the head. */
  lemma HeadKeepsPrefix(s: string, sep: string, n: nat)
    requires |sep| > 0 && n <= |s|
    requires forall p :: 0 <= p < n ==> !OccursAt(s, sep, p)
    ensures n <= |Head(s, sep)| && Head(s, sep)[..n] == s[..n]
  {
  }

  /** `s.replace(pat, rep)`; an empty `pat` inserts `rep` around every character, as Python does. */
  function ReplaceAll(s: string, pat: string, rep: string): string
    decreases |s|
  {
    if |pat| == 0 then
      (if |s| == 0 then rep else rep + [s[0]] + ReplaceAll(s[1..], pat, rep))
    else if |s| < |pat| then s
    else if s[..|pat|] == pat then rep + ReplaceAll(s[|pat|..], pat, rep)
    else [s[0]] + ReplaceAll(s[1..], pat, rep)
  }

  /** With no occurrence of `pat`, replace leaves the string alone. */
  lemma {:induction false} ReplaceAbsent(s: string, pat: string, rep: string)
    requires |pat| > 0
    requires forall p :: !OccursAt(s, pat, p)
    ensures ReplaceAll(s, pat, rep) == s
    decreases |s|
  {
    if |s| >= |pat| {
      assert !OccursAt(s, pat, 0);
      forall p ensures !OccursAt(s[1..], pat, p) {
        assert !OccursAt(s, pat, p + 1);
        if 0 <= p && p + |pat| <= |s| - 1 {
          assert s[p + 1..p + 1 + |pat|] == s[1..][p..p + |pat|];
        }
      }
      ReplaceAbsent(s[1..], pat, rep);
    }
  }

  /** With exactly one occurrence of `pat`, at `q`, replace rewrites exactly that occurrence. */
  lemma {:induction false} ReplaceOnce(s: string, pat: string, rep: string, q: nat)
    requires |pat| > 0
    requires OccursAt(s, pat, q)
    requires forall p :: OccursAt(s, pat, p) ==> p == q
    ensures ReplaceAll(s, pat, rep) == s[..q] + rep + s[q + |pat|..]
    decreases |s|
  {
    if q == 0 {
      OnlyAtFront(s, pat);
      ReplaceAbsent(s[|pat|..], pat, rep);
      assert s[..|pat|] == pat;
    } else {
      var rest := s[1..];
      OnlyAtShift(s, pat, q);
      ReplaceOnce(rest, pat, rep, q - 1);
      ReplaceSkip(s, pat, rep);
      ConsSplit(s, rep, q, |pat|);
    }
  }

  /** Where `pat` does not start `s`, replace keeps the first character. */
  lemma ReplaceSkip(s: string, pat: string, rep: string)
    requires |pat| > 0 && |pat| <= |s| && !OccursAt(s, pat, 0)
    ensures ReplaceAll(s, pat, rep) == [s[0]] + ReplaceAll(s[1..], pat, rep)
  {
  }

  lemma ConsSplit(s: string, rep: string, q: nat, n: nat)
    requires 0 < q && q + n <= |s|
    ensures [s[0]] + (s[1..][..q - 1] + rep + s[1..][q - 1 + n..]) == s[..q] + rep + s[q + n..]
  {
    assert s[..q] == [s[0]] + s[1..][..q - 1];
    assert s[q + n..] == s[1..][q - 1 + n..];
  }

  /** If `pat` occurs only at the front, it does not occur after that occurrence. */
  lemma OnlyAtFront(s: string, pat: string)
    requires |pat| > 0 && |pat| <= |s|
    requires forall p :: OccursAt(s, pat, p) ==> p == 0
    ensures forall p :: !OccursAt(s[|pat|..], pat, p)
  {
    var rest := s[|pat|..];
    forall p ensures !OccursAt(rest, pat, p) {
      if OccursAt(rest, pat, p) {
        assert s[p + |pat|..p + |pat| + |pat|] == rest[p..p + |pat|];
        assert OccursAt(s, pat, p + |pat|);
      }
    }
  }

  /** An only occurrence at `q > 0` is the only one, at `q - 1`, once the first character is dropped. */
  lemma OnlyAtShift(s: string, pat: string, q: nat)
    requires q > 0 && OccursAt(s, pat, q)
    requires forall p :: OccursAt(s, pat, p) ==> p == q
    ensures OccursAt(s[1..], pat, q - 1)
    ensures forall p :: OccursAt(s[1..], pat, p) ==> p == q - 1
  {
    var rest := s[1..];
    assert rest[q - 1..q - 1 + |pat|] == s[q..q + |pat|];
    forall p | OccursAt(rest, pat, p) ensures p == q - 1 {
      assert s[p + 1..p + 1 + |pat|] == rest[p..p + |pat|];
      assert OccursAt(s, pat, p + 1);
    }
  }

  /** Where `pat` is found only as the suffix of `a + pat`, replace turns that suffix into `rep`. */
  lemma ReplaceSuffix(a: string, pat: string, rep: string)
    requires |pat| > 0
    requires forall p :: 0 <= p < |a| ==> !OccursAt(a + pat, pat, p)
    ensures ReplaceAll(a + pat, pat, rep) == a + rep
  {
    var s := a + pat;
    assert s[|a|..|a| + |pat|] == pat;
    forall p | OccursAt(s, pat, p) ensures p == |a| { }
    ReplaceOnce(s, pat, rep, |a|);
    assert s[..|a|] == a;
  }

  /**
   * Replacing in `x + y` is replacing in `x` and in `y` separately when no
   * occurrence of `pat` starts in `x` and runs into `y`.
   */
  lemma {:induction false} ReplaceConcat(x: string, y: string, pat: string, rep: string)
    requires |pat| > 0
    requires NoStraddle(x, y, pat)
    ensures ReplaceAll(x + y, pat, rep) == ReplaceAll(x, pat, rep) + ReplaceAll(y, pat, rep)
    decreases |x|
  {
    if |x| == 0 {
      assert x + y == y;
    } else if |x + y| < |pat| {
      ConcatShort(x, y, pat, rep);
    } else if (x + y)[..|pat|] == pat {
      assert |pat| <= |x| by {
        assert OccursAt(x + y, pat, 0);
      }
      NoStraddleDrop(x, y, pat, |pat|);
      ReplaceConcat(x[|pat|..], y, pat, rep);
      ConcatMatchStep(x, y, pat, rep);
    } else {
      NoStraddleDrop(x, y, pat, 1);
      ReplaceConcat(x[1..], y, pat, rep);
      ConcatSkipStep(x, y, pat, rep);
    }
  }

  /** Strings shorter than `pat` are left alone, together and apart. */
  lemma ConcatShort(x: string, y: string, pat: string, rep: string)
    requires |pat| > 0 && |x + y| < |pat|
    ensures ReplaceAll(x + y, pat, rep) == ReplaceAll(x, pat, rep) + ReplaceAll(y, pat, rep)
  {
    assert ReplaceAll(x, pat, rep) == x && ReplaceAll(y, pat, rep) == y;
  }

  /** The concatenation step where `x` starts with `pat`. */
  lemma ConcatMatchStep(x: string, y: string, pat: string, rep: string)
    requires 0 < |pat| <= |x| && x[..|pat|] == pat
    requires ReplaceAll(x[|pat|..] + y, pat, rep) == ReplaceAll(x[|pat|..], pat, rep) + ReplaceAll(y, pat, rep)
    ensures ReplaceAll(x + y, pat, rep) == ReplaceAll(x, pat, rep) + ReplaceAll(y, pat, rep)
  {
    var x' := x[|pat|..];
    ReplaceMatchFront(x, y, pat, rep);
    Regroup(ReplaceAll(x + y, pat, rep), rep, ReplaceAll(x', pat, rep), ReplaceAll(y, pat, rep), ReplaceAll(x, pat, rep));
  }

  /** The concatenation step where `x + y` does not start with `pat`. */
  lemma ConcatSkipStep(x: string, y: string, pat: string, rep: string)
    requires |pat| > 0 && |x| > 0 && |x + y| >= |pat| && (x + y)[..|pat|] != pat
    requires ReplaceAll(x[1..] + y, pat, rep) == ReplaceAll(x[1..], pat, rep) + ReplaceAll(y, pat, rep)
    ensures ReplaceAll(x + y, pat, rep) == ReplaceAll(x, pat, rep) + ReplaceAll(y, pat, rep)
  {
    var x' := x[1..];
    ReplaceSkipFront(x, y, pat, rep);
    Regroup(ReplaceAll(x + y, pat, rep), [x[0]], ReplaceAll(x', pat, rep), ReplaceAll(y, pat, rep), ReplaceAll(x, pat, rep));
  }

  /** `whole == front + (mid + back)` and `left == front + mid` give `whole == left + back`. */
  lemma Regroup(whole: string, front: string, mid: string, back: string, left: string)
    requires whole == front + (mid + back) && left == front + mid
    ensures whole == left + back
  {
  }

  /** When `x` starts with `pat`, so does `x + y`, and both have that occurrence replaced. */
  lemma ReplaceMatchFront(x: string, y: string, pat: string, rep: string)
    requires 0 < |pat| <= |x| && x[..|pat|] == pat
    ensures ReplaceAll(x + y, pat, rep) == rep + ReplaceAll(x[|pat|..] + y, pat, rep)
    ensures ReplaceAll(x, pat, rep) == rep + ReplaceAll(x[|pat|..], pat, rep)
  {
    var s := x + y;
    assert s[..|pat|] == pat;
    assert s[|pat|..] == x[|pat|..] + y;
  }

  /** No occurrence of `pat` in `x + y` starts in `x` and runs into `y`. */
  predicate NoStraddle(x: string, y: string, pat: string) {
    forall p :: 0 <= p < |x| < p + |pat| ==> !OccursAt(x + y, pat, p)
  }

  /** Dropping a prefix of `x` keeps `x` and `y` free of straddling occurrences. */
  lemma NoStraddleDrop(x: string, y: string, pat: string, d: nat)
    requires d <= |x| && NoStraddle(x, y, pat)
    ensures NoStraddle(x[d..], y, pat)
  {
    var s, x' := x + y, x[d..];
    assert x' + y == s[d..];
    forall p | 0 <= p < |x'| < p + |pat| ensures !OccursAt(x' + y, pat, p) {
      assert !OccursAt(s, pat, p + d);
      if p + |pat| <= |x' + y| {
        assert (x' + y)[p..p + |pat|] == s[p + d..p + d + |pat|];
      }
    }
  }

  /** When `x + y` does not start with `pat`, neither does `x`, and both keep their first character. */
  lemma ReplaceSkipFront(x: string, y: string, pat: string, rep: string)
    requires |pat| > 0 && |x| > 0 && |x + y| >= |pat| && (x + y)[..|pat|] != pat
    ensures ReplaceAll(x + y, pat, rep) == [x[0]] + ReplaceAll(x[1..] + y, pat, rep)
    ensures ReplaceAll(x, pat, rep) == [x[0]] + ReplaceAll(x[1..], pat, rep)
  {
    var s := x + y;
    assert s[1..] == x[1..] + y;
    if |x| >= |pat| {
      assert x[..|pat|] == s[..|pat|];
    } else {
      assert ReplaceAll(x, pat, rep) == x;
      assert ReplaceAll(x[1..], pat, rep) == x[1..];
      assert x == [x[0]] + x[1..];
    }
  }

  /** A string that starts with `pat` has that first occurrence replaced. */
  lemma ReplaceFront(pat: string, y: string, rep: string)
    requires |pat| > 0
    ensures ReplaceAll(pat + y, pat, rep) == rep + ReplaceAll(y, pat, rep)
  {
    assert (pat + y)[..|pat|] == pat;
    assert (pat + y)[|pat|..] == y;
  }

  /** A prefix without the first character of `pat` is kept as it is. */
  lemma ReplaceFreePrefix(x: string, y: string, pat: string, rep: string)
    requires |pat| > 0 && pat[0] !in x
    ensures ReplaceAll(x + y, pat, rep) == x + ReplaceAll(y, pat, rep)
  {
    forall p | 0 <= p < |x| < p + |pat| ensures !OccursAt(x + y, pat, p) {
      if p + |pat| <= |x + y| {
        assert (x + y)[p..p + |pat|][0] == x[p];
      }
    }
    forall p ensures !OccursAt(x, pat, p) {
      if 0 <= p && p + |pat| <= |x| {
        assert x[p..p + |pat|][0] == x[p];
      }
    }
    ReplaceAbsent(x, pat, rep);
    ReplaceConcat(x, y, pat, rep);
  }

  /** `s.replace(c, '')` removes every `c` and keeps the other characters in order. */
  lemma {:induction false} RemoveChar(s: string, c: char)
    ensures c !in ReplaceAll(s, [c], "")
    ensures c !in s ==> ReplaceAll(s, [c], "") == s
    ensures |ReplaceAll(s, [c], "")| == |s| - multiset(s)[c]
    decreases |s|
  {
    if |s| > 0 {
      RemoveChar(s[1..], c);
      assert s == [s[0]] + s[1..];
      assert s[..1] == [s[0]];
    }
  }

  predicate IsUpper(ch: char) { 'A' <= ch <= 'Z' }

  predicate IsLowerCase(ch: char) { 'a' <= ch <= 'z' }

  function LowerChar(ch: char): char {
    if IsUpper(ch) then (ch as int + 32) as char else ch
  }

  function UpperChar(ch: char): char {
    if IsLowerCase(ch) then (ch as int - 32) as char else ch
  }

  /**
   * `s.lower()` on ASCII letters: each capital becomes the lower-case letter
   * whose capital it is, and every other character is kept.
   */
  function Lower(s: string): (r: string)
    ensures |r| == |s|
    ensures forall k :: 0 <= k < |r| ==> !IsUpper(r[k])
    ensures forall k :: 0 <= k < |s| && !IsUpper(s[k]) ==> r[k] == s[k]
    ensures forall k :: 0 <= k < |s| && IsUpper(s[k]) ==> IsLowerCase(r[k]) && UpperChar(r[k]) == s[k]
  {
    seq(|s|, k requires 0 <= k < |s| => LowerChar(s[k]))
  }

  /**
   * `s.upper()` on ASCII letters: each lower-case letter becomes the capital
   * whose lower case it is, and every other character is kept.
   */
  function Upper(s: string): (r: string)
    ensures |r| == |s|
    ensures forall k :: 0 <= k < |r| ==> !IsLowerCase(r[k])
    ensures forall k :: 0 <= k < |s| && !IsLowerCase(s[k]) ==> r[k] == s[k]
    ensures forall k :: 0 <= k < |s| && IsLowerCase(s[k]) ==> IsUpper(r[k]) && LowerChar(r[k]) == s[k]
  {
    seq(|s|, k requires 0 <= k < |s| => UpperChar(s[k]))
  }

  /** Lowering twice is lowering once, and a string with no upper-case letter is its own lower case. */
  lemma LowerIdempotent(s: string)
    ensures Lower(Lower(s)) == Lower(s)
    ensures (forall k :: 0 <= k < |s| ==> !IsUpper(s[k])) ==> Lower(s) == s
  {
  }

  /** Lowering loses nothing but case: upper-casing after it is upper-casing alone, and the other way round. */
  lemma CaseRoundTrip(s: string)
    ensures Upper(Lower(s)) == Upper(s)
    ensures Lower(Upper(s)) == Lower(s)
  {
    forall k | 0 <= k < |s| ensures Upper(Lower(s))[k] == Upper(s)[k] && Lower(Upper(s))[k] == Lower(s)[k] {
      if IsUpper(s[k]) {
        assert IsLowerCase(Lower(s)[k]) && Upper(s)[k] == s[k];
      } else if IsLowerCase(s[k]) {
        assert IsUpper(Upper(s)[k]) && Lower(s)[k] == s[k];
      }
    }
  }
}
