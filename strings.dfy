/** The `str` operations the core relies on (`starts_with`, `ends_with`,
    `strip_suffix`, `split_once`, `rsplit_once`), on strings as `seq<char>`. */
module Strings {
  import opened Errors

  predicate StartsWith(s: string, p: string) {
    |p| <= |s| && s[..|p|] == p
  }

  predicate EndsWith(s: string, p: string) {
    |p| <= |s| && s[|s| - |p|..] == p
  }

  /** `p` occurs in `s` at index `i`. */
  predicate OccursAt(s: string, p: string, i: int) {
    0 <= i && i + |p| <= |s| && s[i..i + |p|] == p
  }

  ghost predicate Contains(s: string, p: string) {
    exists i :: OccursAt(s, p, i)
  }

  /** The first index at or after `i` where `p` occurs. */
  function FindFrom(s: string, p: string, i: nat): (r: Option<nat>)
    decreases |s| - i
    ensures r.Some? ==> i <= r.value && OccursAt(s, p, r.value)
    ensures r.Some? ==> forall j :: i <= j < r.value ==> !OccursAt(s, p, j)
    ensures r.None? ==> forall j :: i <= j ==> !OccursAt(s, p, j)
  {
    if i + |p| > |s| then None
    else if OccursAt(s, p, i) then Some(i)
    else FindFrom(s, p, i + 1)
  }

  /** The last index at or before `i` where `p` occurs. */
  function FindDownFrom(s: string, p: string, i: int): (r: Option<nat>)
    decreases i + 1
    ensures r.Some? ==> r.value <= i && OccursAt(s, p, r.value)
    ensures r.Some? ==> forall j :: r.value < j <= i ==> !OccursAt(s, p, j)
    ensures r.None? ==> forall j :: j <= i ==> !OccursAt(s, p, j)
  {
    if i < 0 then None
    else if OccursAt(s, p, i) then Some(i)
    else FindDownFrom(s, p, i - 1)
  }

  /** `split_once`: split around the first occurrence of `p`. */
  function SplitOnce(s: string, p: string): (r: Option<(string, string)>)
    ensures r.None? <==> !Contains(s, p)
    ensures r.Some? ==> s == r.value.0 + p + r.value.1
    ensures r.Some? ==> forall j :: 0 <= j < |r.value.0| ==> !OccursAt(s, p, j)
  {
    match FindFrom(s, p, 0)
    case None => None
    case Some(i) =>
      assert s == s[..i] + p + s[i + |p|..];
      Some((s[..i], s[i + |p|..]))
  }

  /** The text before the first occurrence holds no occurrence itself. */
  lemma SplitOnceHeadFree(s: string, p: string)
    requires |p| > 0 && SplitOnce(s, p).Some?
    ensures !Contains(SplitOnce(s, p).value.0, p)
  {
    var before := SplitOnce(s, p).value.0;
    forall j | 0 <= j && j + |p| <= |before| ensures !OccursAt(before, p, j) {
      assert before[j..j + |p|] == s[j..j + |p|];
      assert !OccursAt(s, p, j);
    }
  }

  /** `rsplit_once`: split around the last occurrence of `p`. */
  function RSplitOnce(s: string, p: string): (r: Option<(string, string)>)
    ensures r.None? <==> !Contains(s, p)
    ensures r.Some? ==> s == r.value.0 + p + r.value.1
    ensures r.Some? ==> forall j :: |r.value.0| < j ==> !OccursAt(s, p, j)
    ensures r.Some? && |p| > 0 ==> !Contains(r.value.1, p)
  {
    match FindDownFrom(s, p, |s| - |p|)
    case None => None
    case Some(i) =>
      var before, after := s[..i], s[i + |p|..];
      assert s == before + p + after;
      forall j | 0 <= j && j + |p| <= |after| && |p| > 0 ensures !OccursAt(after, p, j) {
        assert after[j..j + |p|] == s[i + |p| + j..i + |p| + j + |p|];
        assert !OccursAt(s, p, i + |p| + j);
      }
      Some((before, after))
  }

  /** `strip_suffix`. */
  function StripSuffix(s: string, p: string): (r: Option<string>)
    ensures r.Some? <==> EndsWith(s, p)
    ensures r.Some? ==> s == r.value + p
  {
    if EndsWith(s, p) then
      assert s == s[..|s| - |p|] + p;
      Some(s[..|s| - |p|])
    else None
  }

  /** Text made of lines, each one followed by a newline, as `writeln!` builds it. */
  function Unlines(lines: seq<string>): (r: string)
    ensures |lines| > 0 ==> EndsWith(r, "\n")
  {
    if lines == [] then "" else lines[0] + "\n" + Unlines(lines[1..])
  }

  lemma UnlinesOne(line: string)
    ensures Unlines([line]) == line + "\n"
  {
    assert [line][1..] == [];
  }

  lemma {:induction false} UnlinesAppend(a: seq<string>, b: seq<string>)
    ensures Unlines(a + b) == Unlines(a) + Unlines(b)
  {
    if a == [] {
      assert a + b == b;
    } else {
      assert (a + b)[1..] == a[1..] + b;
      UnlinesAppend(a[1..], b);
    }
  }

  // ---------------------------------------------------------------------------
  // Facts about occurrences in concatenations

  /** `p` occurs in `a + b` across the boundary, with its first `k` characters in `a`. */
  predicate Straddles(a: string, b: string, p: string, k: int) {
    0 < k < |p| && k <= |a| && |p| - k <= |b| && a[|a| - k..] == p[..k] && b[..|p| - k] == p[k..]
  }

  lemma NoOccurrenceInConcat(a: string, b: string, p: string)
    requires !Contains(a, p) && !Contains(b, p)
    requires forall k :: !Straddles(a, b, p, k)
    ensures !Contains(a + b, p)
  {
    var s := a + b;
    forall i | 0 <= i && i + |p| <= |s| ensures !OccursAt(s, p, i) {
      if i + |p| <= |a| {
        assert s[i..i + |p|] == a[i..i + |p|];
        assert !OccursAt(a, p, i);
      } else if |a| <= i {
        assert s[i..i + |p|] == b[i - |a|..i - |a| + |p|];
        assert !OccursAt(b, p, i - |a|);
      } else {
        var k := |a| - i;
        assert s[i..i + |p|] == s[i..|a|] + s[|a|..i + |p|];
        assert a[|a| - k..] == s[i..|a|];
        assert b[..|p| - k] == s[|a|..i + |p|];
        assert !Straddles(a, b, p, k);
      }
    }
  }

  /** No straddle when `b` starts with a character found nowhere in `p` after its first. */
  lemma NoStraddleByNext(a: string, b: string, p: string)
    requires |b| > 0 && forall k :: 1 <= k < |p| ==> p[k] != b[0]
    ensures forall k :: !Straddles(a, b, p, k)
  {
    forall k | 0 < k < |p| && |p| - k <= |b| ensures !Straddles(a, b, p, k) {
      assert b[..|p| - k][0] == b[0];
      assert p[k..][0] == p[k];
    }
  }

  /** No straddle when the first character of `p` does not appear in `a`. */
  lemma NoStraddleByHead(a: string, b: string, p: string)
    requires |p| > 0 && forall k :: 0 <= k < |a| ==> a[k] != p[0]
    ensures forall k :: !Straddles(a, b, p, k)
  {
    forall k | 0 < k < |p| && k <= |a| ensures !Straddles(a, b, p, k) {
      assert a[|a| - k..][0] == a[|a| - k];
      assert p[..k][0] == p[0];
    }
  }

  /** A string cannot contain `p` if it lacks `p`'s first character. */
  lemma NoOccurrenceWithoutHead(s: string, p: string)
    requires |p| > 0 && forall k :: 0 <= k < |s| ==> s[k] != p[0]
    ensures !Contains(s, p)
  {
    forall i | 0 <= i && i + |p| <= |s| ensures !OccursAt(s, p, i) {
      assert s[i..i + |p|][0] == s[i];
    }
  }

  /** An occurrence past the first character lies in `s[1..]`; one at 0 needs `s[1] == p[1]`. */
  lemma NoOccurrenceBySecond(s: string, p: string)
    requires |s| >= 2 && |p| >= 2 && s[1] != p[1]
    requires !Contains(s[1..], p)
    ensures !Contains(s, p)
  {
    forall i | 0 <= i && i + |p| <= |s| ensures !OccursAt(s, p, i) {
      if i == 0 {
        assert s[..|p|][1] == s[1];
      } else {
        var t := s[1..];
        assert t[i - 1..i - 1 + |p|] == s[i..i + |p|];
        assert !OccursAt(t, p, i - 1);
      }
    }
  }

  /** `a + m + v` does not end with `p` when `v` does not and the last character of `m` is not in `p`. */
  lemma NotEndsWithAfterMarker(a: string, m: string, v: string, p: string)
    requires !EndsWith(v, p) && |m| > 0
    requires forall k :: 0 <= k < |p| ==> p[k] != m[|m| - 1]
    ensures !EndsWith(a + m + v, p)
  {
    var s := a + m + v;
    if |p| <= |s| {
      if |v| >= |p| {
        assert s[|s| - |p|..] == v[|v| - |p|..];
      } else {
        var k := |p| - |v| - 1;
        assert s[|s| - |p|..][k] == s[|a| + |m| - 1] == m[|m| - 1];
      }
    }
  }

  lemma StartsWithConcat(a: string, b: string)
    ensures StartsWith(a + b, a)
  {
    assert (a + b)[..|a|] == a;
  }

  /** The first occurrence inside `a` stays the first one in any `s` that extends `a`. */
  lemma SplitOnceInPrefix(a: string, s: string, p: string)
    requires SplitOnce(a, p).Some? && StartsWith(s, a)
    ensures SplitOnce(s, p).Some?
    ensures SplitOnce(s, p).value.0 == SplitOnce(a, p).value.0
  {
    var (x, y) := SplitOnce(a, p).value;
    assert s[..|a|] == a;
    assert |x| + |p| <= |a|;
    assert forall t :: 0 <= t < |a| ==> s[t] == a[t];
    forall j | 0 <= j < |x| ensures !OccursAt(s, p, j) {
      assert !OccursAt(a, p, j);
      var w := s[j..j + |p|];
      assert forall t :: 0 <= t < |p| ==> w[t] == a[j + t];
      assert w == a[j..j + |p|];
    }
    assert s == x + p + s[|x| + |p|..] by {
      assert s[..|x| + |p|] == a[..|x| + |p|] == x + p;
    }
    SplitOnceAt(s, p, x, s[|x| + |p|..]);
  }

  /** A decomposition `s == a + p + b` with no occurrence of `p` before `|a|` is the one `split_once` finds. */
  lemma SplitOnceAt(s: string, p: string, a: string, b: string)
    requires s == a + p + b
    requires forall j :: 0 <= j < |a| ==> !OccursAt(s, p, j)
    ensures SplitOnce(s, p) == Some((a, b))
  {
    assert OccursAt(s, p, |a|);
    var (x, y) := SplitOnce(s, p).value;
    if |x| > |a| {
      assert false;
    }
    assert x == s[..|a|] == a;
    assert y == s[|a| + |p|..] == b;
  }

  /** A decomposition `s == a + p + b` with no occurrence of `p` after `|a|` is the one `rsplit_once` finds. */
  lemma RSplitOnceAt(s: string, p: string, a: string, b: string)
    requires s == a + p + b
    requires forall j :: |a| < j ==> !OccursAt(s, p, j)
    ensures RSplitOnce(s, p) == Some((a, b))
  {
    assert OccursAt(s, p, |a|);
    var (x, y) := RSplitOnce(s, p).value;
    if |x| < |a| {
      assert false;
    }
    assert x == s[..|a|] == a;
    assert y == s[|a| + |p|..] == b;
  }
}
