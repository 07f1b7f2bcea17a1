/** The Git source codec of src/git.rs: a `GitSource` is written as
    `url[?signed][#commit=C][#tag=T]` and read back by stripping those suffixes. */
module Git {
  import opened Errors
  import opened Strings

  const SIGNED := "?signed"
  const COMMIT := "#commit="
  const TAG := "#tag="

  datatype GitSource = GitSource(url: string, commit: Option<string>, tag: Option<string>, signed: bool)

  /** The `?signed` marker when `b` holds. */
  function Flag(b: bool): string {
    if b then SIGNED else ""
  }

  /** `marker` followed by the value, or nothing. */
  function Part(marker: string, v: Option<string>): string {
    match v
    case Some(x) => marker + x
    case None => ""
  }

  /** `Display`: the url, then `?signed`, then `#commit=`, then `#tag=`, each only when set. */
  function Encode(g: GitSource): string {
    g.url + Flag(g.signed) + Part(COMMIT, g.commit) + Part(TAG, g.tag)
  }

  // ---------------------------------------------------------------------------
  // Decoding (`FromStr`)

  /** One `strip_suffix("?signed")` step: the remaining text and whether the marker was there. */
  function StripSigned(s: string): (r: (string, bool))
    ensures r.1 == EndsWith(s, SIGNED)
    ensures s == r.0 + Flag(r.1)
  {
    match StripSuffix(s, SIGNED)
    case Some(rest) => (rest, true)
    case None => (s, false)
  }

  /** One `rsplit_once(marker)` step: the text before the last `marker` and the value after it. */
  function TakeLast(s: string, marker: string): (r: (string, Option<string>))
    requires |marker| > 0
    ensures r.1.None? <==> !Contains(s, marker)
    ensures r.1.None? ==> r.0 == s
    ensures r.1.Some? ==> s == r.0 + marker + r.1.value && !Contains(r.1.value, marker)
    ensures r.1.Some? ==> forall j :: |r.0| < j ==> !OccursAt(s, marker, j)
  {
    match RSplitOnce(s, marker)
    case Some((rest, value)) => (rest, Some(value))
    case None => (s, None)
  }

  /** What `FromStr` computes: strip `?signed`, split off the last `#commit=`, then the
      last `#tag=`, then strip `?signed` once more. */
  function Decode(s: string): GitSource {
    var (s1, signed1) := StripSigned(s);
    var (s2, commit) := TakeLast(s1, COMMIT);
    var (s3, tag) := TakeLast(s2, TAG);
    var (s4, signed2) := StripSigned(s3);
    GitSource(s4, commit, tag, signed1 || signed2)
  }

  /** `GitSource::from_str`, rebinding its locals step by step as the source does.
      It never fails. */
  method FromStr(input: string) returns (r: Result<GitSource>)
    ensures r == Ok(Decode(input))
  {
    var s := input;
    var signed := false;
    var commit: Option<string> := None;
    var tag: Option<string> := None;

    var remaining := StripSuffix(s, SIGNED);
    if remaining.Some? {
      signed := true;
      s := remaining.value;
    }

    var split := RSplitOnce(s, COMMIT);
    if split.Some? {
      commit := Some(split.value.1);
      s := split.value.0;
    }

    split := RSplitOnce(s, TAG);
    if split.Some? {
      tag := Some(split.value.1);
      s := split.value.0;
    }

    remaining := StripSuffix(s, SIGNED);
    if remaining.Some? {
      signed := true;
      s := remaining.value;
    }

    r := Ok(GitSource(s, commit, tag, signed));
  }

  // ---------------------------------------------------------------------------
  // The layout `FromStr` reads, and the round trip through `Display`

  /** Text laid out in the order `FromStr` peels it off from the right: url, an inner
      `?signed`, a `#tag=` part, a `#commit=` part, an outer `?signed`. */
  function ReadingOrder(url: string, inner: bool, tag: Option<string>, commit: Option<string>, outer: bool): string {
    url + Flag(inner) + Part(TAG, tag) + Part(COMMIT, commit) + Flag(outer)
  }

  /** The pieces of a `ReadingOrder` text can be told apart: no marker hides in a place
      where `FromStr` would find it first. */
  ghost predicate Readable(url: string, inner: bool, tag: Option<string>, commit: Option<string>, outer: bool) {
    && !EndsWith(url, SIGNED)
    && (tag.None? ==> !Contains(url, TAG))
    && (tag.Some? ==> !Contains(tag.value, TAG))
    && (commit.Some? ==> !Contains(commit.value, COMMIT))
    && (commit.None? ==> !Contains(url, COMMIT) && (tag.Some? ==> !Contains(tag.value, COMMIT)))
    && (!outer && commit.Some? ==> !EndsWith(commit.value, SIGNED))
    && (!outer && commit.None? && tag.Some? ==> !EndsWith(tag.value, SIGNED))
  }

  /** A value is plain when no `FromStr` marker can be found in it. */
  ghost predicate Plain(x: string) {
    !Contains(x, COMMIT) && !Contains(x, TAG) && !EndsWith(x, SIGNED)
  }

  lemma MarkerChars()
    ensures |SIGNED| == 7 && |COMMIT| == 8 && |TAG| == 5
    ensures forall k :: 0 <= k < |SIGNED| ==> SIGNED[k] != '#' && SIGNED[k] != '='
    ensures forall k :: 1 <= k < |COMMIT| ==> COMMIT[k] != '#' && COMMIT[k] != '?'
    ensures forall k :: 1 <= k < |TAG| ==> TAG[k] != '#' && TAG[k] != '?'
    ensures COMMIT[0] == '#' && TAG[0] == '#' && SIGNED[0] == '?'
    ensures COMMIT[7] == '=' && TAG[4] == '=' && COMMIT[1] != TAG[1]
  {
  }

  /** `?signed` holds no `#tag=` or `#commit=`, and cannot start one that ends after it. */
  lemma SignedAfter(z: string, m: string)
    requires m == COMMIT || m == TAG
    requires !Contains(z, m)
    ensures !Contains(z + SIGNED, m)
  {
    MarkerChars();
    NoOccurrenceWithoutHead(SIGNED, m);
    NoStraddleByNext(z, SIGNED, m);
    NoOccurrenceInConcat(z, SIGNED, m);
  }

  /** `-marker + x` holds no further marker when `x` holds none: the marker's own tail
      has no `#`. */
  lemma MarkedValueTail(m: string, x: string, p: string)
    requires m == COMMIT || m == TAG
    requires p == COMMIT || p == TAG
    requires !Contains(x, p)
    ensures !Contains(m[1..] + x, p)
  {
    MarkerChars();
    var t := m[1..];
    assert forall k :: 0 <= k < |t| ==> t[k] == m[k + 1];
    NoOccurrenceWithoutHead(t, p);
    NoStraddleByHead(t, x, p);
    NoOccurrenceInConcat(t, x, p);
  }

  lemma StripSignedFlag(u: string, b: bool)
    requires !b ==> !EndsWith(u, SIGNED)
    ensures StripSigned(u + Flag(b)) == (u, b)
  {
    var r := StripSigned(u + Flag(b));
    if b {
      assert EndsWith(u + SIGNED, SIGNED);
      assert r.0 == (u + SIGNED)[..|u|] == u;
    } else {
      assert u + Flag(b) == u;
    }
  }

  lemma TakeLastPart(y: string, m: string, v: Option<string>)
    requires m == COMMIT || m == TAG
    requires v.Some? ==> !Contains(v.value, m)
    requires v.None? ==> !Contains(y, m)
    ensures TakeLast(y + Part(m, v), m) == (y, v)
  {
    match v
    case None =>
      assert y + Part(m, v) == y;
    case Some(x) =>
      var s := y + m + x;
      assert y + Part(m, v) == s;
      var t := m[1..] + x;
      MarkedValueTail(m, x, m);
      assert s[|y| + 1..] == t;
      forall j | |y| < j && j + |m| <= |s| ensures !OccursAt(s, m, j) {
        assert s[j..j + |m|] == t[j - |y| - 1..j - |y| - 1 + |m|];
        assert !OccursAt(t, m, j - |y| - 1);
      }
      RSplitOnceAt(s, m, y, x);
  }

  /** `#tag=t` holds no `#commit=` when `t` holds none. */
  lemma TagPartHasNoCommit(t: string)
    requires !Contains(t, COMMIT)
    ensures !Contains(TAG + t, COMMIT)
  {
    MarkerChars();
    MarkedValueTail(TAG, t, COMMIT);
    assert (TAG + t)[1..] == TAG[1..] + t;
    NoOccurrenceBySecond(TAG + t, COMMIT);
  }

  /** The `#tag=` split of `FromStr` on `url[?signed][#tag=t]`. */
  lemma TagStage(url: string, inner: bool, tag: Option<string>)
    requires tag.None? ==> !Contains(url, TAG)
    requires tag.Some? ==> !Contains(tag.value, TAG)
    ensures TakeLast(url + Flag(inner) + Part(TAG, tag), TAG) == (url + Flag(inner), tag)
  {
    if tag.None? && inner {
      SignedAfter(url, TAG);
    }
    assert url + Flag(false) == url;
    TakeLastPart(url + Flag(inner), TAG, tag);
  }

  /** The `#commit=` split of `FromStr` on `y[#commit=c]`, `y` being `url[?signed][#tag=t]`. */
  lemma CommitStage(url: string, inner: bool, tag: Option<string>, commit: Option<string>)
    requires commit.Some? ==> !Contains(commit.value, COMMIT)
    requires commit.None? ==> !Contains(url, COMMIT) && (tag.Some? ==> !Contains(tag.value, COMMIT))
    ensures var y := url + Flag(inner) + Part(TAG, tag);
      TakeLast(y + Part(COMMIT, commit), COMMIT) == (y, commit)
  {
    var z := url + Flag(inner);
    assert url + Flag(false) == url;
    if commit.None? {
      if inner {
        SignedAfter(url, COMMIT);
      }
      if tag.Some? {
        MarkerChars();
        TagPartHasNoCommit(tag.value);
        NoStraddleByNext(z, TAG + tag.value, COMMIT);
        NoOccurrenceInConcat(z, TAG + tag.value, COMMIT);
      } else {
        assert z + Part(TAG, tag) == z;
      }
    }
    TakeLastPart(z + Part(TAG, tag), COMMIT, commit);
  }

  /** The first `?signed` strip of `FromStr` on `x[?signed]`, when `x` ends in a marker part. */
  lemma FirstStripStage(y: string, m: string, v: string, outer: bool)
    requires m == COMMIT || m == TAG
    requires !outer ==> !EndsWith(v, SIGNED)
    ensures StripSigned(y + (m + v) + Flag(outer)) == (y + (m + v), outer)
  {
    if !outer {
      MarkerChars();
      NotEndsWithAfterMarker(y, m, v, SIGNED);
      assert y + (m + v) == y + m + v;
    }
    StripSignedFlag(y + (m + v), outer);
  }

  /** `FromStr` recovers every piece of a readable `ReadingOrder` text; the two
      `?signed` strips together give one flag. */
  lemma DecodeReadingOrder(url: string, inner: bool, tag: Option<string>, commit: Option<string>, outer: bool)
    requires Readable(url, inner, tag, commit, outer)
    ensures Decode(ReadingOrder(url, inner, tag, commit, outer)) == GitSource(url, commit, tag, inner || outer)
  {
    var z := url + Flag(inner);
    var y := z + Part(TAG, tag);
    var x := y + Part(COMMIT, commit);
    var s := x + Flag(outer);
    assert s == ReadingOrder(url, inner, tag, commit, outer);
    if commit.None? && tag.None? && !outer {
      // only `url[?signed]` is there: the first strip takes the marker if any, the second finds none
      assert s == url + Flag(inner);
      StripSignedFlag(url, inner);
      TakeLastPart(url, COMMIT, None);
      TakeLastPart(url, TAG, None);
      StripSignedFlag(url, false);
      assert url + Flag(false) == url;
    } else {
      if commit.Some? {
        FirstStripStage(y, COMMIT, commit.value, outer);
      } else if tag.Some? {
        FirstStripStage(z, TAG, tag.value, outer);
        assert x == z + (TAG + tag.value);
      } else {
        StripSignedFlag(x, true);
      }
      assert StripSigned(s) == (x, outer);
      CommitStage(url, inner, tag, commit);
      TagStage(url, inner, tag);
      StripSignedFlag(url, inner);
    }
  }

  /** Round trip: decoding the encoding gives the value back when at most one of
      commit and tag is set and no field holds a marker `FromStr` would find. */
  lemma DecodeEncode(g: GitSource)
    requires !(g.commit.Some? && g.tag.Some?)
    requires Plain(g.url)
    requires g.commit.Some? ==> Plain(g.commit.value)
    requires g.tag.Some? ==> Plain(g.tag.value)
    ensures Decode(Encode(g)) == g
  {
    assert Encode(g) == ReadingOrder(g.url, g.signed, g.tag, g.commit, false);
    DecodeReadingOrder(g.url, g.signed, g.tag, g.commit, false);
  }

  /** With both commit and tag set, `FromStr` splits on `#commit=` first, so the tag
      part is read as the tail of the commit and the tag is lost. */
  lemma DecodeEncodeBothSet(g: GitSource)
    requires g.commit.Some? && g.tag.Some?
    requires Plain(g.url) && Plain(g.commit.value) && Plain(g.tag.value)
    ensures Decode(Encode(g)) == g.(commit := Some(g.commit.value + TAG + g.tag.value), tag := None)
    ensures Decode(Encode(g)) != g
  {
    MarkerChars();
    var c, t := g.commit.value, g.tag.value;
    var merged := c + TAG + t;
    TagPartHasNoCommit(t);
    NoStraddleByNext(c, TAG + t, COMMIT);
    NoOccurrenceInConcat(c, TAG + t, COMMIT);
    assert c + TAG + t == c + (TAG + t);
    NotEndsWithAfterMarker(c, TAG, t, SIGNED);
    assert Encode(g) == ReadingOrder(g.url, g.signed, None, Some(merged), false);
    DecodeReadingOrder(g.url, g.signed, None, Some(merged), false);
  }
}
