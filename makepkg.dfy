/** The manifest's source entries, from src/makepkg.rs: a `Source` says where an
    artifact comes from, an `Input` adds the optional `filename::` prefix. */
module Makepkg {
  import opened Errors
  import opened Strings
  import opened Git

  datatype Source = File(path: string) | Url(url: string) | Git(git: GitSource)

  /** A bare source, or a source with an explicit filename (`filename::source`). */
  datatype Input = Url(src: Source) | UrlWithFilename(src: Source, name: string)

  /** A pin after its tag was looked up: the two hashes and the source it came from. */
  datatype ResolvedPin = ResolvedPin(commitHash: string, tagHash: string, source: Source)

  /** What the model leaves to the `url` crate and to `Path::file_name`: the last path
      segment of a local path, and of a URL (none when the URL does not parse, has no
      path or no segment). */
  datatype Naming = Naming(fileName: string -> Option<string>, lastSegment: string -> Option<string>)

  // ---------------------------------------------------------------------------
  // Input accessors

  /** `Input::source` and `Input::take_source`: the inner source of either variant. */
  function InnerSource(i: Input): (s: Source)
    ensures i == if i.Url? then Input.Url(s) else UrlWithFilename(s, i.name)
  {
    match i
    case Url(s) => s
    case UrlWithFilename(s, _) => s
  }

  /** Assigning through `Input::source_mut`: the inner source is replaced, the variant
      and the explicit filename stay. */
  function WithSource(i: Input, s: Source): (r: Input)
    ensures InnerSource(r) == s
    ensures r.Url? <==> i.Url?
    ensures i.UrlWithFilename? ==> r.name == i.name
  {
    match i
    case Url(_) => Input.Url(s)
    case UrlWithFilename(_, f) => UrlWithFilename(s, f)
  }

  // ---------------------------------------------------------------------------
  // Display

  /** `Display for Source`: the stored string, or the Git encoding. */
  function SourceString(s: Source): string {
    match s
    case File(p) => p
    case Url(u) => u
    case Git(g) => Encode(g)
  }

  /** `Display for Input`: `file::source` when a filename was given. */
  function InputString(i: Input): (r: string)
    ensures i.Url? ==> r == SourceString(InnerSource(i))
    ensures i.UrlWithFilename? ==> r == i.name + "::" + SourceString(InnerSource(i))
  {
    match i
    case Url(s) => SourceString(s)
    case UrlWithFilename(s, f) => f + "::" + SourceString(s)
  }

  // ---------------------------------------------------------------------------
  // Filenames

  /** The name the path or URL library gives, before the emptiness check. */
  function DerivedName(s: Source, naming: Naming): Result<string> {
    match s
    case File(p) =>
      (match naming.fileName(p)
       case None => Err(MissingFilename)
       case Some(n) => Ok(n))
    case Url(u) =>
      (match naming.lastSegment(u)
       case None => Err(UrlWithoutFilename)
       case Some(n) => Ok(n))
    case Git(g) =>
      (match naming.lastSegment(g.url)
       case None => Err(UrlWithoutFilename)
       case Some(n) => Ok(n))
  }

  /** `Source::filename`: never the empty string; an empty derived name is an error. */
  function SourceFilename(s: Source, naming: Naming): (r: Result<string>)
    ensures r.Ok? ==> r.value != ""
    ensures r.Ok? <==> DerivedName(s, naming).Ok? && DerivedName(s, naming).value != ""
    ensures r.Ok? ==> r.value == DerivedName(s, naming).value
    ensures DerivedName(s, naming).Err? ==> r == DerivedName(s, naming)
    ensures r.Err? && DerivedName(s, naming).Ok? ==> r.error == EmptyFilename
  {
    match DerivedName(s, naming)
    case Err(e) => Err(e)
    case Ok(n) => if n == "" then Err(EmptyFilename) else Ok(n)
  }

  /** `Input::filename`: the explicit filename verbatim, otherwise the source's own. */
  function InputFilename(i: Input, naming: Naming): (r: Result<string>)
    ensures i.Url? ==> r == SourceFilename(InnerSource(i), naming)
    ensures i.UrlWithFilename? ==> r == Ok(i.name)
  {
    match i
    case Url(s) => SourceFilename(s, naming)
    case UrlWithFilename(_, f) => Ok(f)
  }

  /** A Git source is named after its url alone, as a plain URL source with that url:
      the commit, tag and signed suffixes play no part. */
  lemma GitFilenameIgnoresSuffixes(g: GitSource, naming: Naming)
    ensures SourceFilename(Git(g), naming) == SourceFilename(Source.Url(g.url), naming)
    ensures forall c, t, b :: SourceFilename(Git(g), naming) == SourceFilename(Git(GitSource(g.url, c, t, b)), naming)
  {
  }

  // ---------------------------------------------------------------------------
  // Parsing

  const SCHEME_SEP := "://"
  const FILENAME_SEP := "::"

  /** The text before the first `://`, if there is one. */
  function Scheme(s: string): (r: Option<string>)
    ensures r.None? <==> !Contains(s, SCHEME_SEP)
    ensures r.Some? ==> StartsWith(s, r.value + SCHEME_SEP)
    ensures r.Some? ==> forall j :: 0 <= j < |r.value| ==> !OccursAt(s, SCHEME_SEP, j)
  {
    match SplitOnce(s, SCHEME_SEP)
    case None => None
    case Some((scheme, _)) => Some(scheme)
  }

  predicate IsUrlScheme(scheme: string) {
    scheme == "https" || scheme == "http" || scheme == "ftp"
  }

  /** `Source::from_str`: `https`, `http` and `ftp` keep the whole string as a URL, a
      scheme starting with `git` decodes the whole string as a Git source, any other
      scheme is refused and a string without `://` is a local file. */
  function ParseSource(s: string): (r: Result<Source>)
    ensures r.Ok? && (r.value.File? || r.value.Url?) ==> SourceString(r.value) == s
    ensures r.Ok? && r.value.File? <==> !Contains(s, SCHEME_SEP)
    ensures r.Ok? && r.value.Git? ==> r.value.git == Decode(s)
    ensures r.Err? ==> Scheme(s).Some? && r.error == UnknownScheme(Scheme(s).value)
    ensures r == Ok(Source.Url(s)) <==> Scheme(s).Some? && IsUrlScheme(Scheme(s).value)
    ensures r.Ok? && r.value.Git? <==>
      Scheme(s).Some? && !IsUrlScheme(Scheme(s).value) && StartsWith(Scheme(s).value, "git")
    ensures r.Err? <==>
      Scheme(s).Some? && !IsUrlScheme(Scheme(s).value) && !StartsWith(Scheme(s).value, "git")
  {
    match Scheme(s)
    case Some(scheme) =>
      if IsUrlScheme(scheme) then Ok(Source.Url(s))
      else if StartsWith(scheme, "git") then Ok(Git(Decode(s)))
      else Err(UnknownScheme(scheme))
    case None => Ok(File(s))
  }

  /** One line of a source array: split at the first `::` into an explicit filename and a
      source, or parse the whole line as a source. */
  function ParseInput(line: string): (r: Result<Input>)
    ensures !Contains(line, FILENAME_SEP) ==>
      if ParseSource(line).Ok? then r == Ok(Input.Url(ParseSource(line).value)) else r == Err(ParseSource(line).error)
    ensures r.Ok? ==> (r.value.UrlWithFilename? <==> Contains(line, FILENAME_SEP))
    ensures r.Ok? && r.value.UrlWithFilename? ==>
      && StartsWith(line, r.value.name + FILENAME_SEP)
      && !Contains(r.value.name, FILENAME_SEP) && !EndsWith(r.value.name, ":")
    ensures r.Ok? && r.value.UrlWithFilename? ==>
      ParseSource(line[|r.value.name| + |FILENAME_SEP|..]) == Ok(r.value.src)
    ensures r.Err? ==> r.error.UnknownScheme?
  {
    match SplitOnce(line, FILENAME_SEP)
    case Some((file, url)) =>
      FilenameBeforeSeparator(line);
      (match ParseSource(url)
       case Ok(s) => Ok(UrlWithFilename(s, file))
       case Err(e) => Err(e))
    case None =>
      (match ParseSource(line)
       case Ok(s) => Ok(Input.Url(s))
       case Err(e) => Err(e))
  }

  /** The explicit filename of a line is the text before its first `::`: it holds no
      `::` and does not end in `:`, and the source is everything after that `::`. */
  lemma FilenameBeforeSeparator(line: string)
    requires SplitOnce(line, FILENAME_SEP).Some?
    ensures var (file, url) := SplitOnce(line, FILENAME_SEP).value;
      && !Contains(file, FILENAME_SEP) && !EndsWith(file, ":")
      && line[|file| + |FILENAME_SEP|..] == url
  {
    var (file, url) := SplitOnce(line, FILENAME_SEP).value;
    SplitOnceHeadFree(line, FILENAME_SEP);
    assert line == file + FILENAME_SEP + url;
    if |file| > 0 {
      // the last character of `file` and the first of `::` are not a `::`
      var j := |file| - 1;
      assert !OccursAt(line, FILENAME_SEP, j);
      assert line[j..j + 2] == [file[j], ':'];
      assert file[|file| - 1..] == [file[j]];
    }
    assert line[|file| + |FILENAME_SEP|..] == url;
  }

  /** The element-wise parse of `list_source_list_from_var`, collected into one result:
      every line parsed in order, or the first failure. */
  function ParseInputList(lines: seq<string>): (r: Result<seq<Input>>)
    ensures r.Ok? <==> forall k :: 0 <= k < |lines| ==> ParseInput(lines[k]).Ok?
    ensures r.Ok? ==> |r.value| == |lines|
    ensures r.Ok? ==> forall k :: 0 <= k < |lines| ==> r.value[k] == ParseInput(lines[k]).value
  {
    if lines == [] then Ok([])
    else
      match ParseInput(lines[0])
      case Err(e) => Err(e)
      case Ok(i) =>
        match ParseInputList(lines[1..])
        case Err(e) => Err(e)
        case Ok(rest) => Ok([i] + rest)
  }

  /** The error of a failed list is the error of its first failing line. */
  lemma {:induction false} ParseInputListFirstError(lines: seq<string>, k: nat)
    requires k < |lines| && ParseInput(lines[k]).Err?
    requires forall j :: 0 <= j < k ==> ParseInput(lines[j]).Ok?
    ensures ParseInputList(lines) == Err(ParseInput(lines[k]).error)
  {
    if k > 0 {
      var rest := lines[1..];
      assert ParseInput(lines[0]).Ok?;
      assert rest[k - 1] == lines[k];
      forall j | 0 <= j < k - 1 ensures ParseInput(rest[j]).Ok? {
        assert rest[j] == lines[j + 1];
      }
      ParseInputListFirstError(rest, k - 1);
      assert ParseInputList(rest) == Err(ParseInput(lines[k]).error);
    }
  }

  // ---------------------------------------------------------------------------
  // Parsing what Display wrote

  /** A source whose text parses back to the same variant: a path without `://`, a URL
      with one of the three URL schemes, a Git source with a `git…` scheme and fields
      the Git codec reads back. */
  ghost predicate SchemeConsistent(s: Source) {
    match s
    case File(p) => !Contains(p, SCHEME_SEP)
    case Url(u) => Scheme(u).Some? && IsUrlScheme(Scheme(u).value)
    case Git(g) =>
      && Scheme(g.url).Some? && StartsWith(Scheme(g.url).value, "git")
      && !(g.commit.Some? && g.tag.Some?)
      && Plain(g.url)
      && (g.commit.Some? ==> Plain(g.commit.value))
      && (g.tag.Some? ==> Plain(g.tag.value))
  }

  lemma ParseSourceDisplay(s: Source)
    requires SchemeConsistent(s)
    ensures ParseSource(SourceString(s)) == Ok(s)
  {
    if s.Git? {
      ParseGitDisplay(s.git);
    }
  }

  /** The scheme of an encoded Git source is that of its url, and the codec reads the rest back. */
  lemma ParseGitDisplay(g: GitSource)
    requires SchemeConsistent(Git(g))
    ensures ParseSource(Encode(g)) == Ok(Git(g))
  {
    SchemeOfEncode(g);
    GitSchemeIsNotUrlScheme(Scheme(g.url).value);
    DecodeEncode(g);
  }

  /** The first `://` of an encoded Git source is the one in its url. */
  lemma SchemeOfEncode(g: GitSource)
    requires Scheme(g.url).Some?
    ensures Scheme(Encode(g)) == Scheme(g.url)
  {
    var signed := g.url + Flag(g.signed);
    var committed := signed + Part(COMMIT, g.commit);
    SchemeOfConcat(g.url, Flag(g.signed));
    SchemeOfConcat(signed, Part(COMMIT, g.commit));
    SchemeOfConcat(committed, Part(TAG, g.tag));
  }

  /** Text appended after a scheme separator does not change the scheme. */
  lemma SchemeOfConcat(a: string, b: string)
    requires Scheme(a).Some?
    ensures Scheme(a + b) == Scheme(a)
  {
    StartsWithConcat(a, b);
    SplitOnceInPrefix(a, a + b, SCHEME_SEP);
  }

  lemma GitSchemeIsNotUrlScheme(scheme: string)
    requires StartsWith(scheme, "git")
    ensures !IsUrlScheme(scheme)
  {
    assert scheme[0] == 'g';
  }

  /** `f::rest` is split at the `::` after `f` when `f` neither holds `::` nor ends in
      `:`, whatever `rest` holds. */
  lemma ParseInputSplitsAtFirst(f: string, rest: string)
    requires !Contains(f, FILENAME_SEP) && !EndsWith(f, ":")
    ensures ParseInput(f + FILENAME_SEP + rest) == (match ParseSource(rest)
                                                     case Ok(s) => Ok(UrlWithFilename(s, f))
                                                     case Err(e) => Err(e))
  {
    var line := f + FILENAME_SEP + rest;
    forall j | 0 <= j < |f| ensures !OccursAt(line, FILENAME_SEP, j) {
      if j + 2 <= |f| {
        assert line[j..j + 2] == f[j..j + 2];
        assert !OccursAt(f, FILENAME_SEP, j);
      } else {
        assert line[j] == f[|f| - 1];
        assert f[|f| - 1..] == [f[|f| - 1]];
        assert line[j..j + 2][0] == line[j];
      }
    }
    SplitOnceAt(line, FILENAME_SEP, f, rest);
  }

  /** Round trip: an entry written by `Display` parses back to itself when its pieces
      cannot be confused with the separators. */
  lemma ParseInputDisplay(i: Input)
    requires SchemeConsistent(InnerSource(i))
    requires i.Url? ==> !Contains(SourceString(InnerSource(i)), FILENAME_SEP)
    requires i.UrlWithFilename? ==> !Contains(i.name, FILENAME_SEP) && !EndsWith(i.name, ":")
    ensures ParseInput(InputString(i)) == Ok(i)
  {
    ParseSourceDisplay(InnerSource(i));
    match i
    case Url(s) =>
    case UrlWithFilename(s, f) =>
      ParseInputSplitsAtFirst(f, SourceString(s));
  }
}
